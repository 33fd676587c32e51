/**
 * The slot table behind the overlay store's `SlotMap`: a vector of slots,
 * each empty or holding one live handle, and the free list of empty slots,
 * most recently freed first. An insertion takes the most recently freed
 * slot, or a new slot at the end when none is free; a removal empties the
 * handle's slot and puts it at the head of the free list; iteration visits
 * the occupied slots by index.
 */
module Slots {
  import opened Types

  datatype SlotTable = SlotTable(slots: seq<Option<Handle>>, free: seq<nat>)

  /** No handle occupies two slots. */
  predicate NoDup(slots: seq<Option<Handle>>) {
    forall i, j :: 0 <= i < j < |slots| && slots[i].Some? ==> slots[i] != slots[j]
  }

  /** Handles occupy one slot each, and the free list holds exactly the empty slots, once each. */
  predicate TableValid(t: SlotTable) {
    && NoDup(t.slots)
    && Distinct(t.free)
    && (forall k :: k in t.free ==> k < |t.slots| && t.slots[k].None?)
    && (forall i :: 0 <= i < |t.slots| && t.slots[i].None? ==> i in t.free)
  }

  /** The live handles in slot order: the order the store iterates in. */
  function Occupied(slots: seq<Option<Handle>>): seq<Handle>
    decreases |slots|
  {
    if slots == [] then []
    else Occupied(slots[..|slots| - 1]) + (if slots[|slots| - 1].Some? then [slots[|slots| - 1].value] else [])
  }

  /** The iteration visits exactly the handles held in the slots. */
  lemma {:induction false} OccupiedMembers(slots: seq<Option<Handle>>)
    ensures forall h :: h in Occupied(slots) <==> Some(h) in slots
    decreases |slots|
  {
    if slots != [] {
      var init := slots[..|slots| - 1];
      OccupiedMembers(init);
      assert slots == init + [slots[|slots| - 1]];
    }
  }

  /** `SlotMap::insert`: the most recently freed slot if there is one, else a new slot at the end. */
  function SlotInsert(t: SlotTable, h: Handle): SlotTable {
    if t.free != [] && t.free[0] < |t.slots| then SlotTable(t.slots[t.free[0] := Some(h)], t.free[1..])
    else SlotTable(t.slots + [Some(h)], t.free)
  }

  /** `SlotMap::remove`: empty the handle's slot and push it on the free list; nothing for a dead handle. */
  function SlotRemove(t: SlotTable, h: Handle): SlotTable {
    if Some(h) in t.slots then
      var k := Position(t.slots, Some(h));
      SlotTable(t.slots[k := None], [k] + t.free)
    else t
  }

  /** Insert the handles of `hs` one after the other. */
  function SlotInsertAll(t: SlotTable, hs: seq<Handle>): SlotTable
    decreases |hs|
  {
    if hs == [] then t else SlotInsert(SlotInsertAll(t, hs[..|hs| - 1]), hs[|hs| - 1])
  }

  /** Remove the handles of `hs` one after the other. */
  function SlotRemoveAll(t: SlotTable, hs: seq<Handle>): SlotTable
    decreases |hs|
  {
    if hs == [] then t else SlotRemove(SlotRemoveAll(t, hs[..|hs| - 1]), hs[|hs| - 1])
  }

  /** Iterating two parts of the slot vector one after the other. */
  lemma {:induction false} OccupiedAppend(a: seq<Option<Handle>>, b: seq<Option<Handle>>)
    ensures Occupied(a + b) == Occupied(a) + Occupied(b)
    decreases |b|
  {
    if b == [] {
      assert a + b == a;
    } else {
      var init := b[..|b| - 1];
      OccupiedAppend(a, init);
      assert (a + b)[..|a + b| - 1] == a + init;
    }
  }

  /** Without duplicate handles in the slots, the iteration visits each handle once. */
  lemma {:induction false} OccupiedDistinct(slots: seq<Option<Handle>>)
    requires NoDup(slots)
    ensures Distinct(Occupied(slots))
    decreases |slots|
  {
    if slots != [] {
      var init := slots[..|slots| - 1];
      assert NoDup(init);
      OccupiedDistinct(init);
      OccupiedMembers(init);
      if slots[|slots| - 1].Some? {
        assert Some(slots[|slots| - 1].value) !in init;
      }
    }
  }

  /**
   * An insertion keeps the table valid and adds exactly the new handle.
   */
  lemma InsertValid(t: SlotTable, h: Handle)
    requires TableValid(t) && Some(h) !in t.slots
    ensures TableValid(SlotInsert(t, h))
    ensures forall x :: Some(x) in SlotInsert(t, h).slots <==> Some(x) in t.slots || x == h
  {
    var s := t.slots;
    var r := SlotInsert(t, h);
    if t.free != [] {
      var k := t.free[0];
      assert k in t.free;
      assert r.slots == s[k := Some(h)] && r.free == t.free[1..];
      forall x | Some(x) in r.slots ensures Some(x) in s || x == h {
        var i :| 0 <= i < |r.slots| && r.slots[i] == Some(x);
        if i != k { assert s[i] == Some(x); }
      }
      forall x | Some(x) in s ensures Some(x) in r.slots {
        var i :| 0 <= i < |s| && s[i] == Some(x);
        assert r.slots[i] == Some(x);
      }
      assert r.slots[k] == Some(h);
      forall k' | k' in r.free ensures k' < |r.slots| && r.slots[k'].None? {
        assert t.free == [k] + r.free && k' in t.free && k' != k;
      }
      forall i | 0 <= i < |r.slots| && r.slots[i].None? ensures i in r.free {
        assert i != k && s[i].None? && i in t.free;
        assert t.free == [k] + r.free;
      }
    } else {
      assert r.slots == s + [Some(h)];
      assert r.slots[|s|] == Some(h);
    }
  }

  /**
   * A removal keeps the table valid and drops exactly the removed handle;
   * the freed slot is the one the handle held and heads the free list.
   */
  lemma RemoveValid(t: SlotTable, h: Handle)
    requires TableValid(t)
    ensures TableValid(SlotRemove(t, h))
    ensures forall x :: Some(x) in SlotRemove(t, h).slots <==> Some(x) in t.slots && x != h
    ensures Some(h) in t.slots ==>
      && SlotRemove(t, h).free == [SlotRemove(t, h).free[0]] + t.free
      && SlotRemove(t, h).free[0] < |t.slots| && t.slots[SlotRemove(t, h).free[0]] == Some(h)
  {
    var s := t.slots;
    var r := SlotRemove(t, h);
    if Some(h) in s {
      var k := Position(s, Some(h));
      assert r.slots == s[k := None] && r.free == [k] + t.free;
      assert k !in t.free;
      forall x | Some(x) in r.slots ensures Some(x) in s && x != h {
        var i :| 0 <= i < |r.slots| && r.slots[i] == Some(x);
        assert i != k && s[i] == Some(x);
        if i < k { assert s[i] != s[k]; } else { assert s[k] != s[i]; }
      }
      forall x | Some(x) in s && x != h ensures Some(x) in r.slots {
        var i :| 0 <= i < |s| && s[i] == Some(x);
        assert r.slots[i] == Some(x);
      }
    }
  }

  /** Iterating a slot vector split around one slot. */
  lemma OccupiedSplice(before: seq<Option<Handle>>, x: Option<Handle>, after: seq<Option<Handle>>)
    ensures Occupied(before + [x] + after) == Occupied(before) + (if x.Some? then [x.value] else []) + Occupied(after)
  {
    OccupiedAppend(before + [x], after);
    OccupiedAppend(before, [x]);
    assert [x][..0] == [];
  }

  /** A handle held in slot `k` is held in no slot before or after it. */
  lemma OnlySlot(s: seq<Option<Handle>>, k: nat)
    requires NoDup(s) && k < |s| && s[k].Some?
    ensures s[k] !in s[..k] && s[k] !in s[k + 1..]
  {
    var before, after := s[..k], s[k + 1..];
    forall i | 0 <= i < |before| ensures before[i] != s[k] {
      assert s[i].Some? ==> s[i] != s[k];
    }
    forall i | 0 <= i < |after| ensures after[i] != s[k] {
      assert after[i] == s[k + 1 + i] && s[k] != s[k + 1 + i];
    }
  }

  /**
   * Removing a handle removes it from the iteration order and leaves the
   * other handles in their order.
   */
  lemma RemoveOrder(t: SlotTable, h: Handle)
    requires NoDup(t.slots)
    ensures Occupied(SlotRemove(t, h).slots) == Without(Occupied(t.slots), {h})
  {
    if Some(h) in t.slots {
      EmptySlotOrder(t.slots, Position(t.slots, Some(h)));
    } else {
      OccupiedMembers(t.slots);
      WithoutNone(Occupied(t.slots), {h});
    }
  }

  /** Emptying the slot of a handle takes just that handle out of the iteration order. */
  lemma EmptySlotOrder(s: seq<Option<Handle>>, k: nat)
    requires NoDup(s) && k < |s| && s[k].Some?
    ensures Occupied(s[k := None]) == Without(Occupied(s), {s[k].value})
  {
    var h := s[k].value;
    var before, after := s[..k], s[k + 1..];
    assert Occupied(s) == Occupied(before) + [h] + Occupied(after) by {
      assert s == before + [Some(h)] + after;
      OccupiedSplice(before, Some(h), after);
    }
    assert Occupied(s[k := None]) == Occupied(before) + Occupied(after) by {
      assert s[k := None] == before + [None] + after;
      OccupiedSplice(before, None, after);
    }
    assert h !in Occupied(before) && h !in Occupied(after) by {
      OnlySlot(s, k);
      OccupiedMembers(before);
      OccupiedMembers(after);
    }
    WithoutSplice(Occupied(before), h, Occupied(after));
  }


  /** Removing the handles of `hs` keeps the table valid and drops exactly them. */
  lemma {:induction false} RemoveAllValid(t: SlotTable, hs: seq<Handle>)
    requires TableValid(t)
    ensures TableValid(SlotRemoveAll(t, hs))
    ensures forall x :: Some(x) in SlotRemoveAll(t, hs).slots <==> Some(x) in t.slots && x !in hs
    decreases |hs|
  {
    if hs != [] {
      var init := hs[..|hs| - 1];
      assert hs == init + [hs[|hs| - 1]];
      RemoveAllValid(t, init);
      RemoveValid(SlotRemoveAll(t, init), hs[|hs| - 1]);
    }
  }

  /** Removing the handles of `hs` takes them out of the iteration order, the rest keeping their order. */
  lemma {:induction false} RemoveAllOrder(t: SlotTable, hs: seq<Handle>)
    requires TableValid(t)
    ensures Occupied(SlotRemoveAll(t, hs).slots) == Without(Occupied(t.slots), Elements(hs))
    decreases |hs|
  {
    if hs == [] {
      WithoutNone(Occupied(t.slots), Elements(hs));
    } else {
      var init, last := hs[..|hs| - 1], hs[|hs| - 1];
      assert hs == init + [last];
      RemoveAllOrder(t, init);
      RemoveAllValid(t, init);
      RemoveOrder(SlotRemoveAll(t, init), last);
      WithoutTwice(Occupied(t.slots), Elements(init), {last});
      ElementsSnoc(init, last);
    }
  }

  /**
   * After removing the handles of `hs`, the iteration visits exactly the
   * handles it visited before that are not in `hs`.
   */
  lemma RemoveAllVisits(t: SlotTable, hs: seq<Handle>)
    requires TableValid(t)
    ensures forall x :: x in Occupied(SlotRemoveAll(t, hs).slots) <==> x in Occupied(t.slots) && x !in hs
  {
    RemoveAllOrder(t, hs);
    WithoutMembers(Occupied(t.slots), Elements(hs));
  }

  /**
   * Where an insertion lands in the iteration order: last when no slot is
   * free, otherwise at the position of the most recently freed slot, that
   * is after the handles in lower slots and before those in higher ones.
   */
  lemma InsertOrder(t: SlotTable, h: Handle)
    requires TableValid(t)
    ensures t.free == [] ==> Occupied(SlotInsert(t, h).slots) == Occupied(t.slots) + [h]
    ensures t.free != [] ==>
      && t.free[0] < |t.slots|
      && Occupied(t.slots) == Occupied(t.slots[..t.free[0]]) + Occupied(t.slots[t.free[0] + 1..])
      && Occupied(SlotInsert(t, h).slots) == Occupied(t.slots[..t.free[0]]) + [h] + Occupied(t.slots[t.free[0] + 1..])
  {
    if t.free == [] {
      assert (t.slots + [Some(h)])[..|t.slots|] == t.slots;
    } else {
      assert t.free[0] in t.free;
      FillSlotOrder(t.slots, t.free[0], h);
    }
  }

  /** Filling an empty slot puts the handle between the handles of the slots around it. */
  lemma FillSlotOrder(s: seq<Option<Handle>>, k: nat, h: Handle)
    requires k < |s| && s[k].None?
    ensures Occupied(s) == Occupied(s[..k]) + Occupied(s[k + 1..])
    ensures Occupied(s[k := Some(h)]) == Occupied(s[..k]) + [h] + Occupied(s[k + 1..])
  {
    var before, after := s[..k], s[k + 1..];
    assert Occupied(s) == Occupied(before) + Occupied(after) by {
      assert s == before + [None] + after;
      OccupiedSplice(before, None, after);
    }
    assert Occupied(s[k := Some(h)]) == Occupied(before) + [h] + Occupied(after) by {
      assert s[k := Some(h)] == before + [Some(h)] + after;
      OccupiedSplice(before, Some(h), after);
    }
  }


  /**
   * Removing a handle and inserting another gives the new one the slot just
   * freed: the free list is as before and the new handle sits where the
   * old one did.
   */
  lemma ReuseLastFreed(t: SlotTable, h: Handle, h': Handle)
    requires TableValid(t) && Some(h) in t.slots
    ensures SlotInsert(SlotRemove(t, h), h') == SlotTable(t.slots[Position(t.slots, Some(h)) := Some(h')], t.free)
  {
    var k := Position(t.slots, Some(h));
    assert t.slots[k := None][k := Some(h')] == t.slots[k := Some(h')];
    assert ([k] + t.free)[1..] == t.free;
  }

  /**
   * Two insertions into an empty table, a removal of the first and a third
   * insertion: the third handle reuses the first slot, so iteration visits
   * it before the second.
   */
  lemma FreedSlotVisitedFirst(a: Handle, b: Handle, c: Handle)
    requires a != b
    ensures Occupied(SlotInsert(SlotRemove(SlotInsert(SlotInsert(SlotTable([], []), a), b), a), c).slots) == [c, b]
  {
    assert SlotInsert(SlotInsert(SlotTable([], []), a), b) == SlotTable([Some(a), Some(b)], []);
    assert Position([Some(a), Some(b)], Some(a)) == 0;
    assert SlotInsert(SlotTable([None, Some(b)], [0]), c).slots == [Some(c), Some(b)];
    assert [Some(c), Some(b)][..1] == [Some(c)];
    assert Occupied([Some(c)]) == [c] by {
      assert [Some(c)][..0] == [];
    }
  }

  /** In a valid table a handle occupies one slot: the one `Position` finds. */
  lemma SlotOf(t: SlotTable, k: nat, h: Handle)
    requires TableValid(t) && k < |t.slots| && t.slots[k] == Some(h)
    ensures Position(t.slots, Some(h)) == k
  {
  }

  /** Removal keeps the number of slots and only empties slots. */
  lemma {:induction false} RemoveAllEmpties(t: SlotTable, hs: seq<Handle>)
    ensures |SlotRemoveAll(t, hs).slots| == |t.slots|
    ensures forall k :: 0 <= k < |t.slots| && SlotRemoveAll(t, hs).slots[k].Some? ==> SlotRemoveAll(t, hs).slots[k] == t.slots[k]
    decreases |hs|
  {
    if hs != [] {
      RemoveAllEmpties(t, hs[..|hs| - 1]);
    }
  }

  /**
   * Removing live handles one after the other frees their slots, each
   * pushed on the free list: the last removed handle's slot comes first,
   * the slots freed before follow.
   */
  lemma {:induction false} RemoveAllFreesInReverse(t: SlotTable, hs: seq<Handle>)
    requires TableValid(t) && Distinct(hs)
    requires forall x :: x in hs ==> Some(x) in t.slots
    ensures |SlotRemoveAll(t, hs).free| == |hs| + |t.free| && SlotRemoveAll(t, hs).free[|hs|..] == t.free
    ensures forall i :: 0 <= i < |hs| ==>
      SlotRemoveAll(t, hs).free[i] < |t.slots| && t.slots[SlotRemoveAll(t, hs).free[i]] == Some(hs[|hs| - 1 - i])
    decreases |hs|
  {
    if hs != [] {
      var n := |hs|;
      var init, last := hs[..n - 1], hs[n - 1];
      var r := SlotRemoveAll(t, init);
      var r' := SlotRemove(r, last);
      assert r' == SlotRemoveAll(t, hs);
      assert Distinct(init) && last !in init && forall x :: x in init ==> x in hs by {
        assert hs == init + [last];
      }
      RemoveAllFreesInReverse(t, init);
      assert TableValid(r) && Some(last) in r.slots by {
        RemoveAllValid(t, init);
      }
      assert r'.free == [r'.free[0]] + r.free && r'.free[0] < |r.slots| && r.slots[r'.free[0]] == Some(last) by {
        RemoveValid(r, last);
      }
      assert r'.free[0] < |t.slots| && t.slots[r'.free[0]] == Some(last) by {
        RemoveAllEmpties(t, init);
      }
      forall i | 0 <= i < n
        ensures r'.free[i] < |t.slots| && t.slots[r'.free[i]] == Some(hs[n - 1 - i])
      {
        if i > 0 {
          assert r'.free[i] == r.free[i - 1];
          assert hs[n - 1 - i] == init[|init| - 1 - (i - 1)];
        }
      }
      assert r'.free[n..] == r.free[|init|..];
    }
  }

  /**
   * Replacing handles `prev` by handles `nw` (remove all, then insert all,
   * as a skybox rebuild does): while the freed slots last, the `i`-th new
   * handle takes the slot of the `i`-th old handle counted from the last,
   * so the new handles land in the old handles' slots in reverse.
   */
  lemma RefillReverses(t: SlotTable, prev: seq<Handle>, nw: seq<Handle>, i: nat)
    requires TableValid(t) && Distinct(prev) && i < |nw| <= |prev|
    requires forall x :: x in prev ==> Some(x) in t.slots
    ensures Position(t.slots, Some(prev[|prev| - 1 - i])) < |t.slots| == |SlotInsertAll(SlotRemoveAll(t, prev), nw).slots|
    ensures SlotInsertAll(SlotRemoveAll(t, prev), nw).slots[Position(t.slots, Some(prev[|prev| - 1 - i]))] == Some(nw[i])
  {
    var r := SlotRemoveAll(t, prev);
    assert TableValid(r) by { RemoveAllValid(t, prev); }
    assert |r.slots| == |t.slots| by { RemoveAllEmpties(t, prev); }
    assert |nw| <= |r.free| && r.free[i] < |t.slots| && t.slots[r.free[i]] == Some(prev[|prev| - 1 - i]) by {
      RemoveAllFreesInReverse(t, prev);
    }
    InsertAllFillsFreed(r, nw);
    SlotOf(t, r.free[i], prev[|prev| - 1 - i]);
  }

  /**
   * Inserting several handles while free slots last: the `i`-th handle takes
   * the `i`-th most recently freed slot, and the free list loses those slots.
   */
  lemma {:induction false} InsertAllFillsFreed(t: SlotTable, hs: seq<Handle>)
    requires TableValid(t) && |hs| <= |t.free|
    ensures |SlotInsertAll(t, hs).slots| == |t.slots|
    ensures SlotInsertAll(t, hs).free == t.free[|hs|..]
    ensures forall i :: 0 <= i < |hs| ==>
      t.free[i] < |t.slots| && SlotInsertAll(t, hs).slots[t.free[i]] == Some(hs[i])
    decreases |hs|
  {
    if hs != [] {
      var n := |hs|;
      var init := hs[..n - 1];
      InsertAllFillsFreed(t, init);
      var mid := SlotInsertAll(t, init);
      var k := t.free[n - 1];
      assert k in t.free;
      assert mid.free[0] == k && mid.free[1..] == t.free[n..];
      forall i | 0 <= i < n
        ensures t.free[i] < |t.slots| && SlotInsertAll(t, hs).slots[t.free[i]] == Some(hs[i])
      {
        assert t.free[i] in t.free;
        if i < n - 1 {
          assert t.free[i] != k;
          assert hs[i] == init[i];
        }
      }
    }
  }
}
