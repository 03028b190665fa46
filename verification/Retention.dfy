/**
 Retention: deleting the oldest rows of a table in batches (mdb/db.go, BatchDeleteFromTop,
 deleteByCount and deleteByDays).
 */
module Retention {
  import opened Sequences

  const EACH_COUNT: nat := 1000

  /** A table's ids: positive and in ascending order. */
  predicate TableIds(ids: seq<nat>) {
    ids == [] || (ids[0] > 0 && (|ids| > 1 ==> ids[0] < ids[1]) && TableIds(ids[1..]))
  }

  lemma {:induction false} TableIdsOrdered(ids: seq<nat>)
    requires TableIds(ids)
    ensures forall i | 0 <= i < |ids| :: ids[i] > 0
    ensures forall i, j | 0 <= i < j < |ids| :: ids[i] < ids[j]
  {
    if ids != [] {
      var rest := ids[1..];
      TableIdsOrdered(rest);
      assert forall i | 0 < i < |ids| :: ids[i] == rest[i - 1];
    }
  }

  lemma {:induction false} TableIdsSuffix(ids: seq<nat>, k: nat)
    requires TableIds(ids) && k <= |ids|
    ensures TableIds(ids[k..])
  {
    if k > 0 {
      TableIdsSuffix(ids[1..], k - 1);
      assert ids[1..][k - 1..] == ids[k..];
    }
  }

  /** DELETE ... WHERE id < bound. */
  function From(ids: seq<nat>, bound: nat): seq<nat> {
    if ids == [] then [] else (if ids[0] >= bound then [ids[0]] else []) + From(ids[1..], bound)
  }

  /** Deleting every id below the one at position k leaves the suffix from k. */
  lemma {:induction false} DeleteBelowPosition(ids: seq<nat>, k: nat)
    requires TableIds(ids) && k < |ids|
    ensures ids[k] > 0 && From(ids, ids[k]) == ids[k..]
  {
    TableIdsOrdered(ids);
    if k == 0 {
      AllKept(ids, ids[0]);
    } else {
      DeleteBelowPosition(ids[1..], k - 1);
    }
  }

  lemma {:induction false} AllKept(ids: seq<nat>, bound: nat)
    requires forall i | 0 <= i < |ids| :: ids[i] >= bound
    ensures From(ids, bound) == ids
  {
    if ids != [] {
      AllKept(ids[1..], bound);
    }
  }

  lemma {:induction false} TableIdsPrefix(ids: seq<nat>, more: seq<nat>)
    requires TableIds(ids + more)
    ensures TableIds(ids)
  {
    if ids != [] {
      assert (ids + more)[1..] == ids[1..] + more;
      TableIdsPrefix(ids[1..], more);
    }
  }

  // ---------- The batches, one at a time ----------

  /** What others insert just before batch i. */
  function At(arrivals: seq<seq<nat>>, i: nat): seq<nat> {
    if 0 < i <= |arrivals| then arrivals[i - 1] else []
  }

  function Step(left: nat): nat {
    if left < EACH_COUNT then left else EACH_COUNT
  }

  /**
   What is left of a table when left more rows are to go, from batch i on; At(arrivals, i) is inserted
   by others just before batch i. A batch that finds no row behind the ones it would delete
   deletes none and ends the whole deletion.
   */
  function Batches(ids: seq<nat>, arrivals: seq<seq<nat>>, left: nat, i: nat): seq<nat>
    decreases left
  {
    if left == 0 then ids
    else
      var now := ids + At(arrivals, i);
      if Step(left) < |now| then Batches(now[Step(left)..], arrivals, left - Step(left), i + 1) else now
  }

  /** Everything that arrives from batch i on, if all batches run. */
  function Later(arrivals: seq<seq<nat>>, left: nat, i: nat): seq<nat>
    decreases left
  {
    if left == 0 then [] else At(arrivals, i) + Later(arrivals, left - Step(left), i + 1)
  }

  /** The table is in order at every batch that runs. */
  predicate Ready(ids: seq<nat>, arrivals: seq<seq<nat>>, left: nat, i: nat)
    decreases left
  {
    left > 0 ==>
      && TableIds(ids + At(arrivals, i))
      && (Step(left) < |ids + At(arrivals, i)| ==>
            Ready((ids + At(arrivals, i))[Step(left)..], arrivals, left - Step(left), i + 1))
  }

  lemma {:induction false} ReadyFromTable(ids: seq<nat>, arrivals: seq<seq<nat>>, left: nat, i: nat)
    requires TableIds(ids + Later(arrivals, left, i))
    ensures Ready(ids, arrivals, left, i)
    decreases left
  {
    if left > 0 {
      var now, rest, step := ids + At(arrivals, i), Later(arrivals, left - Step(left), i + 1), Step(left);
      assert ids + Later(arrivals, left, i) == now + rest;
      TableIdsPrefix(now, rest);
      if step < |now| {
        TableIdsSuffix(now + rest, step);
        assert (now + rest)[step..] == now[step..] + rest;
        ReadyFromTable(now[step..], arrivals, left - step, i + 1);
      }
    }
  }

  /** One batch of the simple form. */
  lemma BatchStep(ids: seq<nat>, arrivals: seq<seq<nat>>, left: nat, i: nat)
    requires left > 0 && Ready(ids, arrivals, left, i)
    ensures var now, step := ids + At(arrivals, i), Step(left);
            && TableIds(now)
            && (step < |now| ==> Ready(now[step..], arrivals, left - step, i + 1))
            && Batches(ids, arrivals, left, i) == if step < |now| then Batches(now[step..], arrivals, left - step, i + 1) else now
  {
  }

  function LoopCount(count: nat): nat {
    count / EACH_COUNT + if count % EACH_COUNT > 0 then 1 else 0
  }

  /** How many rows are still to go before batch i. */
  function Left(count: nat, i: nat): nat
    requires i > 0
  {
    if EACH_COUNT * (i - 1) < count then count - EACH_COUNT * (i - 1) else 0
  }

  /** Turn i of loopCount deletes what batch i is to delete. */
  predicate BatchIs(count: nat, loopCount: nat, remain: nat, i: nat)
    requires i > 0
  {
    && (if remain > 0 && i == loopCount then remain else EACH_COUNT) == Step(Left(count, i))
    && Left(count, i) > 0 && Left(count, i + 1) == Left(count, i) - Step(Left(count, i))
  }

  /** The quotient and remainder offsets of the loop are the steps of the simple form. */
  lemma BatchOffset(count: nat, i: nat)
    requires 1 <= i <= LoopCount(count)
    ensures BatchIs(count, LoopCount(count), count % EACH_COUNT, i)
  {
  }

  class Table {
    var ids: seq<nat>

    constructor (ids: seq<nat>)
      requires TableIds(ids)
      ensures this.ids == ids
    {
      this.ids := ids;
    }

    /** SELECT id ... ORDER BY id LIMIT 1 OFFSET offset, 0 when there is no such row. */
    method ScanIdAt(offset: nat) returns (id: nat)
      ensures id == if offset < |ids| then ids[offset] else 0
    {
      if offset < |ids| {
        return ids[offset];
      }
      return 0;
    }

    /** DELETE ... WHERE id < bound. */
    method DeleteBelow(bound: nat)
      modifies this
      ensures ids == From(old(ids), bound)
    {
      ids := From(ids, bound);
    }

    /** One batch: finds the id behind the rows to delete, and deletes below it. */
    method Batch(offset: nat) returns (more: bool)
      requires TableIds(ids)
      modifies this
      ensures more <==> offset < |old(ids)|
      ensures ids == if more then old(ids)[offset..] else old(ids)
    {
      var currentMaxID := ScanIdAt(offset);
      if offset < |ids| {
        DeleteBelowPosition(ids, offset);
      }
      if currentMaxID <= 0 {
        return false;
      }
      DeleteBelow(currentMaxID);
      return true;
    }

    /** How often the loop runs, and how many rows are left for its last turn when they do not fill a batch. */
    static method SplitCount(count: nat) returns (loopCount: nat, remain: nat)
      ensures forall i: nat | 1 <= i <= loopCount :: BatchIs(count, loopCount, remain, i)
      ensures Left(count, 1) == count && Left(count, loopCount + 1) == 0
    {
      loopCount := count / EACH_COUNT;
      remain := count % EACH_COUNT;
      if remain > 0 {
        loopCount := loopCount + 1;
      }
      forall i: nat | 1 <= i <= loopCount ensures BatchIs(count, loopCount, remain, i) {
        BatchOffset(count, i);
      }
    }

    /** Deletes the count smallest ids in batches of EACH_COUNT and a remainder. */
    method BatchDeleteFromTop(count: int, arrivals: seq<seq<nat>>)
      requires count > 0 ==> TableIds(ids + Later(arrivals, count, 1))
      modifies this
      ensures ids == if count <= 0 then old(ids) else Batches(old(ids), arrivals, count, 1)
    {
      if count <= 0 {
        return;
      }
      var loopCount, remain := SplitCount(count);
      ReadyFromTable(ids, arrivals, count, 1);
      for i := 1 to loopCount + 1
        invariant Ready(ids, arrivals, Left(count, i), i)
        invariant Batches(ids, arrivals, Left(count, i), i) == Batches(old(ids), arrivals, count, 1)
      {
        assert BatchIs(count, loopCount, remain, i);
        BatchStep(ids, arrivals, Left(count, i), i);
        ids := ids + At(arrivals, i);
        var more := Batch(if remain > 0 && i == loopCount then remain else EACH_COUNT);
        if !more {
          break;
        }
      }
    }

    /** Keeps the saveCount newest rows. Nothing is inserted between its count query and the deletion. */
    method DeleteByCount(saveCount: int)
      requires TableIds(ids)
      modifies this
      ensures ids == if saveCount <= 0 || |old(ids)| <= saveCount then old(ids) else old(ids)[|old(ids)| - saveCount..]
    {
      if saveCount <= 0 {
        return;
      }
      var count: nat := 0;
      if saveCount < |ids| {
        var bound := ids[|ids| - 1 - saveCount];
        var upToBound := (id: nat) => id <= bound;
        count := CountWhere(upToBound);
        OlderThanSaved(ids, saveCount, upToBound, count);
      }
      if count <= 0 {
        return;
      }
      NothingArrives(ids, count, 1);
      BatchDeleteFromTop(count, []);
    }

    /** Deletes the rows created before the cutoff that lies days back. */
    method DeleteByDays(days: int, createdBefore: nat -> bool)
      requires TableIds(ids)
      modifies this
      ensures ids == if days <= 0 then old(ids) else KeptByDays(old(ids), createdBefore)
    {
      if days <= 0 {
        return;
      }
      var count := CountWhere(createdBefore);
      if count <= 0 {
        return;
      }
      NothingArrives(ids, count, 1);
      BatchDeleteFromTop(count, []);
    }

    method CountWhere(p: nat -> bool) returns (count: nat)
      ensures count == Count(ids, p)
    {
      count := 0;
      for i := 0 to |ids|
        invariant count == Count(ids[..i], p)
      {
        assert ids[..i + 1][..i] == ids[..i];
        if p(ids[i]) {
          count := count + 1;
        }
      }
      assert ids[..|ids|] == ids;
    }
  }

  function Count(ids: seq<nat>, p: nat -> bool): nat {
    if ids == [] then 0 else Count(ids[..|ids| - 1], p) + if p(ids[|ids| - 1]) then 1 else 0
  }

  /** When the rows that satisfy p come first, counting them finds where they end. */
  lemma {:induction false} CountOfPrefix(ids: seq<nat>, p: nat -> bool, k: nat)
    requires k <= |ids|
    requires forall i | 0 <= i < |ids| :: p(ids[i]) <==> i < k
    ensures Count(ids, p) == k
  {
    if ids != [] {
      CountOfPrefix(ids[..|ids| - 1], p, if k < |ids| then k else k - 1);
    }
  }

  lemma {:induction false} NothingArrives(ids: seq<nat>, left: nat, i: nat)
    ensures Later([], left, i) == [] && ids + Later([], left, i) == ids
    decreases left
  {
    if left > 0 {
      NothingArrives(ids, left - Step(left), i + 1);
    }
  }

  // ---------- When the deletion is exact ----------

  /** Every batch finds a row behind the ones it deletes. */
  predicate Enough(n: nat, arrivals: seq<seq<nat>>, left: nat, i: nat)
    decreases left
  {
    left == 0 ||
    (n + |At(arrivals, i)| > Step(left) && Enough(n + |At(arrivals, i)| - Step(left), arrivals, left - Step(left), i + 1))
  }

  /** How many rows are removed in all. */
  function Removed(n: nat, arrivals: seq<seq<nat>>, left: nat, i: nat): nat
    decreases left
  {
    if left > 0 && n + |At(arrivals, i)| > Step(left)
    then Step(left) + Removed(n + |At(arrivals, i)| - Step(left), arrivals, left - Step(left), i + 1)
    else 0
  }

  /**
   The deletion removes a prefix, in id order, of what the table held and received: never a gap.
   gone is that prefix, unseen what would have arrived after the deletion ended.
   */
  lemma {:induction false} BatchesRemovePrefix(ids: seq<nat>, arrivals: seq<seq<nat>>, left: nat, i: nat)
    returns (gone: seq<nat>, unseen: seq<nat>)
    ensures ids + Later(arrivals, left, i) == gone + Batches(ids, arrivals, left, i) + unseen
    ensures |gone| == Removed(|ids|, arrivals, left, i)
    ensures Enough(|ids|, arrivals, left, i) ==> unseen == []
    decreases left
  {
    if left == 0 {
      gone, unseen := [], [];
    } else {
      var step, now, rest := Step(left), ids + At(arrivals, i), Later(arrivals, left - Step(left), i + 1);
      Associate(ids, At(arrivals, i), rest);
      if step < |now| {
        gone, unseen := BatchesRemovePrefix(now[step..], arrivals, left - step, i + 1);
        Regroup(now, step, rest, gone, Batches(now[step..], arrivals, left - step, i + 1), unseen);
        gone := now[..step] + gone;
      } else {
        gone, unseen := [], rest;
      }
    }
  }

  lemma Regroup(now: seq<nat>, step: nat, rest: seq<nat>, gone: seq<nat>, kept: seq<nat>, unseen: seq<nat>)
    requires step <= |now| && now[step..] + rest == gone + kept + unseen
    ensures now + rest == now[..step] + gone + kept + unseen
  {
    calc {
      now + rest;
      { assert now == now[..step] + now[step..]; Associate(now[..step], now[step..], rest); }
      now[..step] + (gone + kept + unseen);
      { Associate(now[..step], gone + kept, unseen); Associate(now[..step], gone, kept); }
      now[..step] + gone + kept + unseen;
    }
  }

  /** It removes exactly the left smallest ids if and only if every batch finds enough rows. */
  lemma {:induction false} ExactIffEnough(n: nat, arrivals: seq<seq<nat>>, left: nat, i: nat)
    ensures Removed(n, arrivals, left, i) == left <==> Enough(n, arrivals, left, i)
    ensures Removed(n, arrivals, left, i) <= left
    decreases left
  {
    if left > 0 && n + |At(arrivals, i)| > Step(left) {
      ExactIffEnough(n + |At(arrivals, i)| - Step(left), arrivals, left - Step(left), i + 1);
    }
  }

  /** A table with more rows than are to go has enough for every batch, even if larger ids are inserted in between. */
  lemma {:induction false} MoreIsEnough(n: nat, arrivals: seq<seq<nat>>, left: nat, i: nat)
    requires n > left
    ensures Enough(n, arrivals, left, i)
    decreases left
  {
    if left > 0 {
      MoreIsEnough(n + |At(arrivals, i)| - Step(left), arrivals, left - Step(left), i + 1);
    }
  }

  /** With nothing inserted meanwhile, more rows than are to go is also necessary. */
  lemma {:induction false} EnoughIffMore(n: nat, left: nat, i: nat)
    requires left > 0
    ensures Enough(n, [], left, i) <==> n > left
    decreases left
  {
    if left > Step(left) && n > Step(left) {
      EnoughIffMore(n - Step(left), left - Step(left), i + 1);
    }
  }

  /** Larger ids inserted between batches do not disturb a deletion that leaves some of the original rows. */
  lemma ExactDespiteArrivals(ids: seq<nat>, arrivals: seq<seq<nat>>, count: nat)
    requires count < |ids|
    ensures Batches(ids, arrivals, count, 1) == (ids + Later(arrivals, count, 1))[count..]
  {
    MoreIsEnough(|ids|, arrivals, count, 1);
    ExactIffEnough(|ids|, arrivals, count, 1);
    var gone, unseen := BatchesRemovePrefix(ids, arrivals, count, 1);
    WhatIsLeft(ids + Later(arrivals, count, 1), gone, Batches(ids, arrivals, count, 1), unseen);
  }

  lemma WhatIsLeft(all: seq<nat>, gone: seq<nat>, kept: seq<nat>, unseen: seq<nat>)
    requires all == gone + kept + unseen && unseen == []
    ensures |gone| <= |all| && all[|gone|..] == kept
  {
  }

  /** An undisturbed deletion removes exactly the count smallest ids if and only if more than count rows are there. */
  lemma ExactIffMore(ids: seq<nat>, count: nat)
    requires count > 0
    ensures (count <= |ids| && Batches(ids, [], count, 1) == ids[count..]) <==> count < |ids|
  {
    NothingArrives(ids, count, 1);
    if count < |ids| {
      ExactDespiteArrivals(ids, [], count);
    } else {
      EnoughIffMore(|ids|, count, 1);
      ExactIffEnough(|ids|, [], count, 1);
      UndisturbedLength(ids, count, 1);
    }
  }

  lemma {:induction false} UndisturbedLength(ids: seq<nat>, left: nat, i: nat)
    ensures |Batches(ids, [], left, i)| + Removed(|ids|, [], left, i) == |ids|
    decreases left
  {
    if left > 0 && |ids| > Step(left) {
      assert ids + At([], i) == ids;
      UndisturbedLength(ids[Step(left)..], left - Step(left), i + 1);
    }
  }

  /** The ids up to the one at descending offset saveCount are all but the saveCount largest, and exactly they go. */
  lemma OlderThanSaved(ids: seq<nat>, saveCount: nat, upToBound: nat -> bool, count: nat)
    requires TableIds(ids) && 0 < saveCount < |ids| && count == Count(ids, upToBound)
    requires forall id: nat :: upToBound(id) <==> id <= ids[|ids| - 1 - saveCount]
    ensures count == |ids| - saveCount
    ensures Batches(ids, [], count, 1) == ids[count..]
  {
    TableIdsOrdered(ids);
    CountOfPrefix(ids, upToBound, |ids| - saveCount);
    ExactIffMore(ids, |ids| - saveCount);
  }

  // ---------- Retention by age ----------

  function KeptByDays(ids: seq<nat>, createdBefore: nat -> bool): seq<nat> {
    var count := Count(ids, createdBefore);
    if count == 0 then ids else Batches(ids, [], count, 1)
  }

  /** The rows that are not old. */
  function Young(ids: seq<nat>, createdBefore: nat -> bool): seq<nat> {
    if ids == [] then []
    else
      var last := ids[|ids| - 1];
      Young(ids[..|ids| - 1], createdBefore) + if createdBefore(last) then [] else [last]
  }

  /** In id order the old rows come before the young ones. */
  predicate OldFirst(ids: seq<nat>, createdBefore: nat -> bool) {
    forall i | 0 <= i < |ids| :: createdBefore(ids[i]) <==> i < Count(ids, createdBefore)
  }

  lemma {:induction false} YoungAreYoung(ids: seq<nat>, createdBefore: nat -> bool)
    ensures forall id | id in Young(ids, createdBefore) :: !createdBefore(id)
    ensures |Young(ids, createdBefore)| == |ids| - Count(ids, createdBefore)
  {
    if ids != [] {
      YoungAreYoung(ids[..|ids| - 1], createdBefore);
    }
  }

  lemma {:induction false} YoungSuffix(ids: seq<nat>, createdBefore: nat -> bool, k: nat)
    requires k <= |ids|
    requires forall i | 0 <= i < |ids| :: createdBefore(ids[i]) <==> i < k
    ensures Young(ids, createdBefore) == ids[k..]
  {
    if ids != [] {
      var n := |ids| - 1;
      YoungSuffix(ids[..n], createdBefore, if k <= n then k else n);
      assert k <= n ==> ids[k..] == ids[..n][k..] + [ids[n]];
    }
  }

  /** When nothing behind position k is old, and k rows are old, they are the first ones. */
  lemma {:induction false} OldAreFirst(ids: seq<nat>, createdBefore: nat -> bool, k: nat)
    requires k <= |ids|
    requires forall i | k <= i < |ids| :: !createdBefore(ids[i])
    ensures Count(ids, createdBefore) <= k
    ensures Count(ids, createdBefore) == k ==> forall i | 0 <= i < k :: createdBefore(ids[i])
  {
    if ids != [] {
      OldAreFirst(ids[..|ids| - 1], createdBefore, if k < |ids| then k else k - 1);
    }
  }

  /** When the first k rows are old, and no more than k are, the others are young. */
  lemma {:induction false} CountFromFront(ids: seq<nat>, createdBefore: nat -> bool, k: nat)
    requires k <= |ids| && forall i | 0 <= i < k :: createdBefore(ids[i])
    ensures Count(ids, createdBefore) >= k
    ensures Count(ids, createdBefore) == k ==> forall i | k <= i < |ids| :: !createdBefore(ids[i])
  {
    if ids != [] {
      var n := |ids| - 1;
      CountFromFront(ids[..n], createdBefore, if k <= n then k else n);
      assert forall i | 0 <= i < n :: ids[..n][i] == ids[i];
    }
  }

  /** Some of the first rows is young, unless the old rows come first. */
  lemma OldFirstIff(ids: seq<nat>, createdBefore: nat -> bool)
    requires Count(ids, createdBefore) <= |ids|
    ensures OldFirst(ids, createdBefore) <==> forall i | 0 <= i < Count(ids, createdBefore) :: createdBefore(ids[i])
  {
    if forall i | 0 <= i < Count(ids, createdBefore) :: createdBefore(ids[i]) {
      CountFromFront(ids, createdBefore, Count(ids, createdBefore));
    }
  }

  lemma YoungIsSuffixIff(ids: seq<nat>, createdBefore: nat -> bool)
    requires Count(ids, createdBefore) <= |ids|
    ensures Young(ids, createdBefore) == ids[Count(ids, createdBefore)..] <==> OldFirst(ids, createdBefore)
  {
    var count, young := Count(ids, createdBefore), Young(ids, createdBefore);
    if OldFirst(ids, createdBefore) {
      YoungSuffix(ids, createdBefore, count);
    } else if young == ids[count..] {
      YoungAreYoung(ids, createdBefore);
      forall i | count <= i < |ids| ensures !createdBefore(ids[i]) {
        assert young[i - count] == ids[i];
      }
      OldAreFirst(ids, createdBefore, count);
    }
  }

  /**
   Retention by age leaves exactly the young rows if and only if nothing is old, or the old rows
   come first in id order and are not all the rows. With old rows behind young ones, young rows go.
   */
  lemma DaysExactIff(ids: seq<nat>, createdBefore: nat -> bool)
    ensures var count := Count(ids, createdBefore);
            KeptByDays(ids, createdBefore) == Young(ids, createdBefore) <==>
              count == 0 || (count < |ids| && OldFirst(ids, createdBefore))
    ensures var count := Count(ids, createdBefore);
            0 < count < |ids| && !OldFirst(ids, createdBefore) ==>
              KeptByDays(ids, createdBefore) == ids[count..] && exists i :: 0 <= i < count && !createdBefore(ids[i])
  {
    var count := Count(ids, createdBefore);
    YoungAreYoung(ids, createdBefore);
    OldFirstIff(ids, createdBefore);
    YoungIsSuffixIff(ids, createdBefore);
    if count > 0 {
      ExactIffMore(ids, count);
    }
  }

  /** Where rows are created in id order, retention by age keeps exactly the young rows iff not every row is old. */
  lemma DaysExactIffSomeYoung(ids: seq<nat>, createdBefore: nat -> bool, k: nat)
    requires k <= |ids| && ids != []
    requires forall i | 0 <= i < |ids| :: createdBefore(ids[i]) <==> i < k
    ensures KeptByDays(ids, createdBefore) == ids[k..] <==> k < |ids|
  {
    CountOfPrefix(ids, createdBefore, k);
    if k > 0 {
      ExactIffMore(ids, k);
    }
  }
}
