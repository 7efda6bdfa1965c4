/** Which list entries survive the reap pass of the particle system.

    The pass walks the list with an index and removes the entry at the index
    when it is dead, then always moves the index on. After a removal the
    next entry has shifted into the freed slot, so it is passed over in
    this pass, dead or not. The functions here speak of positions in the
    list as it was before the pass; `dead[i]` is the flag of entry `i`. */
module Reaping {

  /** Positions, in increasing order, of the entries still in the list
      after the pass has handled the entries from position `j` on. */
  function KeptFrom(dead: seq<bool>, j: nat): (r: seq<nat>)
    requires j <= |dead|
    ensures |r| <= |dead| - j
    ensures forall k :: 0 <= k < |r| ==> j <= r[k] < |dead|
    decreases |dead| - j
  {
    if j == |dead| then []
    else if dead[j] then
      // entry j is removed; entry j + 1 moves into its slot and is skipped
      if j + 1 < |dead| then [j + 1] + KeptFrom(dead, j + 2) else []
    else [j] + KeptFrom(dead, j + 1)
  }

  /** The pass keeps the list in order: kept positions increase. */
  lemma {:induction false} KeptIncreasing(dead: seq<bool>, j: nat)
    requires j <= |dead|
    ensures Increasing(KeptFrom(dead, j))
    decreases |dead| - j
  {
    if j < |dead| {
      if dead[j] {
        if j + 1 < |dead| {
          KeptIncreasing(dead, j + 2);
          ConsIncreasing(j + 1, KeptFrom(dead, j + 2));
        }
      } else {
        KeptIncreasing(dead, j + 1);
        ConsIncreasing(j, KeptFrom(dead, j + 1));
      }
    }
  }

  /** Strictly increasing positions. */
  predicate Increasing(r: seq<nat>) {
    forall k, l :: 0 <= k < l < |r| ==> r[k] < r[l]
  }

  /** A position below all others extends an increasing sequence at the front. */
  lemma ConsIncreasing(x: nat, rest: seq<nat>)
    requires Increasing(rest)
    requires forall k :: 0 <= k < |rest| ==> x < rest[k]
    ensures Increasing([x] + rest)
  {
  }

  /** A live entry is never removed. */
  lemma {:induction false} LiveKept(dead: seq<bool>, j: nat)
    requires j <= |dead|
    ensures forall i :: j <= i < |dead| && !dead[i] ==> i in KeptFrom(dead, j)
    decreases |dead| - j
  {
    if j < |dead| {
      if dead[j] {
        if j + 1 < |dead| {
          LiveKept(dead, j + 2);
        }
      } else {
        LiveKept(dead, j + 1);
      }
    }
  }

  /** The positions kept by a whole pass. */
  function Kept(dead: seq<bool>): seq<nat> {
    KeptFrom(dead, 0)
  }

  /** The first dead entry the pass meets is always removed. */
  lemma {:induction false} FirstDeadRemoved(dead: seq<bool>, j: nat, i: nat)
    requires j <= i < |dead| && dead[i]
    requires forall k :: j <= k < i ==> !dead[k]
    ensures i !in KeptFrom(dead, j)
    decreases i - j
  {
    if j < i {
      assert KeptFrom(dead, j) == [j] + KeptFrom(dead, j + 1);
      FirstDeadRemoved(dead, j + 1, i);
    } else if i + 1 < |dead| {
      var rest := KeptFrom(dead, i + 2);
      assert KeptFrom(dead, i) == [i + 1] + rest;
      assert i !in rest;
    }
  }

  /** When some entry is dead, the pass makes the list strictly shorter. */
  lemma {:induction false} ReapProgress(dead: seq<bool>, j: nat)
    requires j <= |dead|
    requires exists i :: j <= i < |dead| && dead[i]
    ensures |KeptFrom(dead, j)| < |dead| - j
    decreases |dead| - j
  {
    if !dead[j] {
      ReapProgress(dead, j + 1);
    }
  }

  /** A dead entry that survives the pass sat right after an entry that
      was removed (and so was dead too). */
  lemma {:induction false} KeptDeadFollowsRemoved(dead: seq<bool>, j: nat, i: nat)
    requires j <= i < |dead| && dead[i]
    requires i in KeptFrom(dead, j)
    ensures j < i && dead[i - 1] && i - 1 !in KeptFrom(dead, j)
    decreases |dead| - j
  {
    if dead[j] {
      if i != j + 1 {
        KeptDeadFollowsRemoved(dead, j + 2, i);
      }
    } else {
      KeptDeadFollowsRemoved(dead, j + 1, i);
    }
  }

  /** Entries of a strictly increasing sequence of naturals are at least
      their own position. */
  lemma {:induction false} IncreasingAtLeastIndex(r: seq<nat>, k: nat)
    requires Increasing(r)
    requires k < |r|
    ensures k <= r[k]
  {
    if k > 0 {
      IncreasingAtLeastIndex(r, k - 1);
    }
  }

  /** A dead entry the pass leaves behind ends up strictly nearer the front:
      its new position k is below its old one. The bound on the number of
      passes that follows from this is `DeadReapedWithin`. */
  lemma DeadMovesForward(dead: seq<bool>, k: nat)
    requires k < |Kept(dead)| && dead[Kept(dead)[k]]
    ensures k < Kept(dead)[k]
  {
    var r := Kept(dead);
    var i := r[k];
    KeptIncreasing(dead, 0);
    KeptDeadFollowsRemoved(dead, 0, i);
    if k > 0 {
      IncreasingAtLeastIndex(r, k - 1);
      assert r[k - 1] != i - 1;
    }
  }

  /** When no two dead entries are neighbours, the pass removes every dead
      entry. */
  lemma NoNeighbouringDeadAllRemoved(dead: seq<bool>)
    requires forall i :: 0 < i < |dead| ==> !(dead[i - 1] && dead[i])
    ensures forall k :: 0 <= k < |Kept(dead)| ==> !dead[Kept(dead)[k]]
  {
    forall k | 0 <= k < |Kept(dead)|
      ensures !dead[Kept(dead)[k]]
    {
      if dead[Kept(dead)[k]] {
        KeptDeadFollowsRemoved(dead, 0, Kept(dead)[k]);
      }
    }
  }

  /** The entry right behind a removed one is passed over and stays in the
      list, dead or not. With KeptDeadFollowsRemoved this says exactly when a
      dead entry survives a pass. */
  lemma {:induction false} RemovedSkipsNext(dead: seq<bool>, j: nat, i: nat)
    requires j <= i && i + 1 < |dead| && i in RemovedFrom(dead, j)
    ensures i + 1 in KeptFrom(dead, j)
    decreases |dead| - j
  {
    if dead[j] {
      if i != j {
        RemovedUnlessKept(dead, j + 2);
        RemovedSkipsNext(dead, j + 2, i);
      }
    } else {
      RemovedUnlessKept(dead, j + 1);
      RemovedSkipsNext(dead, j + 1, i);
    }
  }

  /** Two dead neighbours: the first is removed, the second shifts into its
      slot, is passed over and stays in the list. */
  lemma SkippedNeighbour()
    ensures Kept([true, true]) == [1]
    ensures Kept([false, true, true, false]) == [0, 2, 3]
  {
  }

  /** The entries at the given positions, in that order. */
  function Pick<T>(s: seq<T>, idx: seq<nat>): (r: seq<T>)
    requires forall k :: 0 <= k < |idx| ==> idx[k] < |s|
    ensures |r| == |idx|
  {
    seq(|idx|, k requires 0 <= k < |idx| => s[idx[k]])
  }

  /** The entries the pass leaves in the list, from position `j` on. */
  function Survivors<T>(s: seq<T>, dead: seq<bool>, j: nat): seq<T>
    requires |dead| == |s|
    decreases |s| - j
  {
    if j >= |s| then []
    else if dead[j] then
      if j + 1 < |s| then [s[j + 1]] + Survivors(s, dead, j + 2) else []
    else [s[j]] + Survivors(s, dead, j + 1)
  }

  /** One step of the pass: what it has kept so far plus what it will keep
      from here on stays the same. */
  lemma SurvivorsStep<T>(s: seq<T>, dead: seq<bool>, j: nat, out: seq<T>)
    requires |dead| == |s| && j < |s|
    ensures dead[j] && j + 1 < |s| ==>
      (out + [s[j + 1]]) + Survivors(s, dead, j + 2) == out + Survivors(s, dead, j)
    ensures dead[j] && j + 1 == |s| ==> out + Survivors(s, dead, |s|) == out + Survivors(s, dead, j)
    ensures !dead[j] ==> (out + [s[j]]) + Survivors(s, dead, j + 1) == out + Survivors(s, dead, j)
  {
  }

  /** The pass keeps exactly the entries at the positions KeptFrom lists. */
  lemma {:induction false} SurvivorsKept<T>(s: seq<T>, dead: seq<bool>, j: nat)
    requires |dead| == |s| && j <= |s|
    ensures Survivors(s, dead, j) == Pick(s, KeptFrom(dead, j))
    decreases |s| - j
  {
    if j < |s| {
      var x := if dead[j] then j + 1 else j;
      var next := if dead[j] then j + 2 else j + 1;
      if x < |s| {
        assert KeptFrom(dead, j) == [x] + KeptFrom(dead, next);
        SurvivorsKept(s, dead, next);
        PickCons(s, x, KeptFrom(dead, next));
      }
    }
  }

  /** Picking a position in front picks its entry in front. */
  lemma PickCons<T>(s: seq<T>, x: nat, idx: seq<nat>)
    requires x < |s| && forall k :: 0 <= k < |idx| ==> idx[k] < |s|
    ensures Pick(s, [x] + idx) == [s[x]] + Pick(s, idx)
  {
  }

  /** Positions the pass removes, from position `j` on. */
  function RemovedFrom(dead: seq<bool>, j: nat): set<nat>
    decreases |dead| - j
  {
    if j >= |dead| then {}
    else if dead[j] then {j} + RemovedFrom(dead, j + 2)
    else RemovedFrom(dead, j + 1)
  }

  /** Every position from `j` on is either kept or removed, never both. */
  lemma {:induction false} RemovedUnlessKept(dead: seq<bool>, j: nat)
    requires j <= |dead|
    ensures forall k :: k in RemovedFrom(dead, j) ==> j <= k < |dead|
    ensures forall k :: j <= k < |dead| ==> (k in RemovedFrom(dead, j) <==> k !in KeptFrom(dead, j))
    decreases |dead| - j
  {
    if j < |dead| {
      if dead[j] {
        if j + 1 < |dead| {
          RemovedUnlessKept(dead, j + 2);
        }
      } else {
        RemovedUnlessKept(dead, j + 1);
      }
    }
  }

  /** Moving the first entry of the unvisited part over to the visited
      part leaves the list as it was. */
  lemma StepOver<T>(out: seq<T>, s: seq<T>, j: nat)
    requires j < |s|
    ensures out + s[j..] == (out + [s[j]]) + s[j + 1..]
  {
    assert s[j..] == [s[j]] + s[j + 1..];
  }

  /** Removing the entry right after the visited part. */
  lemma RemoveAt<T>(out: seq<T>, s: seq<T>, j: nat)
    requires j < |s|
    ensures var l := out + s[j..]; l[..|out|] + l[|out| + 1..] == out + s[j + 1..]
  {
    var l := out + s[j..];
    assert l[..|out|] == out;
    assert l[|out| + 1..] == s[j + 1..];
  }

  /** A whole pass leaves the entries at the positions Kept lists. */
  lemma SurvivorsPicksKept<T>(s: seq<T>, dead: seq<bool>)
    requires |dead| == |s|
    ensures Survivors(s, dead, 0) == Pick(s, Kept(dead))
    ensures var out := Survivors(s, dead, 0);
      |out| == |Kept(dead)| && forall k :: 0 <= k < |out| ==> out[k] == s[Kept(dead)[k]]
  {
    SurvivorsKept(s, dead, 0);
  }


  /** `x` sits at position `i` of `s` and nowhere else. */
  predicate OnlyAt<T(==)>(s: seq<T>, x: T, i: nat) {
    i < |s| && s[i] == x && forall a :: 0 <= a < |s| && s[a] == x ==> a == i
  }

  /** Every entry the pass leaves was in the list. */
  lemma SurvivorsFromList<T>(s: seq<T>, dead: seq<bool>, x: T)
    requires |dead| == |s| && x in Survivors(s, dead, 0)
    ensures x in s
  {
    SurvivorsPicksKept(s, dead);
  }

  /** One pass over a list in which a dead `x` sits only at position `i`:
      either `x` is gone, or it sits only at a position below `i` of the
      survivors followed by entries other than `x`. */
  lemma DeadOnePass<T>(s: seq<T>, dead: seq<bool>, added: seq<T>, x: T, i: nat)
    requires |dead| == |s| && OnlyAt(s, x, i) && dead[i] && x !in added
    ensures var next := Survivors(s, dead, 0) + added;
      x !in next || exists k: nat :: k < i && OnlyAt(next, x, k)
  {
    var out := Survivors(s, dead, 0);
    var next := out + added;
    var kept := Kept(dead);
    SurvivorsPicksKept(s, dead);
    KeptIncreasing(dead, 0);
    if x in next {
      var k :| 0 <= k < |next| && next[k] == x;
      assert k < |out|;
      assert s[kept[k]] == x;
      DeadMovesForward(dead, k);
      forall a | 0 <= a < |next| && next[a] == x
        ensures a == k
      {
        assert a < |out|;
        assert s[kept[a]] == x;
      }
      assert OnlyAt(next, x, k);
    }
  }

  /** Once an entry has left the list it never returns, when the entries
      added after each pass never include it. */
  lemma {:induction false} GoneStaysGone<T>(lists: seq<seq<T>>, deads: seq<seq<bool>>,
                                             added: seq<seq<T>>, x: T, t0: nat)
    requires |deads| == |added| == |lists| - 1
    requires forall t :: 0 <= t < |deads| ==>
               |deads[t]| == |lists[t]| && x !in added[t] &&
               lists[t + 1] == Survivors(lists[t], deads[t], 0) + added[t]
    requires t0 < |lists| && x !in lists[t0]
    ensures forall t :: t0 <= t < |lists| ==> x !in lists[t]
    decreases |lists| - t0
  {
    if t0 + 1 < |lists| {
      if x in Survivors(lists[t0], deads[t0], 0) {
        SurvivorsFromList(lists[t0], deads[t0], x);
      }
      GoneStaysGone(lists, deads, added, x, t0 + 1);
    }
  }

  /** Dead entries are reaped within a bounded number of passes. Take the
      lists before successive passes, where each list is the survivors of
      the pass before it followed by new entries. If `x` sits only at
      position `i` before the first pass, is dead in every pass and is
      never among the new entries, then it has left the list after at most
      i + 1 passes and does not return. */
  lemma {:induction false} DeadReapedWithin<T>(lists: seq<seq<T>>, deads: seq<seq<bool>>,
                                                added: seq<seq<T>>, x: T, i: nat)
    requires |deads| == |added| == |lists| - 1
    requires forall t :: 0 <= t < |deads| ==>
               |deads[t]| == |lists[t]| && x !in added[t] &&
               lists[t + 1] == Survivors(lists[t], deads[t], 0) + added[t]
    requires forall t, k :: 0 <= t < |deads| && 0 <= k < |lists[t]| && lists[t][k] == x ==>
               deads[t][k]
    requires OnlyAt(lists[0], x, i) && i + 1 < |lists|
    ensures forall t :: i + 1 <= t < |lists| ==> x !in lists[t]
    decreases i
  {
    DeadOnePass(lists[0], deads[0], added[0], x, i);
    if x !in lists[1] {
      GoneStaysGone(lists, deads, added, x, 1);
    } else {
      var k: nat :| k < i && OnlyAt(lists[1], x, k);
      var later, laterDeads, laterAdded := lists[1..], deads[1..], added[1..];
      forall t | 0 <= t < |laterDeads|
        ensures |laterDeads[t]| == |later[t]| && x !in laterAdded[t] &&
                later[t + 1] == Survivors(later[t], laterDeads[t], 0) + laterAdded[t]
      {
        assert later[t] == lists[t + 1] && later[t + 1] == lists[t + 2];
        assert laterDeads[t] == deads[t + 1] && laterAdded[t] == added[t + 1];
      }
      forall t, a | 0 <= t < |laterDeads| && 0 <= a < |later[t]| && later[t][a] == x
        ensures laterDeads[t][a]
      {
        assert later[t] == lists[t + 1] && laterDeads[t] == deads[t + 1];
      }
      DeadReapedWithin(later, laterDeads, laterAdded, x, k);
      forall t | i + 1 <= t < |lists|
        ensures x !in lists[t]
      {
        assert lists[t] == later[t - 1];
      }
    }
  }
}
