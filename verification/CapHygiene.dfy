/** Clearing the slots of a dead object: what dropping a list of slots does, and the bounded scan of one CNode. */
module CapHygiene {
  import opened Words
  import opened EdgePool
  import opened QuotaLedger
  import opened CapState
  import opened CapOps
  import opened CapInvariant

  function Min(a: nat, b: nat): nat {
    if a <= b then a else b
  }

  // ---- What clearing a list of slots does.

  /** Exactly the slots of `ls` were cleared, each once, and exactly their edges are gone. */
  ghost predicate ClearedExactly(s: State, t: State, ls: seq<Loc>) {
    && |t.cnodes| == |s.cnodes| && |t.chains| == |s.chains| && |t.objs| == |s.objs|
    && t.parents == s.parents && t.limits == s.limits && t.poolSize == s.poolSize
    && (forall c :: 0 <= c < |s.cnodes| ==>
          && |t.cnodes[c].slots| == |s.cnodes[c].slots|
          && t.cnodes[c].locked == s.cnodes[c].locked
          && t.cnodes[c].account == s.cnodes[c].account)
    && (forall m :: InRange(t.cnodes, m) <==> InRange(s.cnodes, m))
    && (forall m :: InRange(s.cnodes, m) ==>
          SlotAt(t.cnodes, m) == if m in ls then Cleared(SlotAt(s.cnodes, m)) else SlotAt(s.cnodes, m))
    && (forall x, m :: 0 <= x < |s.chains| ==> (m in t.chains[x] <==> m in s.chains[x] && m !in ls))
    && (forall x :: 0 <= x < |s.objs| ==> t.objs[x].life == s.objs[x].life && t.objs[x].gen == s.objs[x].gen)
  }

  lemma DropClearsOne(s: State, l: Loc)
    requires Shaped(s) && Indexed(s) && Occupied(s.cnodes, l)
    ensures ClearedExactly(s, Drop(s, l), [l])
  {
    var t := Drop(s, l);
    var o := SlotAt(s.cnodes, l).obj.value;
    forall x, m | 0 <= x < |s.chains|
      ensures m in t.chains[x] <==> m in s.chains[x] && m !in [l]
    {
      assert forall k :: 0 <= k < |s.chains[x]| ==> Names(s.cnodes, s.chains[x][k], x);
    }
  }

  lemma ClearedCompose(s: State, t: State, u: State, l: Loc, ls: seq<Loc>)
    requires ClearedExactly(s, t, [l]) && ClearedExactly(t, u, ls) && l !in ls
    ensures ClearedExactly(s, u, [l] + ls)
  {
    forall m | InRange(s.cnodes, m)
      ensures SlotAt(u.cnodes, m) == if m in [l] + ls then Cleared(SlotAt(s.cnodes, m)) else SlotAt(s.cnodes, m)
    {
      assert InRange(t.cnodes, m);
    }
  }

  lemma {:induction false} DropEachKeepsInv(s: State, ls: seq<Loc>)
    requires Inv(s) && NoDup(ls) && AllOccupied(s.cnodes, ls)
    ensures Inv(DropEach(s, ls))
    decreases |ls|
  {
    if ls == [] {
    } else {
      VacateKeepsInv(s, ls[0]);
      DropEachStep(s, ls);
      DropEachKeepsInv(Drop(s, ls[0]), ls[1..]);
    }
  }

  lemma {:induction false} DropEachClears(s: State, ls: seq<Loc>)
    requires Shaped(s) && Indexed(s) && NoDup(ls) && AllOccupied(s.cnodes, ls)
    ensures ClearedExactly(s, DropEach(s, ls), ls)
    decreases |ls|
  {
    if ls == [] {
    } else {
      var l, tail := ls[0], ls[1..];
      VacateIndexed(s, l);
      DropClearsOne(s, l);
      DropEachStep(s, ls);
      DropEachClears(Drop(s, l), tail);
      assert l !in tail;
      ClearedCompose(s, Drop(s, l), DropEach(s, ls), l, tail);
      assert ls == [l] + tail;
    }
  }

  lemma DropEachClearsExactly(s: State, ls: seq<Loc>)
    requires Inv(s) && NoDup(ls) && AllOccupied(s.cnodes, ls)
    ensures Inv(DropEach(s, ls)) && ClearedExactly(s, DropEach(s, ls), ls)
  {
    DropEachKeepsInv(s, ls);
    DropEachClears(s, ls);
  }

  // ---- The bounded scan of one CNode.

  lemma {:induction false} MatchingSame(cn: seq<CNode>, cn': seq<CNode>, c: nat, o: nat, from: nat)
    requires c < |cn| == |cn'| && |cn[c].slots| == |cn'[c].slots| && from <= |cn[c].slots|
    requires forall i :: from <= i < |cn[c].slots| ==> (Names(cn', Loc(c, i), o) <==> Names(cn, Loc(c, i), o))
    ensures Matching(cn', c, o, from) == Matching(cn, c, o, from)
    decreases |cn[c].slots| - from
  {
    if from == |cn[c].slots| {
    } else {
      MatchingSame(cn, cn', c, o, from + 1);
    }
  }

  lemma {:induction false} MatchingSkip(cn: seq<CNode>, c: nat, o: nat, from: nat, b: nat)
    requires c < |cn| && from <= b <= |cn[c].slots|
    requires forall i :: from <= i < b ==> !Names(cn, Loc(c, i), o)
    ensures Matching(cn, c, o, from) == Matching(cn, c, o, b)
    decreases b - from
  {
    if from == b {
    } else {
      MatchingSkip(cn, c, o, from + 1, b);
    }
  }

  /** The slot where the matches after the first `n` begin. */
  ghost function CutAt(cn: seq<CNode>, c: nat, o: nat, from: nat, n: nat): (b: nat)
    requires c < |cn| && from <= |cn[c].slots| && n <= |Matching(cn, c, o, from)|
    ensures from <= b <= |cn[c].slots|
  {
    var ms := Matching(cn, c, o, from);
    assert ListsMatches(ms, cn, c, o, from) by {
      MatchingSpec(cn, c, o, from);
    }
    if n < |ms| then ms[n].slot else |cn[c].slots|
  }

  lemma {:induction false} MatchingCut(cn: seq<CNode>, c: nat, o: nat, from: nat, n: nat)
    requires c < |cn| && from <= |cn[c].slots| && n <= |Matching(cn, c, o, from)|
    ensures Matching(cn, c, o, from)[n..] == Matching(cn, c, o, CutAt(cn, c, o, from, n))
    decreases |cn[c].slots| - from
  {
    if from == |cn[c].slots| {
    } else {
      var rest := Matching(cn, c, o, from + 1);
      var ms := Matching(cn, c, o, from);
      if !Names(cn, Loc(c, from), o) {
        assert ms == rest;
        MatchingCut(cn, c, o, from + 1, n);
      } else if n > 0 {
        assert ms == [Loc(c, from)] + rest;
        assert ms[n..] == rest[n - 1..];
        assert n < |ms| ==> ms[n] == rest[n - 1];
        MatchingCut(cn, c, o, from + 1, n - 1);
      } else {
        assert ms[0] == Loc(c, from) && ms[0..] == ms;
      }
    }
  }

  lemma PrefixIsBelowCut(cn: seq<CNode>, c: nat, o: nat, n: nat, i: nat)
    requires c < |cn| && n <= |Matching(cn, c, o, 0)| && Names(cn, Loc(c, i), o)
    ensures Loc(c, i) in Matching(cn, c, o, 0)[..n] <==> i < CutAt(cn, c, o, 0, n)
  {
    var ms := Matching(cn, c, o, 0);
    assert ListsMatches(ms, cn, c, o, 0) by {
      MatchingSpec(cn, c, o, 0);
    }
    assert Loc(c, i) in ms;
    var k :| 0 <= k < |ms| && ms[k] == Loc(c, i);
    if k < n {
      assert ms[..n][k] == Loc(c, i);
    }
  }

  /** Clearing the first `n` matches leaves the rest of them. */
  lemma MatchingAfter(cn: seq<CNode>, cn': seq<CNode>, c: nat, o: nat, n: nat)
    requires c < |cn| == |cn'| && |cn[c].slots| == |cn'[c].slots|
    requires n <= |Matching(cn, c, o, 0)|
    requires forall i :: 0 <= i < |cn[c].slots| ==>
               (Names(cn', Loc(c, i), o) <==> Names(cn, Loc(c, i), o) && Loc(c, i) !in Matching(cn, c, o, 0)[..n])
    ensures Matching(cn', c, o, 0) == Matching(cn, c, o, 0)[n..]
  {
    var b := CutAt(cn, c, o, 0, n);
    forall i | 0 <= i < |cn[c].slots|
      ensures Names(cn', Loc(c, i), o) <==> Names(cn, Loc(c, i), o) && b <= i
    {
      if Names(cn, Loc(c, i), o) {
        PrefixIsBelowCut(cn, c, o, n, i);
      }
    }
    MatchingSkip(cn', c, o, 0, b);
    MatchingSame(cn, cn', c, o, b);
    MatchingCut(cn, c, o, 0, n);
  }

  /**
   One bounded invalidate with the lock free clears exactly the first min(max, matching) slots of
   the CNode that name the object, lowest first, with their edges; the lock ends up free and what
   still matches is the rest. A busy lock makes it a no-op.
   */
  lemma InvalidateIsExact(s: State, c: nat, o: nat, max: nat)
    requires Inv(s) && c < |s.cnodes| && o < |s.objs|
    ensures var ms, t := Matching(s.cnodes, c, o, 0), Invalidate(s, c, o, max);
            var n := if s.cnodes[c].locked then 0 else Min(max, |ms|);
            && Inv(t) && ClearedExactly(s, t, ms[..n])
            && Matching(t.cnodes, c, o, 0) == ms[n..]
            && (s.cnodes[c].locked ==> t == s)
  {
    var ms, t := Matching(s.cnodes, c, o, 0), Invalidate(s, c, o, max);
    var n := if s.cnodes[c].locked then 0 else Min(max, |ms|);
    assert InvalidateTargets(s, c, o, max) == ms[..n];
    DropEachClearsExactly(s, ms[..n]);
    MatchingAfterClear(s, t, c, o, n);
  }

  lemma MatchingAfterClear(s: State, t: State, c: nat, o: nat, n: nat)
    requires c < |s.cnodes| && n <= |Matching(s.cnodes, c, o, 0)|
    requires ClearedExactly(s, t, Matching(s.cnodes, c, o, 0)[..n])
    ensures Matching(t.cnodes, c, o, 0) == Matching(s.cnodes, c, o, 0)[n..]
  {
    forall i | 0 <= i < |s.cnodes[c].slots|
      ensures Names(t.cnodes, Loc(c, i), o) <==>
              Names(s.cnodes, Loc(c, i), o) && Loc(c, i) !in Matching(s.cnodes, c, o, 0)[..n]
    {
      assert InRange(s.cnodes, Loc(c, i));
    }
    MatchingAfter(s.cnodes, t.cnodes, c, o, n);
  }

  lemma InvalidateShrinks(s: State, c: nat, o: nat, max: nat)
    requires Inv(s) && c < |s.cnodes| && o < |s.objs|
    ensures var t := Invalidate(s, c, o, max);
            && Inv(t) && c < |t.cnodes| && o < |t.objs| && t.cnodes[c].locked == s.cnodes[c].locked
            && (!s.cnodes[c].locked && max >= 1 ==>
                  Matching(s.cnodes, c, o, 0) == [] == Matching(t.cnodes, c, o, 0) ||
                  |Matching(t.cnodes, c, o, 0)| < |Matching(s.cnodes, c, o, 0)|)
  {
    InvalidateIsExact(s, c, o, max);
  }

  /** The CNode can be scanned for the object. */
  ghost predicate Scannable(s: State, c: nat, o: nat) {
    Inv(s) && c < |s.cnodes| && o < |s.objs| && !s.cnodes[c].locked
  }

  /** `t` follows from `s` by one call of invalidate. */
  ghost predicate Invalidates(s: State, t: State, c: nat, o: nat, max: nat) {
    Shaped(s) && t == Invalidate(s, c, o, max)
  }

  /** How many slots of the CNode name the object. */
  ghost function Left(s: State, c: nat, o: nat): nat {
    if c < |s.cnodes| then |Matching(s.cnodes, c, o, 0)| else 0
  }

  lemma InvalidatesShrinks(s: State, t: State, c: nat, o: nat, max: nat)
    requires Scannable(s, c, o) && Invalidates(s, t, c, o, max) && max >= 1
    ensures Scannable(t, c, o)
    ensures Left(t, c, o) < Left(s, c, o) || Left(t, c, o) == 0
  {
    InvalidateShrinks(s, c, o, max);
  }

  lemma {:induction false} RepeatShrinks(states: seq<State>, c: nat, o: nat, max: nat, k: nat)
    requires k < |states| && max >= 1 && Scannable(states[0], c, o)
    requires forall i :: 0 < i < |states| ==> Invalidates(states[i - 1], states[i], c, o, max)
    ensures Scannable(states[k], c, o)
    ensures Left(states[k], c, o) <= (if k <= Left(states[0], c, o) then Left(states[0], c, o) - k else 0)
    decreases k
  {
    if k == 0 {
    } else {
      RepeatShrinks(states, c, o, max, k - 1);
      InvalidatesShrinks(states[k - 1], states[k], c, o, max);
    }
  }

  /** Enough calls with a positive bound leave no slot of the CNode naming the object. */
  lemma RepeatedInvalidateFinishes(states: seq<State>, c: nat, o: nat, max: nat, l: Loc)
    requires |states| > 0 && max >= 1 && Scannable(states[0], c, o)
    requires forall i :: 0 < i < |states| ==> Invalidates(states[i - 1], states[i], c, o, max)
    requires |states| > Left(states[0], c, o) && l.cnode == c
    ensures !Names(states[|states| - 1].cnodes, l, o)
  {
    var t := states[|states| - 1];
    RepeatShrinks(states, c, o, max, |states| - 1);
    MatchingSpec(t.cnodes, c, o, 0);
  }

  lemma TargetsInCNode(s: State, c: nat, o: nat, max: nat)
    requires Shaped(s)
    ensures var ls := InvalidateTargets(s, c, o, max);
            forall k :: 0 <= k < |ls| ==> Occupied(s.cnodes, ls[k]) && ls[k].cnode == c
  {
    if c < |s.cnodes| {
      MatchingSpec(s.cnodes, c, o, 0);
    }
  }

  /** Each cleared slot is refunded once, to every account its charge had reached. */
  lemma InvalidateRefunds(s: State, c: nat, o: nat, max: nat, a: nat)
    requires Inv(s) && c < |s.cnodes| && o < |s.objs| && a < |s.used|
    ensures var t, n := Invalidate(s, c, o, max), |InvalidateTargets(s, c, o, max)|;
            && |t.used| == |s.used|
            && t.used[a] == s.used[a] - (if a in ChargeChain(s.parents, s.cnodes[c].account) then n else 0)
  {
    var ls, t := InvalidateTargets(s, c, o, max), Invalidate(s, c, o, max);
    TargetsInCNode(s, c, o, max);
    DropEachClearsExactly(s, ls);
    RefundedExactly(s, t, ls, c, a);
  }

  lemma RefundedExactly(s: State, t: State, ls: seq<Loc>, c: nat, a: nat)
    requires Inv(s) && Inv(t) && ClearedExactly(s, t, ls) && NoDup(ls) && c < |s.cnodes| && a < |s.used|
    requires forall k :: 0 <= k < |ls| ==> Occupied(s.cnodes, ls[k]) && ls[k].cnode == c
    ensures |t.used| == |s.used|
    ensures t.used[a] == s.used[a] - (if a in ChargeChain(s.parents, s.cnodes[c].account) then |ls| else 0)
  {
    var gone := set l | l in ls;
    DistinctCount(ls);
    ChargedAfter(s, t, ls, a);
    if a in ChargeChain(s.parents, s.cnodes[c].account) {
      assert gone <= ChargedSet(s.cnodes, s.parents, a);
    } else {
      assert gone !! ChargedSet(s.cnodes, s.parents, a);
    }
  }

  lemma ChargedAfter(s: State, t: State, ls: seq<Loc>, a: nat)
    requires ClearedExactly(s, t, ls) && forall k :: 0 <= k < |ls| ==> Occupied(s.cnodes, ls[k])
    ensures ChargedSet(t.cnodes, t.parents, a) == ChargedSet(s.cnodes, s.parents, a) - (set l | l in ls)
  {
  }

  // ---- The scan, one slot at a time.

  lemma ScanMiss(s: State, c: nat, o: nat, from: nat, max: nat)
    requires c < |s.cnodes| && from < |s.cnodes[c].slots| && !Names(s.cnodes, Loc(c, from), o)
    ensures ScanTargets(s, c, o, from, max) == ScanTargets(s, c, o, from + 1, max)
  {
  }

  lemma ScanHit(s: State, c: nat, o: nat, from: nat, max: nat)
    requires Shaped(s) && c < |s.cnodes| && from < |s.cnodes[c].slots| && max > 0
    requires Names(s.cnodes, Loc(c, from), o)
    ensures var t := Drop(s, Loc(c, from));
            && Shaped(t) && c < |t.cnodes| && |t.cnodes[c].slots| == |s.cnodes[c].slots|
            && ScanTargets(s, c, o, from, max) == [Loc(c, from)] + ScanTargets(t, c, o, from + 1, max - 1)
            && DropEach(s, ScanTargets(s, c, o, from, max)) == DropEach(t, ScanTargets(t, c, o, from + 1, max - 1))
  {
    var l := Loc(c, from);
    var t := Drop(s, l);
    DropShaped(s, l);
    MatchingSame(s.cnodes, t.cnodes, c, o, from + 1);
    var rest := ScanTargets(t, c, o, from + 1, max - 1);
    assert ScanTargets(s, c, o, from, max) == [l] + rest;
    assert ([l] + rest)[1..] == rest;
  }

  /** A scan that has cleared `cleared` slots and reached slot `i` will end in `goal`. */
  ghost predicate Scanning(u: State, goal: State, count: nat, c: nat, o: nat, i: nat, cleared: nat, max: nat) {
    && Shaped(u) && c < |u.cnodes| && i <= |u.cnodes[c].slots| && cleared <= max
    && DropEach(u, ScanTargets(u, c, o, i, max - cleared)) == goal
    && cleared + |ScanTargets(u, c, o, i, max - cleared)| == count
  }

  lemma ScanningMiss(u: State, goal: State, count: nat, c: nat, o: nat, i: nat, cleared: nat, max: nat, i': nat)
    requires Scanning(u, goal, count, c, o, i, cleared, max) && i' == i + 1
    requires i < |u.cnodes[c].slots| && !Names(u.cnodes, Loc(c, i), o)
    ensures Scanning(u, goal, count, c, o, i', cleared, max)
  {
    ScanMiss(u, c, o, i, max - cleared);
  }

  lemma ScanningHit(u: State, goal: State, count: nat, c: nat, o: nat, i: nat, cleared: nat, max: nat,
                    i': nat, cleared': nat)
    requires Scanning(u, goal, count, c, o, i, cleared, max) && i' == i + 1 && cleared' == cleared + 1
    requires i < |u.cnodes[c].slots| && cleared < max && Names(u.cnodes, Loc(c, i), o)
    ensures Scanning(Drop(u, Loc(c, i)), goal, count, c, o, i', cleared', max)
  {
    ScanHit(u, c, o, i, max - cleared);
  }

  lemma ScanningEnd(u: State, goal: State, count: nat, c: nat, o: nat, i: nat, cleared: nat, max: nat)
    requires Scanning(u, goal, count, c, o, i, cleared, max)
    requires i == |u.cnodes[c].slots| || cleared == max
    ensures u == goal && cleared == count
  {
  }

  lemma {:induction false} LockCommutes(s: State, c: nat, locked: bool, ls: seq<Loc>)
    requires Shaped(s) && c < |s.cnodes| && NoDup(ls) && AllOccupied(s.cnodes, ls)
    ensures Shaped(WithLock(s, c, locked)) && AllOccupied(WithLock(s, c, locked).cnodes, ls)
    ensures c < |DropEach(s, ls).cnodes|
    ensures DropEach(WithLock(s, c, locked), ls) == WithLock(DropEach(s, ls), c, locked)
    decreases |ls|
  {
    LockKeepsSlots(s, c, locked);
    if ls == [] {
    } else {
      var l, tail := ls[0], ls[1..];
      assert forall k :: 0 <= k < |tail| ==> tail[k] == ls[k + 1];
      DropShaped(s, l);
      LockCommutesOne(s, c, locked, l);
      LockCommutes(Drop(s, l), c, locked, tail);
    }
  }

  lemma LockKeepsSlots(s: State, c: nat, locked: bool)
    requires Shaped(s) && c < |s.cnodes|
    ensures Shaped(WithLock(s, c, locked))
    ensures forall l :: InRange(WithLock(s, c, locked).cnodes, l) <==> InRange(s.cnodes, l)
    ensures forall l :: InRange(s.cnodes, l) ==> SlotAt(WithLock(s, c, locked).cnodes, l) == SlotAt(s.cnodes, l)
  {
    SameSlots(s.cnodes, WithLock(s, c, locked).cnodes, 0);
  }

  lemma LockCommutesOne(s: State, c: nat, locked: bool, l: Loc)
    requires Shaped(s) && c < |s.cnodes| && Occupied(s.cnodes, l)
    ensures Shaped(WithLock(s, c, locked)) && Occupied(WithLock(s, c, locked).cnodes, l)
    ensures Drop(WithLock(s, c, locked), l) == WithLock(Drop(s, l), c, locked)
  {
    LockKeepsSlots(s, c, locked);
    var slot := Cleared(SlotAt(s.cnodes, l));
    assert SetSlot(WithLock(s, c, locked).cnodes, l, slot) ==
           SetSlot(s.cnodes, l, slot)[c := SetSlot(s.cnodes, l, slot)[c].(locked := locked)];
  }
}
