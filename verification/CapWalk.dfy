/**
 The walk of a dead object's derivation index: up to four passes, each try-locking the CNode of
 every edge once, bounded by a budget of slots and by a cap on visits. The walk is taken first
 with lock words that stand still, then with other processors taking and dropping locks at will.
 */
module CapWalk {
  import opened Words
  import opened EdgePool
  import opened CapState
  import opened CapOps
  import opened CapInvariant
  import opened CapHygiene

  // ---- Lock words that stand still.

  predicate LockFree(cn: seq<CNode>, l: Loc) {
    !(l.cnode < |cn| && cn[l.cnode].locked)
  }

  /** How many edges of `chain` sit in CNodes whose lock is free. */
  function FreeCount(cn: seq<CNode>, chain: seq<Loc>): (n: nat)
    ensures n <= |chain|
  {
    if chain == [] then 0 else (if LockFree(cn, chain[0]) then 1 else 0) + FreeCount(cn, chain[1..])
  }

  /** A single sweep that clears the edges in unlocked CNodes. */
  function Sweep(cn: seq<CNode>, chain: seq<Loc>, max: nat, visits: nat): (ls: seq<Loc>) {
    if chain == [] || max == 0 || visits == 0 then []
    else if LockFree(cn, chain[0]) then [chain[0]] + Sweep(cn, chain[1..], max - 1, visits - 1)
    else Sweep(cn, chain[1..], max, visits - 1)
  }

  lemma {:induction false} SweepCount(cn: seq<CNode>, chain: seq<Loc>, max: nat, visits: nat)
    ensures |Sweep(cn, chain, max, visits)| == Min(max, FreeCount(cn, Take(chain, visits)))
  {
    if chain == [] || visits == 0 {
    } else {
      TakeCons(cn, chain, visits);
      if max != 0 {
        SweepCount(cn, chain[1..], max, visits - 1);
        SweepCount(cn, chain[1..], max - 1, visits - 1);
      }
    }
  }

  lemma TakeCons(cn: seq<CNode>, chain: seq<Loc>, n: nat)
    requires chain != [] && n > 0
    ensures FreeCount(cn, Take(chain, n)) ==
            FreeCount(cn, Take(chain[1..], n - 1)) + if LockFree(cn, chain[0]) then 1 else 0
  {
    var seen := Take(chain, n);
    assert seen[0] == chain[0] && seen[1..] == Take(chain[1..], n - 1);
  }

  lemma {:induction false} AllFreeCount(cn: seq<CNode>, chain: seq<Loc>)
    requires forall k :: 0 <= k < |chain| ==> LockFree(cn, chain[k])
    ensures FreeCount(cn, chain) == |chain|
  {
    if chain == [] {
    } else {
      AllFreeCount(cn, chain[1..]);
    }
  }

  lemma {:induction false} QuietPass(cn: seq<CNode>, chain: seq<Loc>, max: nat, k: nat, cap: nat)
    requires k <= cap
    ensures var t := Pass(Locks(cn), [], chain, max, k, cap);
            && t.cleared == Sweep(cn, chain, max, cap - k)
            && (|t.cleared| == max || t.visits == cap || forall l :: l in t.left ==> !LockFree(cn, l))
    decreases |chain|
  {
    if chain == [] || max == 0 || k >= cap {
    } else if LockFree(cn, chain[0]) {
      QuietPass(cn, chain[1..], max - 1, k + 1, cap);
    } else {
      QuietPass(cn, chain[1..], max, k + 1, cap);
    }
  }

  lemma {:induction false} LockedPass(cn: seq<CNode>, chain: seq<Loc>, max: nat, k: nat, cap: nat)
    requires forall l :: l in chain ==> !LockFree(cn, l)
    ensures Pass(Locks(cn), [], chain, max, k, cap).cleared == []
    ensures Pass(Locks(cn), [], chain, max, k, cap).left == chain
    decreases |chain|
  {
    if chain == [] || max == 0 || k >= cap {
    } else {
      assert !LockFree(cn, chain[0]);
      LockedPass(cn, chain[1..], max, k + 1, cap);
    }
  }

  lemma {:induction false} LockedPasses(cn: seq<CNode>, chain: seq<Loc>, max: nat, k: nat, cap: nat, n: nat)
    requires forall l :: l in chain ==> !LockFree(cn, l)
    ensures Passes(Locks(cn), [], chain, max, k, cap, n).cleared == []
    decreases n
  {
    if n == 0 || max == 0 || k >= cap {
    } else {
      LockedPass(cn, chain, max, k, cap);
      LockedPasses(cn, chain, max, Pass(Locks(cn), [], chain, max, k, cap).visits, cap, n - 1);
    }
  }

  /** With lock words that stand still the retries are idle: the walk is one sweep. */
  lemma QuietWalkIsSweep(cn: seq<CNode>, chain: seq<Loc>, max: nat, cap: nat, n: nat)
    requires n > 0
    ensures Passes(Locks(cn), [], chain, max, 0, cap, n).cleared == Sweep(cn, chain, max, cap)
  {
    QuietPass(cn, chain, max, 0, cap);
    var p := Pass(Locks(cn), [], chain, max, 0, cap);
    if |p.cleared| != max && p.visits != cap {
      LockedPasses(cn, p.left, max - |p.cleared|, p.visits, cap, n - 1);
    }
  }

  lemma QuietTargets(s: State, o: nat, max: nat)
    requires Indexed(s) && o < |s.objs|
    ensures var ls := WalkTargets(s, o, max, []);
            && ls == Sweep(s.cnodes, s.chains[o], max, VisitCap(max))
            && |ls| == Min(max, FreeCount(s.cnodes, Take(s.chains[o], VisitCap(max))))
  {
    QuietWalkIsSweep(s.cnodes, s.chains[o], max, VisitCap(max), SOFT_RETRY_MAX + 1);
    SweepCount(s.cnodes, s.chains[o], max, VisitCap(max));
  }

  /**
   One walk clears exactly the budgeted number of lock-free edges among the first VisitCap(max)
   of the list: edges behind that many busy ones are not reached.
   */
  lemma WalkIsExact(s: State, o: nat, max: nat)
    requires Inv(s) && o < |s.objs|
    ensures var ls, t := WalkTargets(s, o, max, []), WalkIndex(s, o, max, []);
            && Inv(t) && ClearedExactly(s, t, ls)
            && ls == Sweep(s.cnodes, s.chains[o], max, VisitCap(max))
            && |ls| == Min(max, FreeCount(s.cnodes, Take(s.chains[o], VisitCap(max))))
  {
    DropEachClearsExactly(s, WalkTargets(s, o, max, []));
    QuietTargets(s, o, max);
  }

  lemma BudgetUsedIff(cn: seq<CNode>, chain: seq<Loc>, max: nat, cap: nat)
    requires forall k :: 0 <= k < |chain| ==> LockFree(cn, chain[k])
    ensures Min(max, FreeCount(cn, Take(chain, cap))) == Min(max, |chain|) <==> Min(max, |chain|) <= cap
  {
    AllFreeCount(cn, Take(chain, cap));
  }

  lemma CapCovers(max: nat)
    ensures max <= 0x3fff_fffd ==> max < VisitCap(max)
  {
  }

  /**
   With every lock free, a walk uses its whole budget exactly when the 32-bit visit cap does not
   fall short of what there is to clear.
   */
  lemma WalkUsesBudgetIff(s: State, o: nat, max: nat)
    requires Inv(s) && o < |s.objs|
    requires forall k :: 0 <= k < |s.chains[o]| ==> LockFree(s.cnodes, s.chains[o][k])
    ensures |WalkTargets(s, o, max, [])| == Min(max, |s.chains[o]|) <==> Min(max, |s.chains[o]|) <= VisitCap(max)
    ensures max <= 0x3fff_fffd ==> |WalkTargets(s, o, max, [])| == Min(max, |s.chains[o]|)
  {
    QuietTargets(s, o, max);
    BudgetUsedIff(s.cnodes, s.chains[o], max, VisitCap(max));
    CapCovers(max);
  }

  lemma NoVisitsNoWalk(s: State, o: nat, max: nat, held: seq<set<nat>>)
    requires Inv(s) && o < |s.objs| && VisitCap(max) == 0
    ensures WalkIndex(s, o, max, held) == s
  {
  }

  /** The cap wraps: a budget of 0x3ffffffe visits, and so clears, nothing at all. */
  lemma WalkCanStall(s: State, o: nat, held: seq<set<nat>>)
    requires Inv(s) && o < |s.objs|
    ensures VisitCap(0x3fff_fffe) == 0 && WalkIndex(s, o, 0x3fff_fffe, held) == s
  {
    NoVisitsNoWalk(s, o, 0x3fff_fffe, held);
  }

  // ---- Other processors taking and dropping locks.

  /** The visits from `lo` to `hi` at which the CNode of `l` was busy. */
  function Refusals(locks: seq<bool>, held: seq<set<nat>>, l: Loc, lo: nat, hi: nat): (n: nat)
    decreases hi - lo
  {
    if lo >= hi then 0 else (if Granted(locks, held, lo, l) then 0 else 1) + Refusals(locks, held, l, lo + 1, hi)
  }

  lemma {:induction false} RefusalsAdd(locks: seq<bool>, held: seq<set<nat>>, l: Loc, lo: nat, mid: nat, hi: nat)
    requires lo <= mid <= hi
    ensures Refusals(locks, held, l, lo, hi) == Refusals(locks, held, l, lo, mid) + Refusals(locks, held, l, mid, hi)
    decreases mid - lo
  {
    if lo == mid {
    } else {
      RefusalsAdd(locks, held, l, lo + 1, mid, hi);
    }
  }

  /** A pass that is stopped by neither budget nor cap visits the whole list and leaves only busy edges. */
  lemma {:induction false} PassRefuses(locks: seq<bool>, held: seq<set<nat>>, chain: seq<Loc>, max: nat, k: nat,
                                       cap: nat)
    requires var t := Pass(locks, held, chain, max, k, cap); |t.cleared| < max && t.visits < cap
    ensures var t := Pass(locks, held, chain, max, k, cap);
            t.visits == k + |chain| && forall l :: l in t.left ==> Refusals(locks, held, l, k, t.visits) >= 1
    decreases |chain|
  {
    if chain == [] {
    } else if Granted(locks, held, k, chain[0]) {
      PassRefuses(locks, held, chain[1..], max - 1, k + 1, cap);
    } else {
      PassRefuses(locks, held, chain[1..], max, k + 1, cap);
    }
  }

  /** A pass that leaves an edge is followed by a retry, if any is left. */
  lemma RetryFollows(locks: seq<bool>, held: seq<set<nat>>, chain: seq<Loc>, max: nat, k: nat, cap: nat, n: nat, l: Loc)
    returns (p: Tour, max': nat, q: Tour)
    requires n > 0
    requires var t := Passes(locks, held, chain, max, k, cap, n); |t.cleared| < max && t.visits < cap && l in t.left
    ensures k <= p.visits && max' + |p.cleared| == max > |p.cleared| && Refusals(locks, held, l, k, p.visits) >= 1
    ensures q == Passes(locks, held, p.left, max', p.visits, cap, n - 1) && p.visits <= q.visits
    ensures |q.cleared| < max' && q.visits < cap && l in q.left
    ensures Passes(locks, held, chain, max, k, cap, n).visits == q.visits
  {
    p := Pass(locks, held, chain, max, k, cap);
    PassRefuses(locks, held, chain, max, k, cap);
    max' := max - |p.cleared|;
    PassesLeave(locks, held, p.left, max', p.visits, cap, n - 1);
    q := Passes(locks, held, p.left, max', p.visits, cap, n - 1);
  }

  /** An edge is left by `n` passes within budget and cap only if each of them found its CNode busy. */
  lemma {:induction false} LeftWasRefused(locks: seq<bool>, held: seq<set<nat>>, chain: seq<Loc>, max: nat, k: nat,
                                          cap: nat, n: nat, l: Loc)
    requires var t := Passes(locks, held, chain, max, k, cap, n); |t.cleared| < max && t.visits < cap && l in t.left
    ensures Refusals(locks, held, l, k, Passes(locks, held, chain, max, k, cap, n).visits) >= n
    decreases n
  {
    if n == 0 {
    } else {
      var p, max', q := RetryFollows(locks, held, chain, max, k, cap, n, l);
      LeftWasRefused(locks, held, p.left, max', p.visits, cap, n - 1, l);
      RefusalsAdd(locks, held, l, k, p.visits, q.visits);
    }
  }

  lemma {:induction false} PassLeaves(locks: seq<bool>, held: seq<set<nat>>, chain: seq<Loc>, max: nat, k: nat,
                                      cap: nat)
    ensures forall l :: l in Pass(locks, held, chain, max, k, cap).left ==> l in chain
    decreases |chain|
  {
    if chain == [] || max == 0 || k >= cap {
    } else if Granted(locks, held, k, chain[0]) {
      PassLeaves(locks, held, chain[1..], max - 1, k + 1, cap);
    } else {
      PassLeaves(locks, held, chain[1..], max, k + 1, cap);
    }
  }

  lemma {:induction false} PassesLeave(locks: seq<bool>, held: seq<set<nat>>, chain: seq<Loc>, max: nat, k: nat,
                                       cap: nat, n: nat)
    ensures forall l :: l in Passes(locks, held, chain, max, k, cap, n).left ==> l in chain
    decreases n
  {
    if n == 0 || max == 0 || k >= cap {
    } else {
      var p := Pass(locks, held, chain, max, k, cap);
      PassLeaves(locks, held, chain, max, k, cap);
      PassesLeave(locks, held, p.left, max - |p.cleared|, p.visits, cap, n - 1);
    }
  }

  /** Nothing is cleared under a lock someone else holds. */
  ghost predicate GrantedOnce(locks: seq<bool>, held: seq<set<nat>>, l: Loc, lo: nat, hi: nat) {
    exists k :: lo <= k < hi && Granted(locks, held, k, l)
  }

  lemma {:induction false} PassGrants(locks: seq<bool>, held: seq<set<nat>>, chain: seq<Loc>, max: nat, k: nat,
                                      cap: nat, l: Loc)
    requires l in Pass(locks, held, chain, max, k, cap).cleared
    ensures GrantedOnce(locks, held, l, k, Pass(locks, held, chain, max, k, cap).visits)
    decreases |chain|
  {
    if !Granted(locks, held, k, chain[0]) {
      PassGrants(locks, held, chain[1..], max, k + 1, cap, l);
    } else if l != chain[0] {
      PassGrants(locks, held, chain[1..], max - 1, k + 1, cap, l);
    }
  }

  lemma {:induction false} ClearedWasGranted(locks: seq<bool>, held: seq<set<nat>>, chain: seq<Loc>, max: nat, k: nat,
                                             cap: nat, n: nat, l: Loc)
    requires l in Passes(locks, held, chain, max, k, cap, n).cleared
    ensures GrantedOnce(locks, held, l, k, Passes(locks, held, chain, max, k, cap, n).visits)
    decreases n
  {
    var p := Pass(locks, held, chain, max, k, cap);
    if l in p.cleared {
      PassGrants(locks, held, chain, max, k, cap, l);
    } else {
      ClearedWasGranted(locks, held, p.left, max - |p.cleared|, p.visits, cap, n - 1, l);
    }
  }

  lemma {:induction false} PassVisits(locks: seq<bool>, held: seq<set<nat>>, chain: seq<Loc>, max: nat, k: nat,
                                      cap: nat)
    ensures Pass(locks, held, chain, max, k, cap).visits <= k + |chain|
    decreases |chain|
  {
    if chain == [] || max == 0 || k >= cap {
    } else if Granted(locks, held, k, chain[0]) {
      PassVisits(locks, held, chain[1..], max - 1, k + 1, cap);
    } else {
      PassVisits(locks, held, chain[1..], max, k + 1, cap);
    }
  }

  lemma {:induction false} PassesVisits(locks: seq<bool>, held: seq<set<nat>>, chain: seq<Loc>, max: nat, k: nat,
                                        cap: nat, n: nat, len: nat)
    requires |chain| <= len
    ensures Passes(locks, held, chain, max, k, cap, n).visits <= k + n * len
    decreases n
  {
    if n == 0 || max == 0 || k >= cap {
      assert n * len >= 0;
    } else {
      var p := Pass(locks, held, chain, max, k, cap);
      PassVisits(locks, held, chain, max, k, cap);
      PassesVisits(locks, held, p.left, max - |p.cleared|, p.visits, cap, n - 1, len);
      assert n * len == (n - 1) * len + len && (n - 1) * len >= 0;
    }
  }

  lemma LeftMeansBusy(locks: seq<bool>, held: seq<set<nat>>, chain: seq<Loc>, max: nat, cap: nat, n: nat, l: Loc)
    requires NoDup(chain) && |chain| <= max && n * max < cap
    requires l in chain && l !in Passes(locks, held, chain, max, 0, cap, n).cleared
    ensures Refusals(locks, held, l, 0, Passes(locks, held, chain, max, 0, cap, n).visits) >= n
  {
    PassesSplit(locks, held, chain, max, 0, cap, n);
    PassesVisits(locks, held, chain, max, 0, cap, n, max);
    LeftWasRefused(locks, held, chain, max, 0, cap, n, l);
  }

  function WalkVisits(s: State, o: nat, max: nat, held: seq<set<nat>>): nat
    requires Indexed(s) && o < |s.objs|
  {
    Passes(Locks(s.cnodes), held, s.chains[o], max, 0, VisitCap(max), SOFT_RETRY_MAX + 1).visits
  }

  /** What became of the edges of `chain`: those of `ls` met a free CNode, the others `n` busy ones. */
  ghost predicate Contended(locks: seq<bool>, held: seq<set<nat>>, chain: seq<Loc>, ls: seq<Loc>, visits: nat, n: nat) {
    && (forall l :: l in ls ==> l in chain && GrantedOnce(locks, held, l, 0, visits))
    && forall l :: l in chain && l !in ls ==> Refusals(locks, held, l, 0, visits) >= n
  }

  lemma PassesContended(locks: seq<bool>, held: seq<set<nat>>, chain: seq<Loc>, max: nat, cap: nat, n: nat)
    requires NoDup(chain)
    ensures var t := Passes(locks, held, chain, max, 0, cap, n);
            && Contended(locks, held, chain, t.cleared, t.visits, 0)
            && (|chain| <= max && n * max < cap ==> Contended(locks, held, chain, t.cleared, t.visits, n))
  {
    var t := Passes(locks, held, chain, max, 0, cap, n);
    PassesSplit(locks, held, chain, max, 0, cap, n);
    forall l | l in t.cleared
      ensures l in chain && GrantedOnce(locks, held, l, 0, t.visits)
    {
      ClearedWasGranted(locks, held, chain, max, 0, cap, n, l);
    }
    if |chain| <= max && n * max < cap {
      forall l | l in chain && l !in t.cleared
        ensures Refusals(locks, held, l, 0, t.visits) >= n
      {
        LeftMeansBusy(locks, held, chain, max, cap, n, l);
      }
    }
  }

  lemma WalkContended(s: State, o: nat, max: nat, held: seq<set<nat>>, n: nat)
    requires Indexed(s) && o < |s.objs| && n == SOFT_RETRY_MAX + 1
    ensures var locks, ls, visits := Locks(s.cnodes), WalkTargets(s, o, max, held), WalkVisits(s, o, max, held);
            && |ls| <= max && visits <= VisitCap(max) && Contended(locks, held, s.chains[o], ls, visits, 0)
            && (|s.chains[o]| <= max <= 0x3fff_fffd ==> Contended(locks, held, s.chains[o], ls, visits, n))
  {
    PassesContended(Locks(s.cnodes), held, s.chains[o], max, VisitCap(max), n);
  }

  /**
   A walk under any history of other processors' locks. It keeps the invariant and clears exactly
   a set of edges, within its budget; each of them was cleared at a visit at which its CNode was
   free; and when budget and list length allow it to clear everything, an edge stays only if all
   four passes found its CNode busy.
   */
  lemma WalkUnderContention(s: State, o: nat, max: nat, held: seq<set<nat>>)
    requires Inv(s) && o < |s.objs|
    ensures var ls, t := WalkTargets(s, o, max, held), WalkIndex(s, o, max, held);
            var locks, visits := Locks(s.cnodes), WalkVisits(s, o, max, held);
            && Inv(t) && ClearedExactly(s, t, ls) && |ls| <= max && visits <= VisitCap(max)
            && Contended(locks, held, s.chains[o], ls, visits, 0)
            && (|s.chains[o]| <= max <= 0x3fff_fffd ==>
                  Contended(locks, held, s.chains[o], ls, visits, 4))
  {
    DropEachClearsExactly(s, WalkTargets(s, o, max, held));
    WalkContended(s, o, max, held, SOFT_RETRY_MAX + 1);
  }

  // ---- Two walks in a row, as a tick makes them.

  /** A walk takes `s` to `t` and clears `n` slots. */
  ghost predicate Walked(s: State, t: State, o: nat, max: nat, held: seq<set<nat>>, n: nat) {
    Shaped(s) && Indexed(s) && t == WalkIndex(s, o, max, held) && n == |WalkTargets(s, o, max, held)|
  }

  /** A walk takes `s` to `t` and, if edges and budget are left, another one takes `t` to `u` with the `rest`. */
  ghost predicate WalkedTwice(s: State, t: State, u: State, o: nat, budget: nat, n: nat, rest: nat, m: nat,
                              h1: seq<set<nat>>, h2: seq<set<nat>>)
  {
    && Walked(s, t, o, budget, h1, n) && n + rest == budget && o < |t.chains|
    && if t.chains[o] == [] || rest == 0 then u == t && m == 0 else Walked(t, u, o, rest, h2, m)
  }

  lemma FirstOnly(s: State, t: State, o: nat, budget: nat, n: nat, rest: nat, h1: seq<set<nat>>, h2: seq<set<nat>>)
    requires Walked(s, t, o, budget, h1, n) && n + rest == budget && o < |t.chains| && (t.chains[o] == [] || rest == 0)
    ensures WalkedTwice(s, t, t, o, budget, n, rest, 0, h1, h2)
  {
  }

  lemma FirstAndSecond(s: State, t: State, u: State, o: nat, budget: nat, n: nat, rest: nat, m: nat,
                       h1: seq<set<nat>>, h2: seq<set<nat>>)
    requires Walked(s, t, o, budget, h1, n) && n + rest == budget && o < |t.chains| && t.chains[o] != [] && rest > 0
    requires Walked(t, u, o, rest, h2, m)
    ensures WalkedTwice(s, t, u, o, budget, n, rest, m, h1, h2)
  {
  }

  /** What one walk leaves of a list, and which edges those are where the budget covers it. */
  lemma WalkLeaves(s: State, t: State, o: nat, max: nat, held: seq<set<nat>>, n: nat)
    requires Inv(s) && o < |s.objs| && Walked(s, t, o, max, held, n)
    ensures Inv(t) && |t.objs| == |s.objs| == |t.chains| && |t.chains[o]| <= |s.chains[o]| - n && n <= max
    ensures Locks(t.cnodes) == Locks(s.cnodes)
    ensures |s.chains[o]| <= max <= 0x3fff_fffd ==> forall l :: l in t.chains[o] ==>
              l in s.chains[o] && Refusals(Locks(s.cnodes), held, l, 0, WalkVisits(s, o, max, held)) >= 4
  {
    var ls := WalkTargets(s, o, max, held);
    WalkUnderContention(s, o, max, held);
    SameLockWords(s, t);
    LeftAndCleared(s.chains[o], t.chains[o], ls);
  }

  lemma SameLockWords(s: State, t: State)
    requires |t.cnodes| == |s.cnodes| && forall c :: 0 <= c < |s.cnodes| ==> t.cnodes[c].locked == s.cnodes[c].locked
    ensures Locks(t.cnodes) == Locks(s.cnodes)
  {
  }

  lemma LeftAndCleared(list: seq<Loc>, rest: seq<Loc>, ls: seq<Loc>)
    requires NoDup(list) && NoDup(rest) && NoDup(ls) && (forall l :: l in ls ==> l in list)
    requires forall l :: l in rest <==> l in list && l !in ls
    ensures |rest| <= |list| - |ls|
  {
    DistinctCount(list);
    DistinctCount(rest);
    DistinctCount(ls);
    var a, b, c := (set l | l in list), (set l | l in rest), (set l | l in ls);
    assert b + c == a && b !! c;
  }

  /**
   When the budget covers the list, an edge stays only if all eight passes found its CNode busy, four under the locks
   held during the first walk and four under those held during the second.
   */
  lemma TwoWalksUnderContention(s: State, t: State, u: State, o: nat, budget: nat, n: nat, rest: nat, m: nat,
                                h1: seq<set<nat>>, h2: seq<set<nat>>, l: Loc)
    requires Inv(s) && o < |s.objs| && |s.chains[o]| <= budget <= 0x3fff_fffd
    requires WalkedTwice(s, t, u, o, budget, n, rest, m, h1, h2) && o < |u.chains| && l in u.chains[o]
    ensures Inv(t) && Refusals(Locks(s.cnodes), h1, l, 0, WalkVisits(s, o, budget, h1)) >= 4
    ensures Refusals(Locks(s.cnodes), h2, l, 0, WalkVisits(t, o, rest, h2)) >= 4
  {
    WalkLeaves(s, t, o, budget, h1, n);
    if t.chains[o] != [] && rest > 0 {
      WalkLeaves(t, u, o, rest, h2, m);
    }
  }

  lemma {:induction false} FreeCountGrows(cn: seq<CNode>, chain: seq<Loc>, n: nat, m: nat)
    requires n <= m
    ensures FreeCount(cn, Take(chain, n)) <= FreeCount(cn, Take(chain, m))
    decreases |chain|
  {
    if chain == [] || n == 0 {
      assert n == 0 ==> Take(chain, n) == [];
    } else {
      FreeCountGrows(cn, chain[1..], n - 1, m - 1);
      TakeCons(cn, chain, n);
      TakeCons(cn, chain, m);
    }
  }

  /** A pass over a busy first edge leaves it and goes on with the others. */
  lemma PassBusy(locks: seq<bool>, held: seq<set<nat>>, chain: seq<Loc>, max: nat, k: nat, cap: nat) returns (t: Tour)
    requires chain != [] && max > 0 && k < cap && !Granted(locks, held, k, chain[0])
    ensures t == Pass(locks, held, chain[1..], max, k + 1, cap)
    ensures Pass(locks, held, chain, max, k, cap) == Tour(t.cleared, [chain[0]] + t.left, t.visits)
  {
    t := Pass(locks, held, chain[1..], max, k + 1, cap);
  }

  /** A pass that clears nothing leaves its list; one that does has met an edge in an unlocked CNode. */
  lemma {:induction false} PassNeedsFree(cn: seq<CNode>, held: seq<set<nat>>, chain: seq<Loc>, max: nat, k: nat,
                                         cap: nat, room: nat, t: Tour)
    requires t == Pass(Locks(cn), held, chain, max, k, cap) && k + room == cap
    ensures t.cleared == [] ==> t.left == chain
    ensures t.cleared != [] ==> FreeCount(cn, Take(chain, room)) > 0
    decreases |chain|
  {
    if chain == [] || max == 0 || room == 0 {
    } else {
      var room', tail := room - 1, chain[1..];
      FreeInTail(cn, chain, tail, room, room');
      if Granted(Locks(cn), held, k, chain[0]) {
        GrantedIsFree(cn, held, k, chain[0]);
      } else {
        var t' := PassBusy(Locks(cn), held, chain, max, k, cap);
        PassNeedsFree(cn, held, tail, max, k + 1, cap, room', t');
      }
    }
  }

  lemma FreeInTail(cn: seq<CNode>, chain: seq<Loc>, tail: seq<Loc>, n: nat, n': nat)
    requires chain != [] && tail == chain[1..] && n == n' + 1
    ensures FreeCount(cn, Take(chain, n)) >= FreeCount(cn, Take(tail, n'))
    ensures LockFree(cn, chain[0]) ==> FreeCount(cn, Take(chain, n)) > 0
  {
    TakeCons(cn, chain, n);
  }

  lemma GrantedIsFree(cn: seq<CNode>, held: seq<set<nat>>, k: nat, l: Loc)
    requires Granted(Locks(cn), held, k, l)
    ensures LockFree(cn, l)
  {
  }

  lemma NothingCleared(locks: seq<bool>, held: seq<set<nat>>, chain: seq<Loc>, max: nat, k: nat, cap: nat, n: nat,
                       t: Tour)
    returns (p: Tour)
    requires t == Passes(locks, held, chain, max, k, cap, n) && t.cleared != []
    ensures p == Pass(locks, held, chain, max, k, cap) && n > 0 && k < cap && p.visits <= cap && k <= p.visits
    ensures p.cleared == [] ==> t.cleared == Passes(locks, held, p.left, max, p.visits, cap, n - 1).cleared
  {
    p := Pass(locks, held, chain, max, k, cap);
  }

  /** Passes that clear anything have met an edge in an unlocked CNode among those they may visit. */
  lemma {:induction false} PassesNeedFree(cn: seq<CNode>, held: seq<set<nat>>, chain: seq<Loc>, max: nat, k: nat,
                                          cap: nat, n: nat, room: nat, t: Tour)
    requires t == Passes(Locks(cn), held, chain, max, k, cap, n) && t.cleared != [] && k + room == cap
    ensures FreeCount(cn, Take(chain, room)) > 0
    decreases n
  {
    var p := NothingCleared(Locks(cn), held, chain, max, k, cap, n, t);
    PassNeedsFree(cn, held, chain, max, k, cap, room, p);
    if p.cleared != [] {
    } else {
      var rest := cap - p.visits;
      PassesNeedFree(cn, held, chain, max, p.visits, cap, n - 1, rest, Passes(Locks(cn), held, chain, max, p.visits,
                     cap, n - 1));
      FreeCountGrows(cn, chain, rest, room);
    }
  }

  lemma WalkNeedsFree(s: State, o: nat, max: nat, held: seq<set<nat>>)
    requires Indexed(s) && o < |s.objs| && WalkTargets(s, o, max, held) != []
    ensures FreeCount(s.cnodes, Take(s.chains[o], VisitCap(max))) > 0
  {
    var cap, n := VisitCap(max), SOFT_RETRY_MAX + 1;
    PassesNeedFree(s.cnodes, held, s.chains[o], max, 0, cap, n, cap, Passes(Locks(s.cnodes), held, s.chains[o], max,
                   0, cap, n));
  }

  // ---- Slots that remain to be dropped.

  /** Dropping the slots of `ls` takes `u` to `goal`. */
  ghost predicate Todo(u: State, ls: seq<Loc>, goal: State) {
    Shaped(u) && NoDup(ls) && AllOccupied(u.cnodes, ls) && DropEach(u, ls) == goal
  }

  lemma TodoStep(u: State, ls: seq<Loc>, l: Loc, rest: seq<Loc>, goal: State)
    requires Todo(u, ls, goal) && ls == [l] + rest
    ensures Occupied(u.cnodes, l) && Todo(Drop(u, l), rest, goal)
  {
    assert ls[0] == l && ls[1..] == rest;
    DropEachStep(u, ls);
  }

  lemma {:induction false} TodoSplits(u: State, ls: seq<Loc>, a: seq<Loc>, b: seq<Loc>,
                                      goal: State) returns (mid: State)
    requires Todo(u, ls, goal) && ls == a + b
    ensures Todo(u, a, mid) && Todo(mid, b, goal)
    decreases |a|
  {
    if a == [] {
      mid := u;
      assert ls == b;
    } else {
      var rest := a[1..] + b;
      assert ls == [a[0]] + rest && a == [a[0]] + a[1..];
      TodoStep(u, ls, a[0], rest, goal);
      mid := TodoSplits(Drop(u, a[0]), rest, a[1..], b, goal);
      TodoCons(u, a[0], a[1..], rest, mid);
    }
  }

  lemma TodoCons(u: State, l: Loc, ls: seq<Loc>, more: seq<Loc>, goal: State)
    requires Shaped(u) && Occupied(u.cnodes, l) && Todo(Drop(u, l), ls, goal)
    requires ls <= more && NoDup([l] + more) && AllOccupied(u.cnodes, [l] + more)
    ensures Todo(u, [l] + ls, goal)
  {
    assert forall k :: 0 <= k < |[l] + ls| ==> ([l] + ls)[k] == ([l] + more)[k];
    assert ([l] + ls)[0] == l && ([l] + ls)[1..] == ls;
    DropEachStep(u, [l] + ls);
  }

  lemma TodoNone(u: State, ls: seq<Loc>, goal: State)
    requires Todo(u, ls, goal) && ls == []
    ensures u == goal
  {
  }

  // ---- The walk, one edge at a time.

  /** A point between two visits: the state, the list still to visit, the slots cleared, the visits made. */
  datatype Point = Point(state: State, left: seq<Loc>, cleared: nat, visits: nat)

  /** A pass that stands behind `busy` refused edges, with its counters, will end in `end`. */
  ghost predicate Passing(u: State, end: Point, o: nat, busy: nat, cleared: nat, visited: nat, max: nat, cap: nat,
                          held: seq<set<nat>>, locks: seq<bool>)
  {
    && Indexed(u) && o < |u.chains| && busy <= |u.chains[o]|
    && cleared <= max && visited <= cap && Locks(u.cnodes) == locks
    && var t := Pass(locks, held, u.chains[o][busy..], max - cleared, visited, cap);
       && Todo(u, t.cleared, end.state) && u.chains[o][..busy] + t.left == end.left
       && cleared + |t.cleared| == end.cleared && t.visits == end.visits
  }

  lemma PassRefused(locks: seq<bool>, held: seq<set<nat>>, chain: seq<Loc>, busy: nat, max: nat, k: nat, cap: nat,
                    busy': nat, k': nat)
    requires busy < |chain| && max > 0 && k < cap && busy' == busy + 1 && k' == k + 1
    requires !Granted(locks, held, k, chain[busy])
    ensures var t, t' := Pass(locks, held, chain[busy..], max, k, cap), Pass(locks, held, chain[busy'..], max, k', cap);
            && t.cleared == t'.cleared && t.visits == t'.visits
            && chain[..busy] + t.left == chain[..busy'] + t'.left
  {
    assert chain[busy..][1..] == chain[busy'..];
    var left := Pass(locks, held, chain[busy'..], max, k', cap).left;
    assert chain[..busy] + ([chain[busy]] + left) == chain[..busy'] + left;
  }

  lemma PassGranted(locks: seq<bool>, held: seq<set<nat>>, chain: seq<Loc>, busy: nat, max: nat, k: nat, cap: nat,
                    max': nat, k': nat)
    requires busy < |chain| && max == max' + 1 && k < cap && k' == k + 1 && Granted(locks, held, k, chain[busy])
    ensures var t := Pass(locks, held, chain[busy..], max, k, cap);
            var t' := Pass(locks, held, chain[busy + 1..], max', k', cap);
            t.cleared == [chain[busy]] + t'.cleared && t.left == t'.left && t.visits == t'.visits
  {
    assert chain[busy..][1..] == chain[busy + 1..];
  }

  lemma PassingBusy(u: State, end: Point, o: nat, busy: nat, cleared: nat, visited: nat, max: nat, cap: nat,
                    held: seq<set<nat>>, locks: seq<bool>, busy': nat, visited': nat)
    requires Passing(u, end, o, busy, cleared, visited, max, cap, held, locks)
    requires busy' == busy + 1 && visited' == visited + 1
    requires busy < |u.chains[o]| && cleared < max && visited < cap && !Granted(locks, held, visited, u.chains[o][busy])
    ensures Passing(u, end, o, busy', cleared, visited', max, cap, held, locks)
  {
    PassRefused(locks, held, u.chains[o], busy, max - cleared, visited, cap, busy', visited');
  }

  /** Dropping the edge at `busy` closes the gap in the list and leaves the locks alone. */
  lemma DropAhead(u: State, t: State, o: nat, busy: nat, l: Loc, first: seq<Loc>, rest: seq<Loc>)
    requires Shaped(u) && Indexed(u) && o < |u.chains| && busy < |u.chains[o]| && l == u.chains[o][busy]
    requires Names(u.cnodes, l, o) && t == Drop(u, l)
    requires first == u.chains[o][..busy] && rest == u.chains[o][busy + 1..]
    ensures Indexed(t) && o < |t.chains| && busy <= |t.chains[o]|
    ensures t.chains[o][..busy] == first && t.chains[o][busy..] == rest
    ensures Locks(t.cnodes) == Locks(u.cnodes)
  {
    DropShaped(u, l);
    VacateIndexed(u, l);
    WithoutIsRemoveAt(u.chains[o], busy);
  }

  lemma PassingOn(u: State, end: Point, o: nat, busy: nat, cleared: nat, visited: nat, max: nat, cap: nat,
                  held: seq<set<nat>>, locks: seq<bool>, first: seq<Loc>, rest: seq<Loc>)
    requires Indexed(u) && o < |u.chains| && busy <= |u.chains[o]| && cleared <= max && visited <= cap
    requires Locks(u.cnodes) == locks
    requires u.chains[o][..busy] == first && u.chains[o][busy..] == rest
    requires var t := Pass(locks, held, rest, max - cleared, visited, cap);
             && Todo(u, t.cleared, end.state) && first + t.left == end.left
             && cleared + |t.cleared| == end.cleared && t.visits == end.visits
    ensures Passing(u, end, o, busy, cleared, visited, max, cap, held, locks)
  {
  }

  lemma EdgeNames(u: State, o: nat, busy: nat)
    requires Indexed(u) && o < |u.chains| && busy < |u.chains[o]|
    ensures Names(u.cnodes, u.chains[o][busy], o)
  {
  }

  lemma PassingClear(u: State, t: State, l: Loc, end: Point, o: nat, busy: nat, cleared: nat, visited: nat, max: nat,
                     cap: nat, held: seq<set<nat>>, locks: seq<bool>, cleared': nat, visited': nat)
    requires Passing(u, end, o, busy, cleared, visited, max, cap, held, locks)
    requires cleared' == cleared + 1 && visited' == visited + 1
    requires busy < |u.chains[o]| && l == u.chains[o][busy] && Names(u.cnodes, l, o) && t == Drop(u, l)
    requires cleared < max && visited < cap && Granted(locks, held, visited, l)
    ensures Passing(t, end, o, busy, cleared', visited', max, cap, held, locks)
  {
    var chain, first, rest := u.chains[o], u.chains[o][..busy], u.chains[o][busy + 1..];
    PassGranted(locks, held, chain, busy, max - cleared, visited, cap, max - cleared', visited');
    var ls := Pass(locks, held, chain[busy..], max - cleared, visited, cap).cleared;
    var ls' := Pass(locks, held, rest, max - cleared', visited', cap).cleared;
    TodoStep(u, ls, l, ls', end.state);
    DropAhead(u, t, o, busy, l, first, rest);
    PassingOn(t, end, o, busy, cleared', visited', max, cap, held, locks, first, rest);
  }

  lemma PassingEnd(u: State, end: Point, o: nat, busy: nat, cleared: nat, visited: nat, max: nat, cap: nat,
                   held: seq<set<nat>>, locks: seq<bool>)
    requires Passing(u, end, o, busy, cleared, visited, max, cap, held, locks)
    requires busy == |u.chains[o]| || cleared == max || visited == cap
    ensures end == Point(u, u.chains[o], cleared, visited)
  {
    TodoNone(u, Pass(locks, held, u.chains[o][busy..], max - cleared, visited, cap).cleared, end.state);
    assert u.chains[o][..busy] + u.chains[o][busy..] == u.chains[o];
  }

  // ---- The walk, one pass at a time.

  /** What a walk with up to `n` passes ahead of it still clears of the list `left`. */
  ghost function Ahead(left: seq<Loc>, cleared: nat, visits: nat, max: nat, cap: nat, held: seq<set<nat>>,
                       locks: seq<bool>, n: nat): seq<Loc>
    requires cleared <= max
  {
    Passes(locks, held, left, max - cleared, visits, cap, n).cleared
  }

  /** A walk that has reached `at`, with up to `n` passes ahead of it, will end in `goal` with `count` cleared. */
  ghost predicate Walking(at: Point, goal: State, count: nat, max: nat, cap: nat, held: seq<set<nat>>,
                          locks: seq<bool>, n: nat) {
    && at.cleared <= max && at.visits <= cap
    && Todo(at.state, Ahead(at.left, at.cleared, at.visits, max, cap, held, locks, n), goal)
    && at.cleared + |Ahead(at.left, at.cleared, at.visits, max, cap, held, locks, n)| == count
  }

  lemma WalkingOn(at: Point, rest: seq<Loc>, goal: State, count: nat, max: nat, cap: nat, held: seq<set<nat>>,
                  locks: seq<bool>, n: nat)
    requires at.cleared <= max && at.visits <= cap
    requires rest == Ahead(at.left, at.cleared, at.visits, max, cap, held, locks, n)
    requires Todo(at.state, rest, goal) && at.cleared + |rest| == count
    ensures Walking(at, goal, count, max, cap, held, locks, n)
  {
  }

  lemma WalkingStart(s: State, o: nat, max: nat, held: seq<set<nat>>, n: nat)
    requires Shaped(s) && Indexed(s) && o < |s.objs| && n == SOFT_RETRY_MAX + 1
    ensures Walking(Point(s, s.chains[o], 0, 0), WalkIndex(s, o, max, held), |WalkTargets(s, o, max, held)|,
                    max, VisitCap(max), held, Locks(s.cnodes), n)
  {
    var ls := WalkTargets(s, o, max, held);
    WholeWalkAhead(s, o, max, held, n, ls);
    WalkingOn(Point(s, s.chains[o], 0, 0), ls, WalkIndex(s, o, max, held), |ls|, max, VisitCap(max), held,
              Locks(s.cnodes), n);
  }

  lemma WholeWalkAhead(s: State, o: nat, max: nat, held: seq<set<nat>>, n: nat, ls: seq<Loc>)
    requires Indexed(s) && o < |s.objs| && n == SOFT_RETRY_MAX + 1 && ls == WalkTargets(s, o, max, held)
    ensures ls == Ahead(s.chains[o], 0, 0, max, VisitCap(max), held, Locks(s.cnodes), n)
  {
  }

  lemma WalkingEnd(at: Point, goal: State, count: nat, max: nat, cap: nat, held: seq<set<nat>>, locks: seq<bool>,
                   n: nat)
    requires Walking(at, goal, count, max, cap, held, locks, n) && (n == 0 || at.cleared == max || at.visits == cap)
    ensures at.state == goal && at.cleared == count
  {
    TodoNone(at.state, Ahead(at.left, at.cleared, at.visits, max, cap, held, locks, n), goal);
  }

  /** The next pass, and what is left to clear after it. */
  lemma PassAhead(left: seq<Loc>, cleared: nat, visits: nat, max: nat, cap: nat, held: seq<set<nat>>, locks: seq<bool>,
                  n: nat, n': nat, p: Tour, sum: nat)
    returns (rest: seq<Loc>)
    requires n == n' + 1 && cleared < max && visits < cap && p == Pass(locks, held, left, max - cleared, visits, cap)
    requires sum == cleared + |p.cleared|
    ensures sum <= max && p.visits <= cap
    ensures Ahead(left, cleared, visits, max, cap, held, locks, n) == p.cleared + rest
    ensures p.visits - visits == sum - cleared ==> rest == []
    ensures p.visits - visits != sum - cleared ==> rest == Ahead(p.left, sum, p.visits, max, cap, held, locks, n')
  {
    rest := if p.visits - visits == sum - cleared then []
            else Ahead(p.left, sum, p.visits, max, cap, held, locks, n');
    assert p.cleared + [] == p.cleared;
  }

  lemma PassingStart(at: Point, p: Tour, end: Point, o: nat, max: nat, cap: nat, held: seq<set<nat>>, locks: seq<bool>)
    requires Indexed(at.state) && o < |at.state.chains| && at.left == at.state.chains[o]
    requires Locks(at.state.cnodes) == locks
    requires at.cleared <= max && at.visits <= cap && PassEnds(at, p, end)
    requires p == Pass(locks, held, at.left, max - at.cleared, at.visits, cap)
    ensures Passing(at.state, end, o, 0, at.cleared, at.visits, max, cap, held, locks)
  {
    var chain := at.state.chains[o];
    assert chain[0..] == chain && chain[..0] + end.left == end.left;
  }

  /** The whole pass `p` leads from `at` to `end`. */
  ghost predicate PassEnds(at: Point, p: Tour, end: Point) {
    && Todo(at.state, p.cleared, end.state)
    && end.left == p.left && end.cleared == at.cleared + |p.cleared| && end.visits == p.visits
  }

  lemma NextPoint(at: Point, goal: State, count: nat, ls: seq<Loc>, p: Tour, sum: nat, rest: seq<Loc>)
    returns (end: Point)
    requires Todo(at.state, ls, goal) && at.cleared + |ls| == count && ls == p.cleared + rest
    requires sum == at.cleared + |p.cleared|
    ensures Todo(at.state, p.cleared, end.state) && Todo(end.state, rest, goal) && sum + |rest| == count
    ensures end == Point(end.state, p.left, sum, p.visits)
  {
    var mid := TodoSplits(at.state, ls, p.cleared, rest, goal);
    end := Point(mid, p.left, sum, p.visits);
  }

  /** The next pass: after it the walk is over, or goes on with one pass less ahead of it. */
  lemma WalkingPass(at: Point, goal: State, count: nat, max: nat, cap: nat, held: seq<set<nat>>, locks: seq<bool>,
                    n: nat, n': nat)
    returns (p: Tour, end: Point)
    requires Walking(at, goal, count, max, cap, held, locks, n) && n == n' + 1 && at.cleared < max && at.visits < cap
    ensures p == Pass(locks, held, at.left, max - at.cleared, at.visits, cap) && PassEnds(at, p, end)
    ensures end.visits - at.visits == end.cleared - at.cleared ==> end.state == goal && end.cleared == count
    ensures end.visits - at.visits != end.cleared - at.cleared ==> Walking(end, goal, count, max, cap, held, locks, n')
  {
    p := Pass(locks, held, at.left, max - at.cleared, at.visits, cap);
    var sum := at.cleared + |p.cleared|;
    var ls := Ahead(at.left, at.cleared, at.visits, max, cap, held, locks, n);
    var rest := PassAhead(at.left, at.cleared, at.visits, max, cap, held, locks, n, n', p, sum);
    end := NextPoint(at, goal, count, ls, p, sum, rest);
    if p.visits - at.visits == sum - at.cleared {
      TodoNone(end.state, rest, goal);
    } else {
      WalkingOn(end, rest, goal, count, max, cap, held, locks, n');
    }
  }
}
