/**
 Deferred revocation: a fixed queue of dead objects whose slots still have to be cleared, driven
 round-robin by a bounded tick.
 */
module RevokeQueue {
  import opened Words
  import opened EdgePool
  import opened CapState
  import opened CapOps
  import opened CapInvariant
  import opened CapHygiene
  import opened CapWalk

  const Q_MAX: nat := 64

  /** Entries (None = inactive), published high-water mark, round-robin cursor. */
  datatype Queue = Queue(ents: seq<Option<nat>>, len: nat, cursor: nat)

  datatype Sys = Sys(caps: State, queue: Queue)

  ghost predicate QueueOk(q: Queue) {
    && |q.ents| == Q_MAX && q.len <= Q_MAX
    && (forall i :: q.len <= i < Q_MAX ==> q.ents[i].None?)
    && (forall i, j :: 0 <= i < j < Q_MAX && q.ents[i].Some? ==> q.ents[i] != q.ents[j])
  }

  predicate Queued(q: Queue, o: nat) {
    Some(o) in q.ents
  }

  // ---- The queue.

  /** The first inactive entry at or after `from`, or the table length. */
  function FirstInactive(ents: seq<Option<nat>>, from: nat): (i: nat)
    requires from <= |ents|
    ensures from <= i <= |ents|
    ensures i < |ents| ==> ents[i].None?
    ensures forall j :: from <= j < i ==> ents[j].Some?
    decreases |ents| - from
  {
    if from == |ents| || ents[from].None? then from else FirstInactive(ents, from + 1)
  }

  lemma FirstInactiveIs(ents: seq<Option<nat>>, k: nat)
    requires k <= |ents| && (forall j :: 0 <= j < k ==> ents[j].Some?) && (k < |ents| ==> ents[k].None?)
    ensures FirstInactive(ents, 0) == k
  {
    var i := FirstInactive(ents, 0);
    assert i < |ents| ==> ents[i].None?;
  }

  /** Enqueue once per object; false when the queue is full. */
  function Push(q: Queue, o: nat): (Queue, bool) {
    if Queued(q, o) then (q, true)
    else
      var i := FirstInactive(q.ents, 0);
      if i == |q.ents| then (q, false)
      else (q.(ents := q.ents[i := Some(o)], len := if i >= q.len then i + 1 else q.len), true)
  }

  /** The high-water mark after trailing inactive entries are given back. */
  function Trim(ents: seq<Option<nat>>, len: nat): (n: nat)
    requires len <= |ents|
    ensures n <= len && (forall i :: n <= i < len ==> ents[i].None?) && (n == 0 || ents[n - 1].Some?)
  {
    if len == 0 || ents[len - 1].Some? then len else Trim(ents, len - 1)
  }

  function Remove(q: Queue, i: nat): Queue
    requires i < |q.ents| && q.len <= |q.ents|
  {
    var ents := q.ents[i := None];
    q.(ents := ents, len := Trim(ents, q.len))
  }

  lemma PushOk(q: Queue, o: nat)
    requires QueueOk(q)
    ensures QueueOk(Push(q, o).0)
    ensures Push(q, o).1 <==> Queued(Push(q, o).0, o)
    ensures Push(q, o).1 <==> Queued(q, o) || exists i :: 0 <= i < Q_MAX && q.ents[i].None?
    ensures forall x :: x != o ==> (Queued(Push(q, o).0, x) <==> Queued(q, x))
  {
    var i := FirstInactive(q.ents, 0);
    if !Queued(q, o) && i < Q_MAX {
      var q' := Push(q, o).0;
      assert q'.ents[i] == Some(o);
      forall x | x != o
        ensures Queued(q', x) <==> Queued(q, x)
      {
        if Queued(q, x) {
          var j :| 0 <= j < Q_MAX && q.ents[j] == Some(x);
          assert q'.ents[j] == Some(x);
        }
      }
    }
  }

  lemma RemoveOk(q: Queue, i: nat)
    requires QueueOk(q) && i < Q_MAX
    ensures QueueOk(Remove(q, i))
    ensures Remove(q, i).len == 0 || Remove(q, i).ents[Remove(q, i).len - 1].Some?
    ensures forall x: nat :: Queued(Remove(q, i), x) <==> Queued(q, x) && q.ents[i] != Some(x)
  {
    var q' := Remove(q, i);
    forall x: nat
      ensures Queued(q', x) <==> Queued(q, x) && q.ents[i] != Some(x)
    {
      if Queued(q, x) && q.ents[i] != Some(x) {
        var j :| 0 <= j < Q_MAX && q.ents[j] == Some(x);
        assert q'.ents[j] == Some(x);
      }
      if Queued(q', x) {
        var j :| 0 <= j < Q_MAX && q'.ents[j] == Some(x);
        assert q.ents[j] == Some(x);
      }
    }
  }

  // ---- Starting a revoke.

  /** DEAD and the next generation. */
  ghost function Killed(s: State, o: nat): State
    requires o < |s.objs|
  {
    s.(objs := s.objs[o := s.objs[o].(life := Dead, gen := Inc32(s.objs[o].gen))])
  }

  lemma KilledInTwo(objs: seq<Obj>, o: nat)
    requires o < |objs|
    ensures var mid := objs[o := objs[o].(life := Revoking)];
            mid[o := mid[o].(life := Dead, gen := Inc32(mid[o].gen))] ==
            objs[o := objs[o].(life := Dead, gen := Inc32(objs[o].gen))]
  {
  }

  /** Phase A on the header is the race won and then the object buried. */
  lemma KilledIsEffects(s: State, o: nat)
    requires Inv(s) && o < |s.objs| && s.objs[o].life.Live?
    ensures Enabled(s, Seize(o)) && Inv(Apply(s, Seize(o))) && Enabled(Apply(s, Seize(o)), Bury(o))
    ensures Killed(s, o) == Apply(Apply(s, Seize(o)), Bury(o)) && Inv(Killed(s, o))
  {
    LifeKeepsInv(s, Seize(o));
    LifeKeepsInv(Apply(s, Seize(o)), Bury(o));
    assert s.objs[o := s.objs[o].(life := Revoking)][o := s.objs[o].(life := Dead, gen := Inc32(s.objs[o].gen))] ==
           s.objs[o := s.objs[o].(life := Dead, gen := Inc32(s.objs[o].gen))];
  }

  /** Phase A: win the race, publish DEAD and the new generation, then enqueue. */
  ghost function Begin(sys: Sys, o: nat): (Sys, Status) {
    if o >= |sys.caps.objs| then (sys, ErrInval)
    else if !sys.caps.objs[o].life.Live? then (sys, ErrDead)
    else
      var p := Push(sys.queue, o);
      (Sys(Killed(sys.caps, o), p.0), if p.1 then Ok else ErrAgain)
  }

  /** Slots or edges of a dead object are still outstanding. */
  ghost predicate Outstanding(s: State, o: nat) {
    o < |s.objs| && o < |s.chains| && s.objs[o].life.Dead? && (s.objs[o].slotsLeft > 0 || s.chains[o] != [])
  }

  /** Work items that no tick will find: dead objects with outstanding slots that are not queued. */
  ghost function Lost(sys: Sys): set<nat> {
    set o | 0 <= o < |sys.caps.objs| && Outstanding(sys.caps, o) && !Queued(sys.queue, o)
  }

  ghost predicate HasRoomFor(q: Queue, o: nat) {
    Queued(q, o) || exists i :: 0 <= i < |q.ents| && q.ents[i].None?
  }

  /**
   Starting a revoke loses no work exactly when the object has nothing outstanding, is queued already, or the
   queue has an inactive entry left.
   */
  lemma BeginTrackedIff(sys: Sys, o: nat)
    requires Inv(sys.caps) && QueueOk(sys.queue) && o < |sys.caps.objs| && sys.caps.objs[o].life.Live?
    ensures Inv(Begin(sys, o).0.caps) && QueueOk(Begin(sys, o).0.queue)
    ensures Begin(sys, o).1 == ErrAgain <==> !HasRoomFor(sys.queue, o)
    ensures Lost(Begin(sys, o).0) == Lost(sys) <==> sys.caps.objs[o].slotsLeft == 0 || HasRoomFor(sys.queue, o)
    ensures Lost(Begin(sys, o).0) <= Lost(sys) + {o}
  {
    var s := sys.caps;
    KilledIsEffects(s, o);
    var sys' := Begin(sys, o).0;
    PushOk(sys.queue, o);
    EdgesAreCounted(s, o);
    assert o !in Lost(sys);
    forall x | 0 <= x < |s.objs| && x != o
      ensures x in Lost(sys') <==> x in Lost(sys)
    {
      assert Outstanding(sys'.caps, x) <==> Outstanding(s, x);
    }
    assert Outstanding(sys'.caps, o) <==> s.objs[o].slotsLeft > 0;
    assert o in Lost(sys') <==> s.objs[o].slotsLeft > 0 && !Queued(sys'.queue, o);
  }

  lemma EdgesAreCounted(s: State, o: nat)
    requires Indexed(s) && Counted(s) && o < |s.objs|
    ensures s.chains[o] != [] ==> s.objs[o].slotsLeft > 0
  {
    if s.chains[o] != [] {
      assert s.chains[o][0] in NamedSet(s.cnodes, o);
    }
  }

  // ---- What a walk may change.

  ghost predicate AllLocksFree(s: State) {
    forall c :: 0 <= c < |s.cnodes| ==> !s.cnodes[c].locked
  }

  ghost predicate SameLocks(s: State, t: State) {
    |t.cnodes| == |s.cnodes| && forall c :: 0 <= c < |s.cnodes| ==> t.cnodes[c].locked == s.cnodes[c].locked
  }

  /** Locks and lifetimes are as before, counts and lists have not grown. */
  ghost predicate OnlyCleared(s: State, t: State) {
    && |t.objs| == |s.objs| && |t.chains| == |s.chains| && SameLocks(s, t)
    && (forall x :: 0 <= x < |s.objs| ==>
          t.objs[x].life == s.objs[x].life && t.objs[x].slotsLeft <= s.objs[x].slotsLeft)
    && (forall x :: 0 <= x < |s.chains| ==> |t.chains[x]| <= |s.chains[x]|)
  }

  /** Only `o` lost edges, `n` of them, and as many slots; every other header and list is as before. */
  ghost predicate OnlyFrom(s: State, t: State, o: nat, n: nat) {
    && |t.objs| == |s.objs| && |t.chains| == |s.chains| && o < |s.chains| && |t.chains[o]| + n == |s.chains[o]|
    && o < |s.objs| && t.objs[o].slotsLeft + n == s.objs[o].slotsLeft
    && (forall x :: 0 <= x < |s.objs| && x != o ==> t.objs[x] == s.objs[x])
    && (forall x :: 0 <= x < |s.chains| && x != o ==> t.chains[x] == s.chains[x])
  }

  lemma DropOnlyCleared(s: State, l: Loc, o: nat)
    requires Shaped(s) && Indexed(s) && Pooled(s) && Counted(s)
    requires o < |s.chains| && l in s.chains[o] && Names(s.cnodes, l, o)
    ensures OnlyCleared(s, Drop(s, l)) && Drop(s, l).poolUsed + 1 == s.poolUsed && OnlyFrom(s, Drop(s, l), o, 1)
  {
    assert l in NamedSet(s.cnodes, o);
    WithoutLength(s.chains[o], l);
    LengthInSum(s.chains, o);
  }

  lemma OnlyClearedTransitive(s: State, t: State, u: State)
    requires OnlyCleared(s, t) && OnlyCleared(t, u)
    ensures OnlyCleared(s, u)
  {
  }

  lemma OnlyFromTransitive(s: State, t: State, u: State, o: nat, n: nat, m: nat)
    requires OnlyFrom(s, t, o, n) && OnlyFrom(t, u, o, m)
    ensures OnlyFrom(s, u, o, n + m)
  {
  }

  lemma RestStaysIndexed(s: State, ls: seq<Loc>, o: nat)
    requires Shaped(s) && o < |s.chains| && NoDup(ls) && ls != [] && Names(s.cnodes, ls[0], o)
    requires forall k :: 0 <= k < |ls| ==> ls[k] in s.chains[o] && Names(s.cnodes, ls[k], o)
    ensures var s1, tail := Drop(s, ls[0]), ls[1..];
            forall k :: 0 <= k < |tail| ==> tail[k] in s1.chains[o] && Names(s1.cnodes, tail[k], o)
  {
    var tail := ls[1..];
    assert forall k :: 0 <= k < |tail| ==> tail[k] == ls[k + 1];
  }

  lemma {:induction false} DropEachOnlyCleared(s: State, ls: seq<Loc>, o: nat)
    requires Inv(s) && NoDup(ls) && AllOccupied(s.cnodes, ls) && o < |s.objs|
    requires forall k :: 0 <= k < |ls| ==> ls[k] in s.chains[o] && Names(s.cnodes, ls[k], o)
    ensures Inv(DropEach(s, ls)) && OnlyCleared(s, DropEach(s, ls)) && DropEach(s, ls).poolUsed + |ls| == s.poolUsed
    ensures OnlyFrom(s, DropEach(s, ls), o, |ls|)
    decreases |ls|
  {
    if ls == [] {
    } else {
      var l, tail := ls[0], ls[1..];
      VacateKeepsInv(s, l);
      DropOnlyCleared(s, l, o);
      DropEachStep(s, ls);
      RestStaysIndexed(s, ls, o);
      DropEachOnlyCleared(Drop(s, l), tail, o);
      OnlyClearedTransitive(s, Drop(s, l), DropEach(s, ls));
      OnlyFromTransitive(s, Drop(s, l), DropEach(s, ls), o, 1, |tail|);
    }
  }

  /** Some edge of `o` that a walk with this budget visits sits in a free CNode. */
  ghost predicate Workable(s: State, o: nat, budget: nat) {
    budget >= 1 && o < |s.chains| && FreeCount(s.cnodes, Take(s.chains[o], VisitCap(budget))) > 0
  }

  /**
   A walk of `o` cleared `n` slots within the budget, any at all only if it could, and on a quiet system, where
   nobody else takes locks during the walk, whenever it could.
   */
  ghost predicate Cleaned(s: State, t: State, o: nat, budget: nat, n: nat, quiet: bool) {
    && OnlyCleared(s, t) && OnlyFrom(s, t, o, n) && t.poolUsed + n == s.poolUsed && n <= budget
    && (n == 0 ==> t == s)
    && (n >= 1 ==> Workable(s, o, budget))
    && (quiet && Workable(s, o, budget) ==> n >= 1)
  }

  lemma CleanedTwice(s: State, t: State, u: State, o: nat, budget: nat, n: nat, rest: nat, m: nat, sum: nat,
                     q1: bool, q2: bool)
    requires Cleaned(s, t, o, budget, n, q1) && n + rest == budget && Cleaned(t, u, o, rest, m, q2) && sum == n + m
    ensures Cleaned(s, u, o, budget, sum, q1)
  {
    OnlyClearedTransitive(s, t, u);
    OnlyFromTransitive(s, t, u, o, n, m);
  }

  /** One walk, in terms of its outcome alone. */
  lemma WalkCleans(s: State, t: State, o: nat, budget: nat, held: seq<set<nat>>, n: nat)
    requires Inv(s) && o < |s.objs| && t == WalkIndex(s, o, budget, held) && n == |WalkTargets(s, o, budget, held)|
    ensures Inv(t) && Cleaned(s, t, o, budget, n, held == [])
  {
    if held == [] {
      QuietTargets(s, o, budget);
    }
    if n > 0 {
      WalkNeedsFree(s, o, budget, held);
    }
    WalkInBudget(s, o, budget, held);
    DropsClean(s, t, o, budget, WalkTargets(s, o, budget, held), held == []);
  }

  lemma WalkInBudget(s: State, o: nat, budget: nat, held: seq<set<nat>>)
    requires Indexed(s) && o < |s.objs|
    ensures |WalkTargets(s, o, budget, held)| <= budget
  {
  }

  lemma DropsClean(s: State, t: State, o: nat, budget: nat, ls: seq<Loc>, quiet: bool)
    requires Inv(s) && o < |s.objs| && NoDup(ls) && AllOccupied(s.cnodes, ls) && t == DropEach(s, ls) && |ls| <= budget
    requires forall k :: 0 <= k < |ls| ==> ls[k] in s.chains[o] && Names(s.cnodes, ls[k], o)
    requires ls != [] ==> FreeCount(s.cnodes, Take(s.chains[o], VisitCap(budget))) > 0
    requires quiet ==> |ls| == Min(budget, FreeCount(s.cnodes, Take(s.chains[o], VisitCap(budget))))
    ensures Inv(t) && Cleaned(s, t, o, budget, |ls|, quiet)
  {
    DropEachOnlyCleared(s, ls, o);
  }

  /** Whether an object is workable depends on its list and the locks alone. */
  lemma {:induction false} FreeCountSame(cn: seq<CNode>, cn': seq<CNode>, chain: seq<Loc>)
    requires |cn'| == |cn| && forall c :: 0 <= c < |cn| ==> cn'[c].locked == cn[c].locked
    ensures FreeCount(cn', chain) == FreeCount(cn, chain)
  {
    if chain == [] {
    } else {
      FreeCountSame(cn, cn', chain[1..]);
    }
  }

  lemma WorkableSame(s: State, t: State, o: nat, budget: nat)
    requires SameLocks(s, t) && o < |s.chains| && o < |t.chains| && t.chains[o] == s.chains[o]
    ensures Workable(t, o, budget) <==> Workable(s, o, budget)
  {
    FreeCountSame(s.cnodes, t.cnodes, Take(s.chains[o], VisitCap(budget)));
  }

  /** Workable with a budget of one is workable with any budget whose visit bound does not wrap. */
  lemma WorkableGrows(s: State, o: nat, budget: nat)
    requires Workable(s, o, 1) && 1 <= budget <= 0x3fff_fffd
    ensures Workable(s, o, budget)
  {
    FreeCountGrows(s.cnodes, s.chains[o], VisitCap(1), VisitCap(budget));
  }

  lemma LocksFreeWorkable(s: State, o: nat, budget: nat)
    requires AllLocksFree(s) && Indexed(s) && o < |s.chains| && s.chains[o] != [] && 1 <= budget <= 0x3fff_fffd
    ensures Workable(s, o, budget)
  {
    var seen := Take(s.chains[o], VisitCap(budget));
    assert LockFree(s.cnodes, seen[0]);
  }

  // ---- One visit of a queue entry.

  /** Entry `start + k` of a ring of `limit` entries, for `start` and `k` below `limit`. */
  function Rotate(start: nat, k: nat, limit: nat): (i: nat)
    requires start < limit && k < limit
    ensures i < limit
  {
    if start + k < limit then start + k else start + k - limit
  }

  lemma RotateIsModular(start: nat, k: nat, limit: nat)
    requires start < limit && k < limit
    ensures Rotate(start, k, limit) == (start + k) % limit
  {
    if start + k < limit {
      SmallMod(start + k, limit);
    } else {
      OnceAround(start + k, limit);
    }
  }

  lemma SmallMod(x: nat, limit: nat)
    requires x < limit
    ensures x % limit == x
  {
  }

  lemma OnceAround(x: nat, limit: nat)
    requires limit <= x < 2 * limit
    ensures x % limit == x - limit
  {
    var q, r := x / limit, x % limit;
    assert x == limit * q + r;
    Times(limit, q, 0);
    Times(limit, 2, q);
    assert q == 1;
  }

  lemma Times(limit: nat, a: nat, b: nat)
    ensures a <= b ==> limit * a <= limit * b
  {
  }

  lemma RotateDistinct(start: nat, j: nat, k: nat, limit: nat)
    requires start < limit && j < limit && k < limit && j != k
    ensures Rotate(start, j, limit) != Rotate(start, k, limit)
  {
  }

  /** The cursor after visiting entry `i`. */
  function NextEntry(i: nat, limit: nat): nat {
    if i + 1 == limit then 0 else i + 1
  }

  /** A queued dead object with an edge left. */
  ghost predicate Ready(sys: Sys, i: nat) {
    && i < |sys.queue.ents| && sys.queue.ents[i].Some?
    && var o := sys.queue.ents[i].value;
    && o < |sys.caps.objs| && o < |sys.caps.chains|
    && sys.caps.objs[o].life.Dead? && sys.caps.chains[o] != []
  }

  /** Entry `i` is ready, and a walk with this budget would clear something. */
  ghost predicate Due(sys: Sys, i: nat, budget: nat) {
    Ready(sys, i) && Workable(sys.caps, sys.queue.ents[i].value, budget)
  }

  ghost predicate AnyDue(sys: Sys, budget: nat) {
    exists i :: 0 <= i < |sys.queue.ents| && Due(sys, i, budget)
  }

  ghost predicate SameLives(s: State, t: State) {
    |t.objs| == |s.objs| && forall x :: 0 <= x < |s.objs| ==> t.objs[x].life == s.objs[x].life
  }

  /** The list and the count of `x` are as they were. */
  ghost predicate Kept(s: State, t: State, x: nat) {
    && (x < |s.chains| ==> x < |t.chains| && t.chains[x] == s.chains[x])
    && (x < |s.objs| ==> x < |t.objs| && t.objs[x].slotsLeft == s.objs[x].slotsLeft)
  }

  /** Every object lost as many slots as edges. */
  ghost predicate SlotsFollowEdges(s: State, t: State) {
    && |t.objs| == |s.objs| && |t.chains| == |s.chains|
    && forall x :: 0 <= x < |s.objs| && x < |s.chains| ==>
         t.objs[x].slotsLeft + |s.chains[x]| == s.objs[x].slotsLeft + |t.chains[x]|
  }

  /** `d` slots were cleared through the index of queued objects on the way from `sys` to `t`, and no work got lost. */
  ghost predicate Improves(sys: Sys, t: Sys, d: nat) {
    && SameLocks(sys.caps, t.caps) && SameLives(sys.caps, t.caps)
    && t.caps.poolUsed + d == sys.caps.poolUsed
    && Lost(t) <= Lost(sys)
    && (forall x: nat :: Queued(t.queue, x) ==> Queued(sys.queue, x))
    && (forall x: nat :: !Queued(sys.queue, x) ==> Kept(sys.caps, t.caps, x))
    && SlotsFollowEdges(sys.caps, t.caps)
    && (forall x :: 0 <= x < |sys.caps.chains| ==> |t.caps.chains[x]| <= |sys.caps.chains[x]|)
    && (d == 0 ==> t.caps == sys.caps)
  }

  lemma ImprovesTransitive(sys: Sys, t: Sys, u: Sys, d: nat, n: nat)
    requires Improves(sys, t, d) && Improves(t, u, n)
    ensures Improves(sys, u, d + n)
  {
    forall x: nat | !Queued(sys.queue, x)
      ensures Kept(sys.caps, u.caps, x)
    {
      assert !Queued(t.queue, x);
    }
  }

  /** Entries are kept or dropped, never moved; none is dropped while all queued objects are dead. */
  ghost predicate SomeEntries(sys: Sys, t: Sys) {
    && |t.queue.ents| == |sys.queue.ents|
    && (forall j :: 0 <= j < |sys.queue.ents| ==> t.queue.ents[j] == sys.queue.ents[j] || t.queue.ents[j].None?)
    && (AllQueuedDead(sys) ==> t.queue.ents == sys.queue.ents && t.queue.len == sys.queue.len)
  }

  ghost predicate AllQueuedDead(sys: Sys) {
    forall j :: 0 <= j < |sys.queue.ents| && sys.queue.ents[j].Some? ==>
      sys.queue.ents[j].value < |sys.caps.objs| && sys.caps.objs[sys.queue.ents[j].value].life.Dead?
  }

  /** What one visit of queue entry `i` achieves. */
  ghost predicate Visited(sys: Sys, t: Sys, i: nat, budget: nat, n: nat, quiet: bool) {
    && Improves(sys, t, n) && n <= budget && SomeEntries(sys, t) && i < |sys.queue.ents|
    && (n >= 1 ==> Due(sys, i, budget)) && (quiet && Due(sys, i, budget) ==> n >= 1)
    && (forall j :: 0 <= j < |sys.queue.ents| && j != i ==> t.queue.ents[j] == sys.queue.ents[j])
    && (forall x: nat :: sys.queue.ents[i] != Some(x) ==> Kept(sys.caps, t.caps, x))
    && (Ready(sys, i) ==> |t.caps.chains[sys.queue.ents[i].value]| + n == |sys.caps.chains[sys.queue.ents[i].value]|)
  }

  lemma LoudVisited(sys: Sys, t: Sys, i: nat, budget: nat, n: nat, quiet: bool, quieter: bool)
    requires Visited(sys, t, i, budget, n, quiet) && (quieter ==> quiet)
    ensures Visited(sys, t, i, budget, n, quieter)
  {
  }

  lemma SameEntriesVisited(sys: Sys, q: Queue, i: nat, budget: nat, quiet: bool)
    requires !Ready(sys, i) && q.ents == sys.queue.ents && q.len == sys.queue.len && i < |q.ents|
    ensures Visited(sys, Sys(sys.caps, q), i, budget, 0, quiet)
  {
  }

  lemma RemovalVisited(sys: Sys, i: nat, budget: nat, quiet: bool)
    requires Inv(sys.caps) && QueueOk(sys.queue) && i < Q_MAX && sys.queue.ents[i].Some?
    requires sys.queue.ents[i].value < |sys.caps.objs| ==> !sys.caps.objs[sys.queue.ents[i].value].life.Dead?
    ensures Visited(sys, Sys(sys.caps, Remove(sys.queue, i)), i, budget, 0, quiet)
  {
    RemovalImproves(sys, i);
  }

  /** Removing an entry that is not a dead object's loses no work. */
  lemma RemovalImproves(sys: Sys, i: nat)
    requires Inv(sys.caps) && QueueOk(sys.queue) && i < Q_MAX && sys.queue.ents[i].Some?
    requires sys.queue.ents[i].value < |sys.caps.objs| ==> !sys.caps.objs[sys.queue.ents[i].value].life.Dead?
    ensures Improves(sys, Sys(sys.caps, Remove(sys.queue, i)), 0)
  {
    RemoveOk(sys.queue, i);
  }

  lemma ClearingImproves(sys: Sys, s: State, q: Queue, o: nat, d: nat)
    requires Inv(sys.caps) && Inv(s) && OnlyCleared(sys.caps, s) && OnlyFrom(sys.caps, s, o, d)
    requires s.poolUsed + d == sys.caps.poolUsed && (d == 0 ==> s == sys.caps)
    requires q.ents == sys.queue.ents && Queued(sys.queue, o)
    ensures Improves(sys, Sys(s, q), d)
  {
    forall x | x in Lost(Sys(s, q))
      ensures x in Lost(sys)
    {
      assert Outstanding(sys.caps, x);
    }
  }

  lemma CleanedVisited(sys: Sys, s: State, q: Queue, i: nat, budget: nat, n: nat, quiet: bool)
    requires Inv(sys.caps) && Inv(s) && q.ents == sys.queue.ents && q.len == sys.queue.len && Ready(sys, i)
    requires Cleaned(sys.caps, s, sys.queue.ents[i].value, budget, n, quiet)
    ensures Visited(sys, Sys(s, q), i, budget, n, quiet)
  {
    ClearingImproves(sys, s, q, sys.queue.ents[i].value, n);
  }

  // ---- What a visit and a tick do to the queue itself.

  /** The entry is not a dead object's. */
  ghost predicate Stale(sys: Sys, i: nat) {
    && i < |sys.queue.ents| && sys.queue.ents[i].Some?
    && (sys.queue.ents[i].value < |sys.caps.objs| ==> !sys.caps.objs[sys.queue.ents[i].value].life.Dead?)
  }

  /** The entry is a dead object's that some slot still names. */
  ghost predicate Lagging(sys: Sys, i: nat) {
    && i < |sys.queue.ents| && sys.queue.ents[i].Some? && sys.queue.ents[i].value < |sys.caps.objs|
    && sys.caps.objs[sys.queue.ents[i].value].life.Dead? && sys.caps.objs[sys.queue.ents[i].value].slotsLeft > 0
  }

  /** After a visit of entry `i`: dropped if it is stale, and the cursor behind it if its object lags. */
  ghost predicate QueueAfter(q: Queue, r: Queue, i: nat, limit: nat, stale: bool, lagging: bool) {
    && |r.ents| == |q.ents| && i < |q.ents|
    && (forall j :: 0 <= j < |q.ents| ==> r.ents[j] == if j == i && stale then None else q.ents[j])
    && r.cursor == if lagging then NextEntry(i, limit) else q.cursor
  }

  /** The cursor after `scanned` visits: behind the last entry visited whose object lagged. */
  ghost function CursorAfter(sys: Sys, start: nat, scanned: nat, limit: nat): nat
    requires start < limit && scanned <= limit
    decreases scanned
  {
    if scanned == 0 then sys.queue.cursor
    else
      var i := Rotate(start, scanned - 1, limit);
      if Lagging(sys, i) then NextEntry(i, limit) else CursorAfter(sys, start, scanned - 1, limit)
  }

  /** After `scanned` visits of a tick exactly the stale entries among them are gone, and the cursor has followed. */
  ghost predicate Sifted(sys: Sys, r: Queue, start: nat, scanned: nat, limit: nat) {
    && start < limit <= |sys.queue.ents| == |r.ents| && scanned <= limit
    && (forall k :: 0 <= k < limit ==>
          r.ents[Rotate(start, k, limit)] ==
          if k < scanned && Stale(sys, Rotate(start, k, limit)) then None else sys.queue.ents[Rotate(start, k, limit)])
    && (forall j :: limit <= j < |r.ents| ==> r.ents[j] == sys.queue.ents[j])
    && r.cursor == CursorAfter(sys, start, scanned, limit)
  }

  lemma SiftedStep(sys: Sys, t: Sys, r: Queue, start: nat, scanned: nat, limit: nat, i: nat, scanned': nat)
    requires Sifted(sys, t.queue, start, scanned, limit) && scanned < limit && scanned' == scanned + 1
    requires i == Rotate(start, scanned, limit) && Waiting(sys, t, i) && SameLives(sys.caps, t.caps)
    requires QueueAfter(t.queue, r, i, limit, Stale(t, i), Lagging(t, i))
    ensures Sifted(sys, r, start, scanned', limit)
  {
    assert Stale(t, i) == Stale(sys, i) && Lagging(t, i) == Lagging(sys, i);
    forall k | 0 <= k < limit
      ensures r.ents[Rotate(start, k, limit)] ==
              if k < scanned' && Stale(sys, Rotate(start, k, limit)) then None
              else sys.queue.ents[Rotate(start, k, limit)]
    {
      if k != scanned {
        RotateDistinct(start, k, scanned, limit);
      }
    }
  }

  /** A full round drops every stale entry and no other. */
  lemma FullRoundSifts(sys: Sys, r: Queue, start: nat, limit: nat, j: nat)
    requires QueueOk(sys.queue) && limit == sys.queue.len && Sifted(sys, r, start, limit, limit) && j < |r.ents|
    ensures r.ents[j] == if Stale(sys, j) then None else sys.queue.ents[j]
  {
    if j < limit {
      var k := if start <= j then j - start else j + limit - start;
      assert Rotate(start, k, limit) == j;
    }
  }

  // ---- One tick.

  /** Entry `i` was due and has fewer edges now. */
  ghost predicate WorkedOff(sys: Sys, t: Sys, i: nat) {
    Due(sys, i, 1) ==>
      var o := sys.queue.ents[i].value;
      o < |t.caps.chains| && |t.caps.chains[o]| < |sys.caps.chains[o]|
  }

  /** Nothing has happened to entry `i` or its object. */
  ghost predicate Waiting(sys: Sys, t: Sys, i: nat) {
    && i < |sys.queue.ents| == |t.queue.ents| && t.queue.ents[i] == sys.queue.ents[i]
    && (sys.queue.ents[i].Some? ==> Kept(sys.caps, t.caps, sys.queue.ents[i].value))
  }

  /** What a tick has achieved after visiting offsets below `scanned` of the ring. */
  ghost predicate Ticking(sys: Sys, t: Sys, start: nat, scanned: nat, limit: nat, max: nat, cleared: nat, quiet: bool) {
    && start < limit <= |sys.queue.ents| && scanned <= limit && cleared <= max
    && Improves(sys, t, cleared) && SomeEntries(sys, t)
    && (forall k :: scanned <= k < limit ==> Waiting(sys, t, Rotate(start, k, limit)))
    && (quiet && max <= 0x3fff_fffd ==> forall k :: 0 <= k < scanned ==> WorkedOff(sys, t, Rotate(start, k, limit)))
    && (quiet && cleared == 0 ==> forall k :: 0 <= k < scanned ==> !Due(sys, Rotate(start, k, limit), max))
    && (cleared >= 1 ==> AnyDue(sys, max))
  }

  lemma TickingStarts(sys: Sys, start: nat, limit: nat, max: nat, quiet: bool)
    requires start < limit <= |sys.queue.ents|
    ensures Ticking(sys, sys, start, 0, limit, max, 0, quiet)
  {
  }

  /** An entry still waiting is ready and due as it was at the start. */
  lemma WaitingSame(sys: Sys, t: Sys, i: nat, budget: nat)
    requires Waiting(sys, t, i) && SameLocks(sys.caps, t.caps) && SameLives(sys.caps, t.caps)
    requires |t.caps.chains| == |sys.caps.chains|
    ensures Ready(t, i) <==> Ready(sys, i)
    ensures Due(t, i, budget) <==> Due(sys, i, budget)
  {
    if Ready(sys, i) {
      WorkableSame(sys.caps, t.caps, sys.queue.ents[i].value, budget);
    }
  }

  /** A visit of one entry leaves the others waiting, and what was worked off stays so. */
  lemma OthersWait(sys: Sys, t: Sys, u: Sys, i: nat, j: nat, budget: nat, n: nat, quiet: bool)
    requires Visited(t, u, i, budget, n, quiet) && i != j && QueueOk(sys.queue) && Waiting(sys, t, i)
    requires Waiting(sys, t, j)
    ensures Waiting(sys, u, j)
  {
    if sys.queue.ents[j].Some? {
      assert t.queue.ents[i] != Some(sys.queue.ents[j].value);
    }
  }

  lemma StaysWorkedOff(sys: Sys, t: Sys, u: Sys, j: nat, d: nat, n: nat)
    requires WorkedOff(sys, t, j) && Improves(sys, t, d) && Improves(t, u, n)
    ensures WorkedOff(sys, u, j)
  {
  }

  lemma VisitWorksOff(sys: Sys, t: Sys, u: Sys, i: nat, budget: nat, d: nat, n: nat)
    requires Improves(sys, t, d) && Waiting(sys, t, i) && Visited(t, u, i, budget, n, true)
    requires 1 <= budget <= 0x3fff_fffd
    ensures WorkedOff(sys, u, i)
  {
    WaitingSame(sys, t, i, 1);
    if Due(sys, i, 1) {
      WorkableGrows(t.caps, t.queue.ents[i].value, budget);
    }
  }

  /** The object of entry `i` has lost an edge. */
  ghost predicate LostEdge(sys: Sys, t: Sys, i: nat) {
    && i < |sys.queue.ents| && sys.queue.ents[i].Some?
    && var o := sys.queue.ents[i].value;
       o < |sys.caps.chains| && o < |t.caps.chains| && |t.caps.chains[o]| < |sys.caps.chains[o]|
  }

  lemma VisitLosesEdge(sys: Sys, t: Sys, u: Sys, i: nat, budget: nat, n: nat, quiet: bool)
    requires Waiting(sys, t, i) && Visited(t, u, i, budget, n, quiet) && n >= 1
    requires |t.caps.chains| == |sys.caps.chains|
    ensures LostEdge(sys, u, i)
  {
  }

  /** The entries behind the one just visited are still waiting. */
  lemma RestWaits(sys: Sys, t: Sys, u: Sys, start: nat, scanned: nat, limit: nat, i: nat, budget: nat, n: nat,
                  scanned': nat, quiet: bool)
    requires QueueOk(sys.queue) && start < limit && scanned < limit && scanned' == scanned + 1
    requires forall k :: scanned <= k < limit ==> Waiting(sys, t, Rotate(start, k, limit))
    requires i == Rotate(start, scanned, limit) && Visited(t, u, i, budget, n, quiet)
    ensures forall k :: scanned' <= k < limit ==> Waiting(sys, u, Rotate(start, k, limit))
  {
    forall k | scanned' <= k < limit
      ensures Waiting(sys, u, Rotate(start, k, limit))
    {
      RotateDistinct(start, scanned, k, limit);
      OthersWait(sys, t, u, i, Rotate(start, k, limit), budget, n, quiet);
    }
  }

  /** The entries visited so far, with the last one, are worked off. */
  lemma AllWorkedOff(sys: Sys, t: Sys, u: Sys, start: nat, scanned: nat, limit: nat, i: nat, budget: nat,
                     d: nat, n: nat, scanned': nat)
    requires start < limit && scanned < limit && scanned' == scanned + 1 && 1 <= budget <= 0x3fff_fffd
    requires Improves(sys, t, d) && forall k :: 0 <= k < scanned ==> WorkedOff(sys, t, Rotate(start, k, limit))
    requires i == Rotate(start, scanned, limit) && Waiting(sys, t, i) && Visited(t, u, i, budget, n, true)
    ensures forall k :: 0 <= k < scanned' ==> WorkedOff(sys, u, Rotate(start, k, limit))
  {
    forall k | 0 <= k < scanned'
      ensures WorkedOff(sys, u, Rotate(start, k, limit))
    {
      if k == scanned {
        VisitWorksOff(sys, t, u, i, budget, d, n);
      } else {
        StaysWorkedOff(sys, t, u, Rotate(start, k, limit), d, n);
      }
    }
  }

  /** Nothing cleared yet means nothing due so far, and the first slot cleared shows that something was. */
  lemma DueSoFar(sys: Sys, t: Sys, u: Sys, start: nat, scanned: nat, limit: nat, max: nat, cleared: nat, n: nat,
                 i: nat, budget: nat, scanned': nat, cleared': nat, quiet: bool)
    requires start < limit && scanned < limit && scanned' == scanned + 1 && cleared' == cleared + n
    requires i == Rotate(start, scanned, limit) && budget == max - cleared
    requires Ticking(sys, t, start, scanned, limit, max, cleared, quiet) && Waiting(sys, t, i)
    requires Visited(t, u, i, budget, n, quiet)
    ensures quiet && cleared' == 0 ==> forall k :: 0 <= k < scanned' ==> !Due(sys, Rotate(start, k, limit), max)
    ensures cleared' >= 1 ==> AnyDue(sys, max)
  {
    WaitingSame(sys, t, i, max);
  }

  lemma TickingStep(sys: Sys, t: Sys, u: Sys, start: nat, scanned: nat, limit: nat, max: nat, cleared: nat, n: nat,
                    i: nat, budget: nat, scanned': nat, cleared': nat, quiet: bool)
    requires QueueOk(sys.queue) && start < limit && scanned < limit && cleared < max
    requires i == Rotate(start, scanned, limit) && budget == max - cleared
    requires scanned' == scanned + 1 && cleared' == cleared + n
    requires Ticking(sys, t, start, scanned, limit, max, cleared, quiet)
    requires Visited(t, u, i, budget, n, quiet)
    ensures Ticking(sys, u, start, scanned', limit, max, cleared', quiet)
    ensures n > 0 ==> LostEdge(sys, u, i)
  {
    assert Waiting(sys, t, i);
    if n > 0 {
      VisitLosesEdge(sys, t, u, i, budget, n, quiet);
    }
    ImprovesTransitive(sys, t, u, cleared, n);
    SomeEntriesTransitive(sys, t, u);
    DueSoFar(sys, t, u, start, scanned, limit, max, cleared, n, i, budget, scanned', cleared', quiet);
    RestWaits(sys, t, u, start, scanned, limit, i, budget, n, scanned', quiet);
    if quiet && max <= 0x3fff_fffd {
      AllWorkedOff(sys, t, u, start, scanned, limit, i, budget, cleared, n, scanned');
    }
  }

  lemma SomeEntriesTransitive(sys: Sys, t: Sys, u: Sys)
    requires SomeEntries(sys, t) && SomeEntries(t, u) && SameLives(sys.caps, t.caps)
    ensures SomeEntries(sys, u)
  {
    if AllQueuedDead(sys) {
      assert AllQueuedDead(t);
    }
  }

  /** A finished tick cleared something only if some entry was due, and on a quiet system whenever one was. */
  lemma TickingEnd(sys: Sys, t: Sys, start: nat, scanned: nat, limit: nat, max: nat, cleared: nat, quiet: bool)
    requires limit == sys.queue.len && QueueOk(sys.queue) && max >= 1
    requires Ticking(sys, t, start, scanned, limit, max, cleared, quiet) && (scanned == limit || cleared == max)
    ensures cleared >= 1 ==> AnyDue(sys, max)
    ensures quiet && AnyDue(sys, max) ==> cleared >= 1
  {
    if quiet && cleared == 0 {
      forall i | 0 <= i < |sys.queue.ents|
        ensures !Due(sys, i, max)
      {
        if i < limit {
          var k := if i >= start then i - start else i + limit - start;
          assert Rotate(start, k, limit) == i;
        }
      }
    }
  }

  // ---- Draining.

  /** Every dead object's edges are gone. */
  ghost predicate Drained(s: State) {
    |s.chains| == |s.objs| && forall o :: 0 <= o < |s.objs| && s.objs[o].life.Dead? ==> s.chains[o] == []
  }

  /** With no work lost and the locks free, nothing due means nothing left. */
  lemma NothingLeft(sys: Sys, max: nat)
    requires Inv(sys.caps) && Lost(sys) == {} && AllLocksFree(sys.caps) && 1 <= max <= 0x3fff_fffd && !AnyDue(sys, max)
    ensures Drained(sys.caps)
  {
    forall o | 0 <= o < |sys.caps.objs| && sys.caps.objs[o].life.Dead?
      ensures sys.caps.chains[o] == []
    {
      if sys.caps.chains[o] != [] {
        assert Outstanding(sys.caps, o) && o !in Lost(sys);
        var i :| 0 <= i < |sys.queue.ents| && sys.queue.ents[i] == Some(o);
        LocksFreeWorkable(sys.caps, o, max);
        assert Due(sys, i, max);
      }
    }
  }

  lemma NoEdgesNothingDue(sys: Sys, max: nat)
    requires Inv(sys.caps) && sys.caps.poolUsed == 0
    ensures !AnyDue(sys, max)
  {
    forall o | 0 <= o < |sys.caps.chains|
      ensures sys.caps.chains[o] == []
    {
      LengthInSum(sys.caps.chains, o);
    }
  }

  /** Once nothing is due, ticks change nothing but the queue, and nothing becomes due. */
  lemma NothingDueStays(sys: Sys, t: Sys, max: nat)
    requires !AnyDue(sys, max) && t.caps == sys.caps && SomeEntries(sys, t)
    ensures !AnyDue(t, max)
  {
    forall i | 0 <= i < |t.queue.ents|
      ensures !Due(t, i, max)
    {
      assert !Due(sys, i, max);
    }
  }

  // ---- A whole tick.

  /** A whole tick: from the cursor round the ring, to the end of it or to the entry that used up the budget. */
  ghost predicate TickDone(sys: Sys, t: Sys, max: nat, cleared: nat, scanned: nat, quiet: bool) {
    && 0 < sys.queue.len <= |sys.queue.ents| && 0 < scanned <= sys.queue.len
    && var limit := sys.queue.len;
    && var start := sys.queue.cursor % limit;
    && Ticking(sys, t, start, scanned, limit, max, cleared, quiet)
    && var last := Rotate(start, scanned - 1, limit);
    && (scanned == limit || (t.queue.cursor == NextEntry(last, limit) && LostEdge(sys, t, last)))
  }

  lemma TickIsDone(sys: Sys, t: Sys, start: nat, max: nat, cleared: nat, scanned: nat, last: nat, quiet: bool)
    requires QueueOk(sys.queue) && sys.queue.len > 0 && start == sys.queue.cursor % sys.queue.len && max >= 1
    requires Ticking(sys, t, start, scanned, sys.queue.len, max, cleared, quiet) && scanned > 0
    requires last == Rotate(start, scanned - 1, sys.queue.len)
    requires scanned == sys.queue.len ||
             (cleared == max && t.queue.cursor == NextEntry(last, sys.queue.len) && LostEdge(sys, t, last))
    ensures TickDone(sys, t, max, cleared, scanned, quiet) && (cleared >= 1 ==> AnyDue(sys, max))
    ensures quiet && AnyDue(sys, max) ==> cleared >= 1
  {
    TickingEnd(sys, t, start, scanned, sys.queue.len, max, cleared, quiet);
  }

  // ---- Reclaiming.

  /** The entry of `o` at or after `from`, or the table length. */
  function EntryOf(ents: seq<Option<nat>>, o: nat, from: nat): (i: nat)
    requires from <= |ents|
    ensures from <= i <= |ents|
    ensures i < |ents| ==> ents[i] == Some(o)
    ensures forall j :: from <= j < i ==> ents[j] != Some(o)
    decreases |ents| - from
  {
    if from == |ents| || ents[from] == Some(o) then from else EntryOf(ents, o, from + 1)
  }

  /** Reclaiming an object drops its queue entry. */
  function Purge(q: Queue, o: nat): Queue
    requires q.len <= |q.ents|
  {
    var i := EntryOf(q.ents, o, 0);
    if i < |q.ents| then Remove(q, i) else q
  }

  lemma PurgeOk(q: Queue, o: nat)
    requires QueueOk(q)
    ensures QueueOk(Purge(q, o)) && !Queued(Purge(q, o), o)
    ensures forall x: nat :: x != o ==> (Queued(Purge(q, o), x) <==> Queued(q, x))
  {
    var i := EntryOf(q.ents, o, 0);
    if i < |q.ents| {
      RemoveOk(q, i);
    }
  }
}
