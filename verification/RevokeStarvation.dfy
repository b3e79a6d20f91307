/**
 Where the round-robin is not fair. The cursor is reduced modulo the published length of the queue. When entries
 behind the cursor are reclaimed between two ticks, the cursor jumps back over the start of the queue, and an entry
 there can be passed over for as long as other entries come and go.
 */
module RevokeStarvation {
  import opened Words
  import opened EdgePool
  import opened CapState
  import opened CapOps
  import opened CapInvariant
  import opened CapRuns
  import opened RevokeQueue
  import opened RevokeTraces

  // ---- The scene.

  /**
   The first three entries are a victim `v` and a supply `x`, dead objects, the victim with an edge, and `w`, a dead
   object without edges; the locks are free.
   */
  ghost predicate Scene(sys: Sys, v: nat, x: nat, w: nat, len: nat, cursor: nat) {
    Inv(sys.caps) && QueueOk(sys.queue) && AllLocksFree(sys.caps) && Cast(sys, v, x, w, len, cursor)
  }

  ghost predicate Cast(sys: Sys, v: nat, x: nat, w: nat, len: nat, cursor: nat) {
    && |sys.queue.ents| == Q_MAX && sys.queue.len == len >= 3 && sys.queue.cursor == cursor
    && (forall i :: len <= i < Q_MAX ==> sys.queue.ents[i].None?)
    && sys.queue.ents[0] == Some(v) && sys.queue.ents[1] == Some(x) && sys.queue.ents[2] == Some(w)
    && Corpse(sys.caps, v) && Corpse(sys.caps, x) && Corpse(sys.caps, w)
    && sys.caps.chains[v] != [] && sys.caps.chains[w] == []
  }

  ghost predicate Corpse(s: State, o: nat) {
    o < |s.objs| && o < |s.chains| && s.objs[o].life.Dead?
  }

  /** Two live objects, one with one slot and its edge, one without. */
  ghost predicate Fodder(s: State, y: nat, z: nat) {
    && y < |s.objs| == |s.chains| && z < |s.objs| && y != z
    && s.objs[y].life.Live? && s.objs[y].slotsLeft == 1 && |s.chains[y]| == 1
    && s.objs[z].life.Live? && s.objs[z].slotsLeft == 0 && s.chains[z] == []
  }

  /** Revoke both, tick, reclaim both, tick; both ticks have a budget of one slot. */
  datatype Round = Round(y: nat, z: nat, s0: Sys, s1: Sys, s2: Sys, s3: Sys, s4: Sys, s5: Sys, s6: Sys,
                         c: nat, m: nat, d: nat, n: nat)

  /** A dead object without slots and edges is reclaimed: a fresh header, and its queue entry dropped. */
  ghost function Reclaimed(sys: Sys, o: nat): Sys
    requires sys.queue.len <= |sys.queue.ents|
  {
    if ReclaimReady(sys.caps, o, 0, 0) then
      Sys(sys.caps.(objs := sys.caps.objs[o := FreshObj()]), Purge(sys.queue, o))
    else sys
  }

  ghost predicate IsRound(r: Round) {
    match r
    case Round(y, z, s0, s1, s2, s3, s4, s5, s6, c, m, d, n) =>
      && s1 == Begin(s0, y).0 && s2 == Begin(s1, z).0
      && TickDone(s2, s3, 1, c, m, true) && Inv(s3.caps) && QueueOk(s3.queue)
      && s4 == Reclaimed(s3, y) && QueueOk(s4.queue) && s5 == Reclaimed(s4, z)
      && TickDone(s5, s6, 1, d, n, true) && Inv(s6.caps) && QueueOk(s6.queue)
  }

  // ---- Lists that get shorter.

  lemma {:induction false} SumLenShrinks<T>(a: seq<seq<T>>, b: seq<seq<T>>, x: nat)
    requires |a| == |b| && x < |a| && forall k :: 0 <= k < |a| ==> |b[k]| <= |a[k]|
    ensures SumLen(b) + |a[x]| - |b[x]| <= SumLen(a)
  {
    var n := |a| - 1;
    if x == n {
      SumLenMonotone(a[..n], b[..n]);
    } else {
      SumLenShrinks(a[..n], b[..n], x);
    }
  }

  lemma {:induction false} SumLenMonotone<T>(a: seq<seq<T>>, b: seq<seq<T>>)
    requires |a| == |b| && forall k :: 0 <= k < |a| ==> |b[k]| <= |a[k]|
    ensures SumLen(b) <= SumLen(a)
  {
    if a == [] {
    } else {
      SumLenMonotone(a[..|a| - 1], b[..|b| - 1]);
    }
  }

  lemma {:induction false} TwoShrink<T>(a: seq<seq<T>>, b: seq<seq<T>>, x: nat, y: nat)
    requires |a| == |b| && x < |a| && y < |a| && x != y && forall k :: 0 <= k < |a| ==> |b[k]| <= |a[k]|
    requires |b[x]| < |a[x]| && |b[y]| < |a[y]|
    ensures SumLen(b) + 2 <= SumLen(a)
  {
    var n := |a| - 1;
    if x == n {
      SumLenShrinks(a[..n], b[..n], y);
    } else if y == n {
      SumLenShrinks(a[..n], b[..n], x);
    } else {
      TwoShrink(a[..n], b[..n], x, y);
    }
  }

  /** One slot cleared is one object's. */
  lemma OneObjectOnly(sys: Sys, t: Sys, d: nat, x: nat, y: nat)
    requires Inv(sys.caps) && Inv(t.caps) && Improves(sys, t, d) && d <= 1
    requires x < |sys.caps.chains| && y < |sys.caps.chains| && x != y
    ensures |t.caps.chains[x]| == |sys.caps.chains[x]| || |t.caps.chains[y]| == |sys.caps.chains[y]|
    ensures |t.caps.chains[x]| + 1 >= |sys.caps.chains[x]|
  {
    SumLenShrinks(sys.caps.chains, t.caps.chains, x);
    if |t.caps.chains[x]| < |sys.caps.chains[x]| && |t.caps.chains[y]| < |sys.caps.chains[y]| {
      TwoShrink(sys.caps.chains, t.caps.chains, x, y);
    }
  }

  // ---- A tick with a budget of one slot.

  lemma FreeIsDue(sys: Sys, i: nat, o: nat)
    requires Inv(sys.caps) && AllLocksFree(sys.caps) && i < |sys.queue.ents| && sys.queue.ents[i] == Some(o)
    requires Corpse(sys.caps, o) && sys.caps.chains[o] != []
    ensures Due(sys, i, 1)
  {
    LocksFreeWorkable(sys.caps, o, 1);
  }

  /** Entry `i` is empty or its object has no edges. */
  ghost predicate NoEdges(sys: Sys, i: nat) {
    i < |sys.queue.ents| && (sys.queue.ents[i].Some? ==>
      sys.queue.ents[i].value < |sys.caps.chains| && sys.caps.chains[sys.queue.ents[i].value] == [])
  }

  /** From `start` on, entry `i` after `k` others and entry `h` after `j` are due, and those between are without
      edges. */
  ghost predicate TwoDue(sys: Sys, start: nat, limit: nat, k: nat, i: nat, o: nat, j: nat, h: nat, p: nat) {
    && start < limit && k < j < limit && i == Rotate(start, k, limit) && h == Rotate(start, j, limit)
    && i < |sys.queue.ents| && sys.queue.ents[i] == Some(o) && Due(sys, i, 1)
    && h < |sys.queue.ents| && sys.queue.ents[h] == Some(p) && Due(sys, h, 1)
    && forall x :: 0 <= x < j && x != k ==> NoEdges(sys, Rotate(start, x, limit))
  }

  /** A tick with a budget of one slot serves the first of two due entries and stops there. */
  lemma StopsAtFirst(sys: Sys, t: Sys, c: nat, n: nat, start: nat, limit: nat, k: nat, i: nat, o: nat, j: nat, h: nat,
                     p: nat)
    requires TickDone(sys, t, 1, c, n, true) && Inv(sys.caps) && Inv(t.caps) && QueueOk(sys.queue)
    requires limit == sys.queue.len && start == sys.queue.cursor % limit && TwoDue(sys, start, limit, k, i, o, j, h, p)
    ensures n == k + 1 && t.queue.cursor == NextEntry(i, limit) && Ticking(sys, t, start, n, limit, 1, c, true)
    ensures |t.caps.chains[o]| + 1 == |sys.caps.chains[o]|
  {
    RotateDistinct(start, k, j, limit);
    OneObjectOnly(sys, t, c, o, p);
    assert n > k ==> WorkedOff(sys, t, i);
    assert n > j ==> WorkedOff(sys, t, h);
    LastLostEdge(sys, t, c, n, start, limit, k, i, o, j, h, p);
  }

  lemma LastLostEdge(sys: Sys, t: Sys, c: nat, n: nat, start: nat, limit: nat, k: nat, i: nat, o: nat, j: nat, h: nat,
                     p: nat)
    requires TickDone(sys, t, 1, c, n, true) && limit == sys.queue.len && start == sys.queue.cursor % limit
    requires TwoDue(sys, start, limit, k, i, o, j, h, p) && n <= j
    ensures n == k + 1 && t.queue.cursor == NextEntry(i, limit)
  {
    assert LostEdge(sys, t, Rotate(start, n - 1, limit));
  }

  // ---- The round.

  /** Both objects are dead and queued behind the others; `y` has `n` slots and as many edges. */
  ghost predicate Loaded(sys: Sys, y: nat, z: nat, n: nat) {
    && |sys.queue.ents| >= 5 && sys.queue.ents[3] == Some(y) && sys.queue.ents[4] == Some(z)
    && Corpse(sys.caps, y) && sys.caps.objs[y].slotsLeft == n == |sys.caps.chains[y]|
    && Corpse(sys.caps, z) && sys.caps.objs[z].slotsLeft == 0 && sys.caps.chains[z] == []
  }

  ghost predicate Revoked(s: State, t: State, y: nat, z: nat) {
    y < |s.objs| && z < |s.objs| && t == Killed(Killed(s, y), z)
  }

  /** A revoke adds an entry behind the last one and changes no list. */
  lemma StartAppends(sys: Sys, o: nat)
    requires QueueOk(sys.queue) && sys.queue.len < Q_MAX && o < |sys.caps.objs|
    requires sys.caps.objs[o].life.Live? && AllQueuedDead(sys)
    requires forall i :: 0 <= i < sys.queue.len ==> sys.queue.ents[i].Some?
    ensures Begin(sys, o).0 ==
            Sys(Killed(sys.caps, o),
                Queue(sys.queue.ents[sys.queue.len := Some(o)], sys.queue.len + 1, sys.queue.cursor))
  {
    assert !Queued(sys.queue, o);
    FirstInactiveIs(sys.queue.ents, sys.queue.len);
  }

  lemma CastIsDead(sys: Sys, v: nat, x: nat, w: nat)
    requires Cast(sys, v, x, w, 3, sys.queue.cursor)
    ensures AllQueuedDead(sys) && forall i :: 0 <= i < 3 ==> sys.queue.ents[i].Some?
  {
    forall j | 0 <= j < |sys.queue.ents| && sys.queue.ents[j].Some?
      ensures Corpse(sys.caps, sys.queue.ents[j].value)
    {
      assert j < 3;
    }
  }

  /** The cast with the first of the two behind it. */
  lemma FirstStart(sys: Sys, v: nat, x: nat, w: nat, y: nat, z: nat)
    requires QueueOk(sys.queue) && Cast(sys, v, x, w, 3, 2) && Fodder(sys.caps, y, z)
    ensures var t := Begin(sys, y).0;
            && t.caps == Killed(sys.caps, y) && Cast(t, v, x, w, 4, 2) && t.queue.ents[3] == Some(y) && AllQueuedDead(t)
  {
    CastIsDead(sys, v, x, w);
    StartAppends(sys, y);
    var t := Begin(sys, y).0;
    forall j | 0 <= j < |t.queue.ents| && t.queue.ents[j].Some?
      ensures Corpse(t.caps, t.queue.ents[j].value)
    {
      assert j != 3 ==> sys.queue.ents[j] == t.queue.ents[j];
    }
  }

  lemma SecondStart(s1: Sys, s: State, v: nat, x: nat, w: nat, y: nat, z: nat)
    requires QueueOk(s1.queue) && Cast(s1, v, x, w, 4, 2) && s1.queue.ents[3] == Some(y) && AllQueuedDead(s1)
    requires Fodder(s, y, z) && s1.caps == Killed(s, y)
    ensures var t := Begin(s1, z).0;
            && Cast(t, v, x, w, 5, 2) && Loaded(t, y, z, 1) && t.caps.chains == s.chains && t.caps.cnodes == s.cnodes
            && Revoked(s, t.caps, y, z)
  {
    assert forall i :: 0 <= i < 4 ==> s1.queue.ents[i].Some?;
    StartAppends(s1, z);
  }

  lemma Starts(sys: Sys, s1: Sys, s2: Sys, v: nat, x: nat, w: nat, y: nat, z: nat)
    requires Scene(sys, v, x, w, 3, 2) && Fodder(sys.caps, y, z)
    requires s1 == Begin(sys, y).0 && s2 == Begin(s1, z).0
    ensures Scene(s2, v, x, w, 5, 2) && Loaded(s2, y, z, 1) && s2.caps.chains == sys.caps.chains
    ensures Revoked(sys.caps, s2.caps, y, z)
  {
    BeginTrackedIff(sys, y);
    BeginTrackedIff(s1, z);
    FirstStart(sys, v, x, w, y, z);
    SecondStart(s1, sys.caps, v, x, w, y, z);
  }

  lemma RingOfFive()
    ensures Rotate(2, 0, 5) == 2 && Rotate(2, 1, 5) == 3 && Rotate(2, 2, 5) == 4
    ensures Rotate(2, 3, 5) == 0 && Rotate(2, 4, 5) == 1
    ensures 2 % 5 == 2 && NextEntry(3, 5) == 4
  {
  }

  lemma FiveAreDead(sys: Sys, v: nat, x: nat, w: nat, y: nat, z: nat, n: nat)
    requires Cast(sys, v, x, w, 5, sys.queue.cursor) && Loaded(sys, y, z, n)
    ensures AllQueuedDead(sys)
  {
    forall j | 0 <= j < |sys.queue.ents| && sys.queue.ents[j].Some?
      ensures Corpse(sys.caps, sys.queue.ents[j].value)
    {
      assert j < 5;
    }
  }

  lemma StartOfScan(cursor: nat, len: nat)
    ensures cursor == 2 && len == 5 ==> cursor % len == 2
    ensures cursor == 4 && len == 3 ==> cursor % len == 1
  {
  }

  lemma FirstMeets(sys: Sys, v: nat, x: nat, w: nat, y: nat, z: nat)
    requires Cast(sys, v, x, w, 5, 2) && Loaded(sys, y, z, 1) && Due(sys, 0, 1) && Due(sys, 3, 1)
    ensures TwoDue(sys, 2, 5, 1, 3, y, 3, 0, v)
  {
    assert NoEdges(sys, 2) && NoEdges(sys, 4);
  }

  /** The first tick passes over `w`, clears the edge of `y` and stops. */
  lemma FirstStops(sys: Sys, t: Sys, c: nat, m: nat, v: nat, x: nat, w: nat, y: nat, z: nat)
    requires Scene(sys, v, x, w, 5, 2) && Loaded(sys, y, z, 1) && TickDone(sys, t, 1, c, m, true) && Inv(t.caps)
    ensures Due(sys, 0, 1) && t.queue.cursor == 4 && |t.caps.chains[y]| == 0 && Ticking(sys, t, 2, 2, 5, 1, c, true)
  {
    FreeIsDue(sys, 3, y);
    FreeIsDue(sys, 0, v);
    FirstMeets(sys, v, x, w, y, z);
    StartOfScan(sys.queue.cursor, sys.queue.len);
    StopsAtFirst(sys, t, c, m, 2, 5, 1, 3, y, 3, 0, v);
  }

  lemma FirstKeeps(sys: Sys, t: Sys, c: nat, v: nat, x: nat, w: nat, y: nat, z: nat)
    requires Cast(sys, v, x, w, 5, 2) && Loaded(sys, y, z, 1) && QueueOk(sys.queue)
    requires Ticking(sys, t, 2, 2, 5, 1, c, true) && t.queue.cursor == 4 && |t.caps.chains[y]| == 0
    ensures Cast(t, v, x, w, 5, 4) && Loaded(t, y, z, 0)
    ensures t.caps.chains[v] == sys.caps.chains[v] && t.caps.chains[x] == sys.caps.chains[x]
  {
    RingOfFive();
    FiveAreDead(sys, v, x, w, y, z, 1);
    assert Waiting(sys, t, Rotate(2, 2, 5)) && Waiting(sys, t, Rotate(2, 3, 5)) && Waiting(sys, t, Rotate(2, 4, 5));
  }

  lemma FirstTick(sys: Sys, t: Sys, c: nat, m: nat, v: nat, x: nat, w: nat, y: nat, z: nat)
    requires Scene(sys, v, x, w, 5, 2) && Loaded(sys, y, z, 1) && TickDone(sys, t, 1, c, m, true)
    requires Inv(t.caps) && QueueOk(t.queue)
    ensures Due(sys, 0, 1)
    ensures Scene(t, v, x, w, 5, 4) && Loaded(t, y, z, 0)
    ensures t.caps.chains[v] == sys.caps.chains[v] && t.caps.chains[x] == sys.caps.chains[x]
  {
    FirstStops(sys, t, c, m, v, x, w, y, z);
    FirstKeeps(sys, t, c, v, x, w, y, z);
  }

  /** Reclaiming drops the entry, and the trailing empty entries with it. */
  lemma PurgeAt(q: Queue, i: nat, o: nat)
    requires QueueOk(q) && i < Q_MAX && q.ents[i] == Some(o)
    ensures Purge(q, o) == Remove(q, i)
  {
  }

  lemma Reclaims(q: Queue, y: nat, z: nat)
    requires QueueOk(q) && q.len == 5 && q.ents[3] == Some(y) && q.ents[4] == Some(z) && q.ents[2].Some?
    ensures QueueOk(Purge(q, y)) && QueueOk(Purge(Purge(q, y), z))
    ensures Purge(Purge(q, y), z) == Queue(q.ents[3 := None][4 := None], 3, q.cursor)
  {
    PurgeAt(q, 3, y);
    RemoveOk(q, 3);
    var q1 := Purge(q, y);
    assert q1 == Queue(q.ents[3 := None], 5, q.cursor);
    PurgeAt(q1, 4, z);
    RemoveOk(q1, 4);
  }

  lemma ReclaimedOk(sys: Sys, o: nat)
    requires Inv(sys.caps) && QueueOk(sys.queue) && ReclaimReady(sys.caps, o, 0, 0)
    ensures Inv(Reclaimed(sys, o).caps) && QueueOk(Reclaimed(sys, o).queue)
  {
    LifeKeepsInv(sys.caps, Recycle(o));
    PurgeOk(sys.queue, o);
  }

  /** Reclaiming both leaves the cast alone in the queue, with the cursor beyond its end. */
  lemma BothReclaimed(s3: Sys, s4: Sys, s5: Sys, v: nat, x: nat, w: nat, y: nat, z: nat)
    requires Scene(s3, v, x, w, 5, 4) && Loaded(s3, y, z, 0)
    requires s4 == Reclaimed(s3, y) && s4.queue.len <= |s4.queue.ents| && s5 == Reclaimed(s4, z)
    ensures s5.caps == s3.caps.(objs := s3.caps.objs[y := FreshObj()][z := FreshObj()])
    ensures s5.queue == Queue(s3.queue.ents[3 := None][4 := None], 3, 4)
    ensures Inv(s4.caps) && QueueOk(s4.queue) && Inv(s5.caps) && QueueOk(s5.queue)
  {
    ReclaimedOk(s3, y);
    assert s3.queue.ents[3] != s3.queue.ents[4];
    ReclaimedOk(s4, z);
    Reclaims(s3.queue, y, z);
  }

  lemma CastRemains(s3: Sys, s5: Sys, v: nat, x: nat, w: nat, y: nat, z: nat)
    requires QueueOk(s3.queue) && AllLocksFree(s3.caps) && Cast(s3, v, x, w, 5, 4) && Loaded(s3, y, z, 0)
    requires s5.caps == s3.caps.(objs := s3.caps.objs[y := FreshObj()][z := FreshObj()])
    requires s5.queue == Queue(s3.queue.ents[3 := None][4 := None], 3, 4)
    ensures AllLocksFree(s5.caps) && Cast(s5, v, x, w, 3, 4) && s5.caps.chains == s3.caps.chains
  {
    assert forall i :: 0 <= i < 3 ==> s3.queue.ents[i] != s3.queue.ents[3] && s3.queue.ents[i] != s3.queue.ents[4];
  }

  lemma SecondMeets(sys: Sys, v: nat, x: nat, w: nat)
    requires Cast(sys, v, x, w, 3, 4) && Due(sys, 0, 1) && Due(sys, 1, 1)
    ensures TwoDue(sys, 1, 3, 0, 1, x, 2, 0, v)
  {
    assert NoEdges(sys, 2);
  }

  /** The second tick starts behind the victim, clears an edge of `x` and stops. */
  lemma SecondStops(sys: Sys, t: Sys, d: nat, n: nat, v: nat, x: nat, w: nat)
    requires Scene(sys, v, x, w, 3, 4) && sys.caps.chains[x] != [] && TickDone(sys, t, 1, d, n, true) && Inv(t.caps)
    ensures Due(sys, 0, 1) && t.queue.cursor == 2 && Ticking(sys, t, 1, 1, 3, 1, d, true)
    ensures |t.caps.chains[x]| + 1 == |sys.caps.chains[x]|
  {
    FreeIsDue(sys, 1, x);
    FreeIsDue(sys, 0, v);
    SecondMeets(sys, v, x, w);
    StartOfScan(sys.queue.cursor, sys.queue.len);
    StopsAtFirst(sys, t, d, n, 1, 3, 0, 1, x, 2, 0, v);
  }

  lemma SecondKeeps(sys: Sys, t: Sys, d: nat, v: nat, x: nat, w: nat)
    requires Cast(sys, v, x, w, 3, 4) && QueueOk(sys.queue) && AllLocksFree(sys.caps)
    requires Ticking(sys, t, 1, 1, 3, 1, d, true) && t.queue.cursor == 2
    ensures AllLocksFree(t.caps) && Cast(t, v, x, w, 3, 2) && t.caps.chains[v] == sys.caps.chains[v]
  {
    CastIsDead(sys, v, x, w);
    assert Waiting(sys, t, Rotate(1, 1, 3)) && Waiting(sys, t, Rotate(1, 2, 3));
  }

  // ---- Bystanders.

  /** The header counts and the list of `o` are as they were. */
  ghost predicate Bystander(s: State, t: State, o: nat) {
    && |t.objs| == |s.objs| == |s.chains| == |t.chains|
    && (o < |s.objs| ==> t.objs[o].life == s.objs[o].life && t.objs[o].slotsLeft == s.objs[o].slotsLeft)
    && (o < |s.chains| ==> t.chains[o] == s.chains[o])
  }

  lemma TickSpares(sys: Sys, t: Sys, d: nat, o: nat)
    requires Improves(sys, t, d) && !Queued(sys.queue, o) && |sys.caps.objs| == |sys.caps.chains|
    ensures Bystander(sys.caps, t.caps, o)
  {
  }

  /** The queue holds nothing but the cast and, with `len` 5, the two others. */
  lemma NotQueued(sys: Sys, v: nat, x: nat, w: nat, y: nat, z: nat, len: nat, o: nat)
    requires Cast(sys, v, x, w, len, sys.queue.cursor) && (len == 3 || (len == 5 && Loaded(sys, y, z, 1)))
    requires o !in {v, x, w, y, z}
    ensures !Queued(sys.queue, o)
  {
    forall i | 0 <= i < |sys.queue.ents|
      ensures sys.queue.ents[i] != Some(o)
    {
      assert i < 5 || sys.queue.ents[i].None?;
    }
  }

  // ---- The round as a whole.

  /** After the first five events the victim is as it was, and behind the cursor. */
  lemma FirstHalf(r: Round, v: nat, x: nat, w: nat)
    requires IsRound(r) && Scene(r.s0, v, x, w, 3, 2) && Fodder(r.s0.caps, r.y, r.z)
    ensures Due(r.s2, 0, 1) && r.s2.queue.ents[0] == Some(v) && Scene(r.s5, v, x, w, 3, 4)
    ensures r.s5.caps.chains[v] == r.s0.caps.chains[v] && r.s5.caps.chains[x] == r.s0.caps.chains[x]
  {
    Starts(r.s0, r.s1, r.s2, v, x, w, r.y, r.z);
    FirstTick(r.s2, r.s3, r.c, r.m, v, x, w, r.y, r.z);
    BothReclaimed(r.s3, r.s4, r.s5, v, x, w, r.y, r.z);
    CastRemains(r.s3, r.s5, v, x, w, r.y, r.z);
  }

  /**
   A round passes over the victim, which is due at both of its ticks, and ends in the scene it started from, with
   one edge less of `x`.
   */
  lemma RoundStarves(r: Round, v: nat, x: nat, w: nat)
    requires IsRound(r) && Scene(r.s0, v, x, w, 3, 2) && r.s0.caps.chains[x] != [] && Fodder(r.s0.caps, r.y, r.z)
    ensures PassedOver(r, v, r.s0.caps.chains[v]) && Scene(r.s6, v, x, w, 3, 2)
    ensures r.s6.caps.chains[v] == r.s0.caps.chains[v] && |r.s6.caps.chains[x]| + 1 == |r.s0.caps.chains[x]|
  {
    FirstHalf(r, v, x, w);
    SecondStops(r.s5, r.s6, r.d, r.n, v, x, w);
    SecondKeeps(r.s5, r.s6, r.d, v, x, w);
  }

  lemma RevokesSpare(s: State, t: State, y: nat, z: nat, o: nat)
    requires Revoked(s, t, y, z) && |s.objs| == |s.chains| && o != y && o != z
    ensures Bystander(s, t, o)
  {
  }

  lemma RecyclesSpare(s: State, t: State, y: nat, z: nat, o: nat)
    requires y < |s.objs| && z < |s.objs| && t == s.(objs := s.objs[y := FreshObj()][z := FreshObj()])
    requires |s.objs| == |s.chains| && o != y && o != z
    ensures Bystander(s, t, o)
  {
  }

  /** What both halves of a round leave alone. */
  lemma FirstHalfSpares(r: Round, v: nat, x: nat, w: nat, o: nat)
    requires IsRound(r) && Scene(r.s0, v, x, w, 3, 2) && Fodder(r.s0.caps, r.y, r.z) && o !in {v, x, w, r.y, r.z}
    ensures Bystander(r.s0.caps, r.s3.caps, o)
  {
    Starts(r.s0, r.s1, r.s2, v, x, w, r.y, r.z);
    RevokesSpare(r.s0.caps, r.s2.caps, r.y, r.z, o);
    NotQueued(r.s2, v, x, w, r.y, r.z, 5, o);
    TickSpares(r.s2, r.s3, r.c, o);
  }

  lemma SecondHalfSpares(r: Round, v: nat, x: nat, w: nat, o: nat)
    requires IsRound(r) && Scene(r.s3, v, x, w, 5, 4) && Loaded(r.s3, r.y, r.z, 0) && o !in {v, x, w, r.y, r.z}
    ensures Bystander(r.s3.caps, r.s6.caps, o)
  {
    BothReclaimed(r.s3, r.s4, r.s5, v, x, w, r.y, r.z);
    RecyclesSpare(r.s3.caps, r.s5.caps, r.y, r.z, o);
    CastRemains(r.s3, r.s5, v, x, w, r.y, r.z);
    NotQueued(r.s5, v, x, w, r.y, r.z, 3, o);
    TickSpares(r.s5, r.s6, r.d, o);
  }

  lemma RoundSpares(r: Round, v: nat, x: nat, w: nat, o: nat)
    requires IsRound(r) && Scene(r.s0, v, x, w, 3, 2) && Fodder(r.s0.caps, r.y, r.z) && o !in {v, x, w, r.y, r.z}
    ensures Bystander(r.s0.caps, r.s6.caps, o)
  {
    FirstHalfSpares(r, v, x, w, o);
    Starts(r.s0, r.s1, r.s2, v, x, w, r.y, r.z);
    FirstTick(r.s2, r.s3, r.c, r.m, v, x, w, r.y, r.z);
    SecondHalfSpares(r, v, x, w, o);
  }

  // ---- A round is a trace of the system.

  lemma RecycleStep(s: State, o: nat)
    requires Inv(s) && ReclaimReady(s, o, 0, 0)
    ensures Step(s, OpRecycle(o, 0, 0)) == s.(objs := s.objs[o := FreshObj()])
  {
  }

  lemma ReclaimedNext(sys: Sys, o: nat, t: Sys)
    requires Inv(sys.caps) && QueueOk(sys.queue) && ReclaimReady(sys.caps, o, 0, 0) && t == Reclaimed(sys, o)
    ensures Next(sys, Do(OpRecycle(o, 0, 0)), t)
  {
    RecycleStep(sys.caps, o);
    ReclaimedOk(sys, o);
  }

  lemma BeginNext(sys: Sys, o: nat)
    requires Inv(sys.caps) && QueueOk(sys.queue) && o < |sys.caps.objs| && sys.caps.objs[o].life.Live?
    ensures Next(sys, Start(o), Begin(sys, o).0)
  {
    BeginTrackedIff(sys, o);
  }

  lemma TickNext(sys: Sys, t: Sys, c: nat, n: nat)
    requires Inv(sys.caps) && QueueOk(sys.queue) && Inv(t.caps) && QueueOk(t.queue) && TickDone(sys, t, 1, c, n, true)
    ensures Next(sys, Tick(c), t)
  {
  }

  lemma FirstThreeNext(r: Round, v: nat, x: nat, w: nat)
    requires IsRound(r) && Scene(r.s0, v, x, w, 3, 2) && Fodder(r.s0.caps, r.y, r.z)
    ensures Next(r.s0, Start(r.y), r.s1) && Next(r.s1, Start(r.z), r.s2) && Next(r.s2, Tick(r.c), r.s3)
  {
    BeginNext(r.s0, r.y);
    BeginNext(r.s1, r.z);
    TickNext(r.s2, r.s3, r.c, r.m);
  }

  lemma LastThreeNext(r: Round, v: nat, x: nat, w: nat)
    requires IsRound(r) && Scene(r.s3, v, x, w, 5, 4) && Loaded(r.s3, r.y, r.z, 0)
    ensures Next(r.s3, Do(OpRecycle(r.y, 0, 0)), r.s4) && Next(r.s4, Do(OpRecycle(r.z, 0, 0)), r.s5)
    ensures Next(r.s5, Tick(r.d), r.s6)
  {
    ReclaimedNext(r.s3, r.y, r.s4);
    assert r.s3.queue.ents[3] != r.s3.queue.ents[4];
    ReclaimedNext(r.s4, r.z, r.s5);
    TickNext(r.s5, r.s6, r.d, r.n);
  }

  /** Every step of a round is a step of the system. */
  lemma RoundIsTrace(r: Round, v: nat, x: nat, w: nat)
    requires IsRound(r) && Scene(r.s0, v, x, w, 3, 2) && Fodder(r.s0.caps, r.y, r.z)
    ensures Next(r.s0, Start(r.y), r.s1) && Next(r.s1, Start(r.z), r.s2) && Next(r.s2, Tick(r.c), r.s3)
    ensures Next(r.s3, Do(OpRecycle(r.y, 0, 0)), r.s4) && Next(r.s4, Do(OpRecycle(r.z, 0, 0)), r.s5)
    ensures Next(r.s5, Tick(r.d), r.s6)
  {
    FirstThreeNext(r, v, x, w);
    Starts(r.s0, r.s1, r.s2, v, x, w, r.y, r.z);
    FirstTick(r.s2, r.s3, r.c, r.m, v, x, w, r.y, r.z);
    LastThreeNext(r, v, x, w);
  }

  // ---- Any number of rounds.

  ghost predicate FedRound(r: Round) {
    IsRound(r) && Fodder(r.s0.caps, r.y, r.z)
  }

  datatype Play = Over | More(r: Round, rest: Play)

  function Length(p: Play): nat {
    match p
    case Over => 0
    case More(_, rest) => 1 + Length(rest)
  }

  /** Rounds one after the other, each with fresh objects to feed it. */
  ghost predicate Rounds(p: Play) {
    match p
    case Over => true
    case More(r, rest) => FedRound(r) && (rest.More? ==> rest.r.s0 == r.s6) && Rounds(rest)
  }

  /** The victim is due at both ticks of the round, and its list is as given. */
  ghost predicate PassedOver(r: Round, v: nat, list: seq<Loc>) {
    && Due(r.s2, 0, 1) && Due(r.s5, 0, 1) && r.s2.queue.ents[0] == Some(v)
    && v < |r.s6.caps.chains| && r.s6.caps.chains[v] == list
  }

  ghost predicate AlwaysPassedOver(p: Play, v: nat, list: seq<Loc>) {
    match p
    case Over => true
    case More(r, rest) => PassedOver(r, v, list) && AlwaysPassedOver(rest, v, list)
  }

  /**
   Starvation: over any number of rounds, two ticks each, the victim has an edge in a free CNode and is due at every
   tick, and no tick visits it.
   */
  lemma {:induction false} RoundsStarve(p: Play, s0: Sys, v: nat, x: nat, w: nat, list: seq<Loc>)
    requires Rounds(p) && (p.More? ==> p.r.s0 == s0) && Scene(s0, v, x, w, 3, 2)
    requires |s0.caps.chains[x]| >= Length(p) && s0.caps.chains[v] == list
    ensures AlwaysPassedOver(p, v, list)
    decreases p
  {
    match p
    case Over =>
    case More(r, rest) =>
      RoundStarves(r, v, x, w);
      RoundsStarve(rest, r.s6, v, x, w, list);
  }

  // ---- Such rounds exist.

  /** Scanning entries without edges changes nothing. */
  lemma {:induction false} ScansPast(sys: Sys, start: nat, limit: nat, k: nat)
    requires QueueOk(sys.queue) && start < limit <= Q_MAX && k <= limit
    requires forall x :: 0 <= x < k ==> !Ready(sys, Rotate(start, x, limit))
    ensures Ticking(sys, sys, start, k, limit, 1, 0, true)
    decreases k
  {
    if k == 0 {
      TickingStarts(sys, start, limit, 1, true);
    } else {
      ScansPast(sys, start, limit, k - 1);
      var i := Rotate(start, k - 1, limit);
      SameEntriesVisited(sys, sys.queue, i, 1, true);
      TickingStep(sys, sys, sys, start, k - 1, limit, 1, 0, 0, i, 1, k, 0, true);
    }
  }

  /** The tick that serves entry `i` after `k` entries without edges. */
  lemma TickExists(sys: Sys, start: nat, limit: nat, k: nat, i: nat, o: nat) returns (t: Sys)
    requires Inv(sys.caps) && QueueOk(sys.queue) && limit == sys.queue.len && start < limit && k < limit
    requires start == sys.queue.cursor % limit && i == Rotate(start, k, limit)
    requires sys.queue.ents[i] == Some(o) && Due(sys, i, 1)
    requires forall x :: 0 <= x < k ==> !Ready(sys, Rotate(start, x, limit))
    ensures Inv(t.caps) && QueueOk(t.queue) && Improves(sys, t, 1) && TickDone(sys, t, 1, 1, k + 1, true)
  {
    ScansPast(sys, start, limit, k);
    var s := WalkIndex(sys.caps, o, 1, []);
    var n := |WalkTargets(sys.caps, o, 1, [])|;
    WalkCleans(sys.caps, s, o, 1, [], n);
    t := Sys(s, sys.queue.(cursor := NextEntry(i, limit)));
    CleanedVisited(sys, s, t.queue, i, 1, n, true);
    TickingStep(sys, sys, t, start, k, limit, 1, 0, n, i, 1, k + 1, n, true);
  }

  lemma FirstTickExists(s2: Sys, v: nat, x: nat, w: nat, y: nat, z: nat) returns (s3: Sys)
    requires Scene(s2, v, x, w, 5, 2) && Loaded(s2, y, z, 1)
    ensures TickDone(s2, s3, 1, 1, 2, true) && Inv(s3.caps) && QueueOk(s3.queue)
  {
    FreeIsDue(s2, 3, y);
    StartOfScan(s2.queue.cursor, s2.queue.len);
    assert !Ready(s2, 2);
    s3 := TickExists(s2, 2, 5, 1, 3, y);
  }

  lemma SecondTickExists(s5: Sys, v: nat, x: nat, w: nat) returns (s6: Sys)
    requires Scene(s5, v, x, w, 3, 4) && s5.caps.chains[x] != []
    ensures TickDone(s5, s6, 1, 1, 1, true) && Inv(s6.caps) && QueueOk(s6.queue)
  {
    FreeIsDue(s5, 1, x);
    StartOfScan(s5.queue.cursor, s5.queue.len);
    s6 := TickExists(s5, 1, 3, 0, 1, x);
  }

  lemma RoundExists(s0: Sys, v: nat, x: nat, w: nat, y: nat, z: nat) returns (r: Round)
    requires Scene(s0, v, x, w, 3, 2) && s0.caps.chains[x] != [] && Fodder(s0.caps, y, z)
    ensures IsRound(r) && r.s0 == s0 && r.y == y && r.z == z
  {
    var s1 := Begin(s0, y).0;
    var s2 := Begin(s1, z).0;
    Starts(s0, s1, s2, v, x, w, y, z);
    var s3 := FirstTickExists(s2, v, x, w, y, z);
    FirstTick(s2, s3, 1, 2, v, x, w, y, z);
    ReclaimedOk(s3, y);
    var s4 := Reclaimed(s3, y);
    var s5 := Reclaimed(s4, z);
    BothReclaimed(s3, s4, s5, v, x, w, y, z);
    CastRemains(s3, s5, v, x, w, y, z);
    var s6 := SecondTickExists(s5, v, x, w);
    r := Round(y, z, s0, s1, s2, s3, s4, s5, s6, 1, 2, 1, 1);
  }

  /** Live objects for as many rounds, all different. */
  ghost predicate Feeds(s: State, ys: seq<nat>, zs: seq<nat>) {
    && |zs| == |ys| && NoDup(ys + zs)
    && forall k :: 0 <= k < |ys| ==> Fodder(s, ys[k], zs[k])
  }

  lemma FodderStays(s: State, t: State, y: nat, z: nat)
    requires Fodder(s, y, z) && Bystander(s, t, y) && Bystander(s, t, z)
    ensures Fodder(t, y, z)
  {
  }

  lemma LiveNotCast(sys: Sys, v: nat, x: nat, w: nat, len: nat, cursor: nat, o: nat)
    requires Cast(sys, v, x, w, len, cursor) && o < |sys.caps.objs| && sys.caps.objs[o].life.Live?
    ensures o !in {v, x, w}
  {
  }

  lemma PairStays(r: Round, v: nat, x: nat, w: nat, y: nat, z: nat)
    requires FedRound(r) && Scene(r.s0, v, x, w, 3, 2) && Fodder(r.s0.caps, y, z)
    requires y !in {r.y, r.z} && z !in {r.y, r.z}
    ensures Fodder(r.s6.caps, y, z)
  {
    LiveNotCast(r.s0, v, x, w, 3, 2, y);
    LiveNotCast(r.s0, v, x, w, 3, 2, z);
    RoundSpares(r, v, x, w, y);
    RoundSpares(r, v, x, w, z);
    FodderStays(r.s0.caps, r.s6.caps, y, z);
  }

  lemma TailsFed(s: State, ys: seq<nat>, zs: seq<nat>)
    requires Feeds(s, ys, zs) && ys != []
    ensures forall k :: 0 <= k < |ys[1..]| ==> Fodder(s, ys[1..][k], zs[1..][k])
  {
  }

  lemma OthersStay(r: Round, v: nat, x: nat, w: nat, ys: seq<nat>, zs: seq<nat>)
    requires FedRound(r) && Scene(r.s0, v, x, w, 3, 2) && |zs| == |ys|
    requires forall k :: 0 <= k < |ys| ==> Fodder(r.s0.caps, ys[k], zs[k])
    requires forall k :: 0 <= k < |ys| ==> ys[k] !in {r.y, r.z} && zs[k] !in {r.y, r.z}
    ensures forall k :: 0 <= k < |ys| ==> Fodder(r.s6.caps, ys[k], zs[k])
  {
    forall k | 0 <= k < |ys|
      ensures Fodder(r.s6.caps, ys[k], zs[k])
    {
      PairStays(r, v, x, w, ys[k], zs[k]);
    }
  }

  lemma RoundFeedsNext(r: Round, v: nat, x: nat, w: nat, ys: seq<nat>, zs: seq<nat>)
    requires FedRound(r) && Scene(r.s0, v, x, w, 3, 2)
    requires Feeds(r.s0.caps, ys, zs) && ys != [] && r.y == ys[0] && r.z == zs[0]
    ensures Feeds(r.s6.caps, ys[1..], zs[1..])
  {
    TailsDiffer(ys, zs);
    TailsFed(r.s0.caps, ys, zs);
    OthersStay(r, v, x, w, ys[1..], zs[1..]);
  }

  lemma TailsDiffer(ys: seq<nat>, zs: seq<nat>)
    requires |zs| == |ys| > 0 && NoDup(ys + zs)
    ensures NoDup(ys[1..] + zs[1..])
    ensures forall k :: 0 <= k < |ys[1..]| ==> ys[1..][k] !in {ys[0], zs[0]} && zs[1..][k] !in {ys[0], zs[0]}
  {
    var n, all, tails := |ys|, ys + zs, ys[1..] + zs[1..];
    forall k | 0 <= k < n - 1
      ensures ys[1..][k] !in {ys[0], zs[0]} && zs[1..][k] !in {ys[0], zs[0]}
    {
      assert all[0] == ys[0] && all[n] == zs[0] && all[k + 1] == ys[1..][k] && all[n + k + 1] == zs[1..][k];
    }
    forall i, j | 0 <= i < j < |tails|
      ensures tails[i] != tails[j]
    {
      assert tails[i] == all[if i < n - 1 then i + 1 else i + 2] && tails[j] == all[if j < n - 1 then j + 1 else j + 2];
    }
  }

  /** The first round, after which there is food for the others. */
  lemma FirstRound(s0: Sys, v: nat, x: nat, w: nat, ys: seq<nat>, zs: seq<nat>) returns (r: Round)
    requires Scene(s0, v, x, w, 3, 2) && |s0.caps.chains[x]| >= |ys| > 0 && Feeds(s0.caps, ys, zs)
    ensures FedRound(r) && r.s0 == s0 && Scene(r.s6, v, x, w, 3, 2)
    ensures |r.s6.caps.chains[x]| >= |ys| - 1 && Feeds(r.s6.caps, ys[1..], zs[1..])
  {
    r := RoundExists(s0, v, x, w, ys[0], zs[0]);
    RoundStarves(r, v, x, w);
    RoundFeedsNext(r, v, x, w, ys, zs);
  }

  lemma AddRound(r: Round, rest: Play) returns (p: Play)
    requires FedRound(r) && Rounds(rest) && (rest.More? ==> rest.r.s0 == r.s6)
    ensures Rounds(p) && Length(p) == 1 + Length(rest) && p.More? && p.r == r
  {
    p := More(r, rest);
  }

  lemma {:induction false} RoundsExist(s0: Sys, v: nat, x: nat, w: nat, ys: seq<nat>, zs: seq<nat>) returns (p: Play)
    requires Scene(s0, v, x, w, 3, 2) && |s0.caps.chains[x]| >= |ys| && Feeds(s0.caps, ys, zs)
    ensures Rounds(p) && Length(p) == |ys| && (p.More? ==> p.r.s0 == s0)
    decreases |ys|
  {
    if ys == [] {
      p := Over;
    } else {
      var r := FirstRound(s0, v, x, w, ys, zs);
      var rest := RoundsExist(r.s6, v, x, w, ys[1..], zs[1..]);
      p := AddRound(r, rest);
    }
  }

  // ---- A system for any number of rounds.

  /** Objects 0, 1 and 2 are victim, supply and `w`; `n` objects with a slot follow, and then `n` without. */
  ghost function Lists(n: nat): seq<seq<Loc>> {
    seq(2 * n + 3, o requires 0 <= o =>
      if o == 0 then [Loc(0, 1)]
      else if o == 1 then seq(n, k requires 0 <= k => Loc(0, k + 2))
      else if 3 <= o < n + 3 then [Loc(0, o + n - 1)]
      else [])
  }

  /** The object the slot at `i` names. */
  ghost function Owner(n: nat, i: nat): nat {
    if i <= 1 then 0 else if i < n + 2 then 1 else i - n + 1
  }

  ghost function Slots(n: nat): seq<Slot> {
    seq(2 * n + 2, i requires 0 <= i => if i == 0 then FREE_SLOT else Slot(1, {}, 1, 1, Some(Owner(n, i))))
  }

  ghost function Objects(n: nat): seq<Obj> {
    seq(2 * n + 3, o requires 0 <= o < |Lists(n)| =>
      if o < 3 then Obj(Dead, 2, |Lists(n)[o]|) else Obj(Live, 1, |Lists(n)[o]|))
  }

  ghost function Opening(n: nat): Sys {
    Sys(State([CNode(Slots(n), None, false)], Objects(n), Lists(n), SumLen(Lists(n)), SumLen(Lists(n)), [], [], []),
        Queue([Some(0), Some(1), Some(2)] + seq(Q_MAX - 3, _ => None), 3, 2))
  }

  lemma OpeningNames(n: nat, l: Loc, o: nat)
    requires o < 2 * n + 3
    ensures Names(Opening(n).caps.cnodes, l, o) <==> l in Lists(n)[o]
  {
    if l in Lists(n)[o] {
      assert l.cnode == 0 && 0 < l.slot < 2 * n + 2 && Owner(n, l.slot) == o;
    }
    if Names(Opening(n).caps.cnodes, l, o) {
      assert l.cnode == 0 && 0 < l.slot < 2 * n + 2 && Owner(n, l.slot) == o;
      if o == 1 {
        assert Lists(n)[1][l.slot - 2] == l;
      } else {
        assert Lists(n)[o][0] == l;
      }
    }
  }

  lemma OpeningShaped(n: nat)
    ensures Shaped(Opening(n).caps)
  {
  }

  lemma ListsDistinct(n: nat, o: nat)
    requires o < 2 * n + 3
    ensures NoDup(Lists(n)[o])
  {
  }

  lemma OpeningIndexed(n: nat)
    ensures Indexed(Opening(n).caps)
  {
    var s := Opening(n).caps;
    forall o | 0 <= o < |s.chains|
      ensures NoDup(s.chains[o])
    {
      ListsDistinct(n, o);
    }
    forall o, k | 0 <= o < |s.chains| && 0 <= k < |s.chains[o]|
      ensures Names(s.cnodes, s.chains[o][k], o)
    {
      OpeningNames(n, s.chains[o][k], o);
    }
  }

  lemma OpeningCounted(n: nat, o: nat)
    requires o < 2 * n + 3
    ensures |NamedSet(Opening(n).caps.cnodes, o)| == |Lists(n)[o]|
  {
    var named, listed := NamedSet(Opening(n).caps.cnodes, o), set l | l in Lists(n)[o];
    forall l
      ensures l in named <==> l in listed
    {
      OpeningNames(n, l, o);
    }
    assert named == listed;
    ListsDistinct(n, o);
    DistinctCount(Lists(n)[o]);
  }

  lemma OpeningCurrent(n: nat)
    ensures Current(Opening(n).caps)
  {
    var s := Opening(n).caps;
    forall l, o: nat | Names(s.cnodes, l, o) && o < |s.objs| && s.objs[o].life.Live?
      ensures SlotAt(s.cnodes, l).objGen == s.objs[o].gen
    {
      assert l.cnode == 0;
    }
  }

  lemma OpeningInv(n: nat)
    requires 0 < n <= U32_MAX
    ensures Inv(Opening(n).caps)
  {
    OpeningShaped(n);
    OpeningIndexed(n);
    OpeningCurrent(n);
    forall o | 0 <= o < 2 * n + 3
      ensures |NamedSet(Opening(n).caps.cnodes, o)| == |Lists(n)[o]| <= U32_MAX
    {
      OpeningCounted(n, o);
    }
  }

  lemma OpeningCast(n: nat)
    ensures QueueOk(Opening(n).queue) && AllLocksFree(Opening(n).caps) && Cast(Opening(n), 0, 1, 2, 3, 2)
    ensures |Opening(n).caps.chains[1]| == n
  {
    var sys := Opening(n);
    assert Lists(n)[0][0] == Loc(0, 1);
    assert sys.queue.ents[0] == Some(0) && sys.queue.ents[1] == Some(1) && sys.queue.ents[2] == Some(2);
  }

  lemma OpeningFeeds(n: nat, ys: seq<nat>, zs: seq<nat>)
    requires |ys| == |zs| == n && forall k :: 0 <= k < n ==> ys[k] == k + 3 && zs[k] == k + n + 3
    ensures Feeds(Opening(n).caps, ys, zs)
  {
    assert forall k :: 0 <= k < |ys + zs| ==> (ys + zs)[k] == k + 3;
  }

  lemma OpeningScene(n: nat)
    requires 0 < n <= U32_MAX
    ensures Scene(Opening(n), 0, 1, 2, 3, 2) && |Opening(n).caps.chains[1]| == n
    ensures Feeds(Opening(n).caps, seq(n, k requires 0 <= k => k + 3), seq(n, k requires 0 <= k => k + n + 3))
  {
    OpeningInv(n);
    OpeningCast(n);
    OpeningFeeds(n, seq(n, k requires 0 <= k => k + 3), seq(n, k requires 0 <= k => k + n + 3));
  }

  /**
   For every `n` there is a system that keeps all invariants, and a run from it of `n` rounds, in which the object
   at the head of the queue is due at each of the 2n ticks and loses none of its edges.
   */
  lemma StarvationHappens(n: nat) returns (p: Play)
    requires 0 < n <= U32_MAX
    ensures Scene(Opening(n), 0, 1, 2, 3, 2)
    ensures Rounds(p) && Length(p) == n && p.More? && p.r.s0 == Opening(n)
    ensures AlwaysPassedOver(p, 0, Opening(n).caps.chains[0])
  {
    OpeningScene(n);
    p := RoundsExist(Opening(n), 0, 1, 2, seq(n, k requires 0 <= k => k + 3), seq(n, k requires 0 <= k => k + n + 3));
    RoundsStarve(p, Opening(n), 0, 1, 2, Opening(n).caps.chains[0]);
  }
}
