/**
 Traces of the whole system, capability operations, revokes and deferred ticks in any order: a revoke that found
 the queue full is never queued again.
 */
module RevokeTraces {
  import opened Words
  import opened CapState
  import opened CapOps
  import opened CapInvariant
  import opened CapRuns
  import opened CapRevocation
  import opened RevokeQueue

  datatype Event = Do(op: Op) | Start(x: nat) | Tick(d: nat)

  /** One step of the whole system: a capability operation, a revoke, or a deferred tick. */
  ghost predicate Next(sys: Sys, e: Event, t: Sys) {
    && Inv(sys.caps) && QueueOk(sys.queue) && Inv(t.caps) && QueueOk(t.queue)
    && match e
       case Do(op) =>
         && Allowed(sys.caps, op) && t.caps == Step(sys.caps, op)
         && t.queue == if op.OpRecycle? && ReclaimReady(sys.caps, op.o, op.refs, op.pins) then Purge(sys.queue, op.o)
                       else sys.queue
       case Start(x) => t == Begin(sys, x).0
       case Tick(d) => Improves(sys, t, d)
  }

  ghost predicate IsTrace(tr: seq<Sys>, es: seq<Event>) {
    && |tr| == |es| + 1
    && forall k :: 0 <= k < |es| ==> Next(tr[k], es[k], tr[k + 1])
  }

  /** Dead, and not queued. */
  ghost predicate Abandoned(sys: Sys, o: nat) {
    o < |sys.caps.objs| && sys.caps.objs[o].life.Dead? && !Queued(sys.queue, o)
  }

  lemma NextKeepsAbandoned(sys: Sys, e: Event, t: Sys, o: nat)
    requires Next(sys, e, t) && Abandoned(sys, o)
    requires e.Do? ==> !(e.op.OpRecycle? && e.op.o == o)
    ensures Abandoned(t, o)
    ensures !e.Do? ==> Kept(sys.caps, t.caps, o)
  {
    match e
    case Do(op) =>
      StepIsEffects(sys.caps, op);
      StepNoRecycle(sys.caps, op, o);
      EffectsKeepDead(sys.caps, EffectsOf(sys.caps, op), o);
      if op.OpRecycle? {
        PurgeOk(sys.queue, op.o);
      }
    case Start(x) => PushOk(sys.queue, x);
    case Tick(d) =>
  }

  lemma EffectKeepsDead(s: State, e: Effect, o: nat)
    requires Inv(s) && Enabled(s, e) && o < |s.objs| && s.objs[o].life.Dead? && !(e.Recycle? && e.o == o)
    ensures o < |Apply(s, e).objs| && Apply(s, e).objs[o].life.Dead?
  {
  }

  lemma {:induction false} EffectsKeepDead(s: State, es: seq<Effect>, o: nat)
    requires Inv(s) && CanApply(s, es) && o < |s.objs| && s.objs[o].life.Dead? && NoRecycle(es, o)
    ensures o < |ApplyAll(s, es).objs| && ApplyAll(s, es).objs[o].life.Dead?
    decreases |es|
  {
    if es == [] {
    } else {
      EffectKeepsDead(s, es[0], o);
      ApplyAllStep(s, es);
      EffectsKeepDead(Apply(s, es[0]), es[1..], o);
    }
  }

  /**
   A revoke answered with ErrAgain leaves its object dead, and whatever happens afterwards, short of freeing and
   reusing the header, the object never gets onto the queue: asking again is answered with ErrDead before the
   queue is tried. Ticks and further revokes leave its slots alone, so with them alone its work stays lost.
   */
  lemma AgainIsForever(tr: seq<Sys>, es: seq<Event>, o: nat)
    requires IsTrace(tr, es) && o < |tr[0].caps.objs|
    requires Inv(tr[0].caps) && QueueOk(tr[0].queue) && Begin(tr[0], o).1 == ErrAgain
    requires es != [] && es[0] == Start(o)
    requires forall k :: 0 <= k < |es| && es[k].Do? ==> !(es[k].op.OpRecycle? && es[k].op.o == o)
    ensures Abandoned(tr[|es|], o) && Begin(tr[|es|], o) == (tr[|es|], ErrDead)
    ensures o in Lost(tr[|es|]) <==> Outstanding(tr[|es|].caps, o)
    ensures (forall k :: 0 <= k < |es| ==> !es[k].Do?) ==> Kept(tr[1].caps, tr[|es|].caps, o)
  {
    AbandonedAfter(tr, es, o, |es|);
  }

  lemma AgainAbandons(sys: Sys, t: Sys, o: nat)
    requires Next(sys, Start(o), t) && o < |sys.caps.objs| && Begin(sys, o).1 == ErrAgain
    ensures Abandoned(t, o)
  {
    PushOk(sys.queue, o);
  }

  lemma {:induction false} AbandonedAfter(tr: seq<Sys>, es: seq<Event>, o: nat, n: nat)
    requires IsTrace(tr, es) && 0 < n <= |es| && es[0] == Start(o)
    requires o < |tr[0].caps.objs| && Begin(tr[0], o).1 == ErrAgain
    requires forall k :: 0 <= k < |es| && es[k].Do? ==> !(es[k].op.OpRecycle? && es[k].op.o == o)
    ensures Abandoned(tr[n], o)
    ensures (forall k :: 0 <= k < |es| ==> !es[k].Do?) ==> Kept(tr[1].caps, tr[n].caps, o)
    decreases n
  {
    if n == 1 {
      assert Next(tr[0], es[0], tr[0 + 1]);
      AgainAbandons(tr[0], tr[1], o);
    } else {
      AbandonedAfter(tr, es, o, n - 1);
      assert Next(tr[n - 1], es[n - 1], tr[n - 1 + 1]);
      NextKeepsAbandoned(tr[n - 1], es[n - 1], tr[n], o);
    }
  }

  /** After ErrAgain for an object with slots, no sequence of ticks and revokes clears the first of them. */
  lemma AgainLosesWork(tr: seq<Sys>, es: seq<Event>, o: nat)
    requires IsTrace(tr, es) && o < |tr[0].caps.objs|
    requires Inv(tr[0].caps) && QueueOk(tr[0].queue) && Begin(tr[0], o).1 == ErrAgain
    requires es != [] && es[0] == Start(o) && forall k :: 0 <= k < |es| ==> !es[k].Do?
    requires tr[0].caps.objs[o].slotsLeft > 0
    ensures o in Lost(tr[|es|]) && tr[|es|].caps.objs[o].slotsLeft == tr[0].caps.objs[o].slotsLeft
  {
    AgainIsForever(tr, es, o);
    assert Next(tr[0], es[0], tr[1]);
  }

  // ---- A trace from a fresh system in which a revoke is answered with ErrAgain.

  /** The 64 objects that fill the queue are 0 to 63; the first `k` are dead, and object 64 has `n` slots. */
  ghost function Headers(k: nat, n: nat): seq<Obj> {
    seq(Q_MAX + 1, o requires 0 <= o => if o < k then Obj(Dead, 2, 0) else Obj(Live, 1, if o == Q_MAX then n else 0))
  }

  ghost function Entries(k: nat): seq<Option<nat>> {
    seq(Q_MAX, i requires 0 <= i => if i < k then Some(i) else None)
  }

  ghost function Caps(slot: Slot, k: nat, n: nat): State {
    State([CNode([FREE_SLOT, slot], None, false)], Headers(k, n), seq(Q_MAX + 1, o => []), 0, 1, [], [], [])
  }

  /** Freshly initialised: all objects live, every slot free, the queue empty. */
  ghost function FreshSystem(): Sys {
    Sys(Caps(FREE_SLOT, 0, 0), Queue(Entries(0), 0, 0))
  }

  /** Object 64 has a slot, and the first `k` of the others are revoked. */
  ghost function Crowd(k: nat): Sys {
    Sys(Caps(Slot(1, {}, 1, 1, Some(Q_MAX)), k, 1), Queue(Entries(k), k, 0))
  }

  lemma FreshIsInitial()
    ensures Initial(FreshSystem().caps) && Inv(FreshSystem().caps) && QueueOk(FreshSystem().queue)
  {
    var s := FreshSystem().caps;
    assert forall l :: InRange(s.cnodes, l) ==> SlotAt(s.cnodes, l) == FREE_SLOT;
    InitialInv(s);
  }

  lemma FreshAllocs()
    ensures Shaped(FreshSystem().caps)
    ensures AllocInstall(FreshSystem().caps, 0, 1, {}, Q_MAX).state == Crowd(0).caps
  {
    FreshIsInitial();
    var s, slot := FreshSystem().caps, Slot(1, {}, 1, 1, Some(Q_MAX));
    assert FirstFree(s.cnodes[0].slots, 1) == 1;
    assert s.cnodes[0].slots[1 := slot] == [FREE_SLOT, slot];
    assert s.objs[Q_MAX := Obj(Live, 1, 1)] == Headers(0, 1);
  }

  lemma FreshInstalls()
    ensures Inv(FreshSystem().caps) && Inv(Crowd(0).caps)
    ensures Step(FreshSystem().caps, OpAlloc(0, 1, {}, Q_MAX)) == Crowd(0).caps
  {
    FreshIsInitial();
    FreshAllocs();
    StepKeepsInv(FreshSystem().caps, OpAlloc(0, 1, {}, Q_MAX));
  }

  lemma CrowdQueued(k: nat)
    requires k < Q_MAX
    ensures Push(Queue(Entries(k), k, 0), k) == (Queue(Entries(k + 1), k + 1, 0), true)
  {
    FirstInactiveIs(Entries(k), k);
    assert Entries(k)[k := Some(k)] == Entries(k + 1);
  }

  lemma CrowdGrows(k: nat, k': nat)
    requires k' == k + 1 <= Q_MAX && Inv(Crowd(k).caps)
    ensures Begin(Crowd(k), k).0 == Crowd(k') && Inv(Crowd(k').caps)
  {
    CrowdQueued(k);
    assert Headers(k, 1)[k := Obj(Dead, 2, 0)] == Headers(k', 1);
    KilledIsEffects(Crowd(k).caps, k);
  }

  lemma CrowdQueueOk(k: nat)
    requires k <= Q_MAX
    ensures QueueOk(Crowd(k).queue)
  {
  }

  lemma {:induction false} CrowdInv(k: nat)
    requires k <= Q_MAX
    ensures Inv(Crowd(k).caps) && QueueOk(Crowd(k).queue)
  {
    CrowdQueueOk(k);
    if k == 0 {
      FreshInstalls();
    } else {
      CrowdInv(k - 1);
      CrowdGrows(k - 1, k);
    }
  }

  /** Install a slot for object 64, revoke objects 0 to 63, then object 64. */
  ghost function CrowdingEvents(): seq<Event> {
    [Do(OpAlloc(0, 1, {}, Q_MAX))] + seq(Q_MAX + 1, x requires 0 <= x => Start(x))
  }

  ghost function CrowdingTrace(): seq<Sys> {
    [FreshSystem()] + seq(Q_MAX + 1, k requires 0 <= k => Crowd(k)) + [Begin(Crowd(Q_MAX), Q_MAX).0]
  }

  lemma LastIsLost()
    ensures Inv(Begin(Crowd(Q_MAX), Q_MAX).0.caps) && QueueOk(Begin(Crowd(Q_MAX), Q_MAX).0.queue)
    ensures Begin(Crowd(Q_MAX), Q_MAX).1 == ErrAgain && Q_MAX in Lost(Begin(Crowd(Q_MAX), Q_MAX).0)
  {
    CrowdInv(Q_MAX);
    var sys := Crowd(Q_MAX);
    assert !HasRoomFor(sys.queue, Q_MAX);
    BeginTrackedIff(sys, Q_MAX);
    PushOk(sys.queue, Q_MAX);
    assert Outstanding(Begin(sys, Q_MAX).0.caps, Q_MAX);
  }

  lemma CrowdingStart()
    ensures Next(FreshSystem(), Do(OpAlloc(0, 1, {}, Q_MAX)), Crowd(0))
  {
    FreshIsInitial();
    FreshInstalls();
    CrowdInv(0);
  }

  lemma CrowdingNext(k: nat, k': nat)
    requires k' == k + 1 <= Q_MAX
    ensures Next(Crowd(k), Start(k), Crowd(k'))
  {
    CrowdInv(k);
    CrowdGrows(k, k');
    CrowdInv(k');
  }

  lemma CrowdingEnd()
    ensures Next(Crowd(Q_MAX), Start(Q_MAX), Begin(Crowd(Q_MAX), Q_MAX).0)
  {
    CrowdInv(Q_MAX);
    LastIsLost();
  }

  lemma CrowdingAt(k: nat)
    requires 0 < k <= Q_MAX + 1
    ensures CrowdingTrace()[k] == Crowd(k - 1) && CrowdingEvents()[k] == Start(k - 1)
  {
  }

  lemma CrowdingStep(k: nat)
    requires k < Q_MAX + 2
    ensures Next(CrowdingTrace()[k], CrowdingEvents()[k], CrowdingTrace()[k + 1])
  {
    if k > 0 {
      CrowdingAt(k);
    }
    if k == 0 {
      CrowdingAt(1);
      CrowdingStart();
    } else if k <= Q_MAX {
      CrowdingAt(k + 1);
      CrowdingNext(k - 1, k);
    } else {
      CrowdingEnd();
    }
  }

  /** From a fresh system, 64 revokes fill the queue; the next one is answered with ErrAgain and its slot is lost. */
  lemma AgainHappens()
    ensures Initial(FreshSystem().caps) && QueueOk(FreshSystem().queue) && CrowdingTrace()[0] == FreshSystem()
    ensures IsTrace(CrowdingTrace(), CrowdingEvents())
    ensures Begin(CrowdingTrace()[Q_MAX + 1], Q_MAX).1 == ErrAgain && Q_MAX in Lost(CrowdingTrace()[Q_MAX + 2])
  {
    FreshIsInitial();
    LastIsLost();
    forall k | 0 <= k < |CrowdingEvents()|
      ensures Next(CrowdingTrace()[k], CrowdingEvents()[k], CrowdingTrace()[k + 1])
    {
      CrowdingStep(k);
    }
  }
}
