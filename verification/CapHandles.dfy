/** Slot generations over whole runs: a handle to a cleared slot stays stale for a full generation cycle. */
module CapHandles {
  import opened Words
  import opened EdgePool
  import opened CapState
  import opened CapOps
  import opened CapInvariant
  import opened CapRuns

  /** Generations 1 .. 2^32 - 1 come round after this many invalidations. */
  const GEN_PERIOD: nat := U32_MAX

  /** The generation reached from `g` after `n` invalidations of the slot. */
  ghost function Advance(g: nat, n: nat): nat
    decreases n
  {
    if n == 0 then g else Advance(NextGen(g), n - 1)
  }

  lemma {:induction false} AdvanceAdd(g: nat, m: nat, n: nat)
    ensures Advance(g, m + n) == Advance(Advance(g, m), n)
    decreases m
  {
    if m == 0 {
    } else {
      AdvanceAdd(NextGen(g), m - 1, n);
    }
  }

  /** Up to the largest generation each invalidation adds one. */
  lemma {:induction false} AdvanceCounts(g: nat, n: nat)
    requires 0 < g && g + n <= GEN_PERIOD
    ensures Advance(g, n) == g + n
    decreases n
  {
    if n == 0 {
    } else {
      AdvanceCounts(g + 1, n - 1);
    }
  }

  /** From there the next generation is 1. */
  lemma AdvanceWraps(g: nat, n: nat)
    requires 0 < g <= GEN_PERIOD < g + n && n <= GEN_PERIOD
    ensures Advance(g, n) == g + n - GEN_PERIOD
  {
    AdvanceCounts(g, GEN_PERIOD - g);
    AdvanceAdd(g, GEN_PERIOD - g, g + n - GEN_PERIOD);
    AdvanceCounts(1, g + n - GEN_PERIOD - 1);
  }

  lemma LessPeriod(n: nat)
    ensures n < GEN_PERIOD ==> n % GEN_PERIOD == n
    ensures n >= GEN_PERIOD ==> n % GEN_PERIOD == (n - GEN_PERIOD) % GEN_PERIOD
  {
  }

  lemma FullCycle(g: nat, period: nat, n: nat)
    requires 0 < g <= GEN_PERIOD == period
    ensures Advance(g, period + n) == Advance(g, n)
  {
    AdvanceWraps(g, period);
    AdvanceAdd(g, period, n);
  }

  /** The generation comes back exactly after whole cycles. */
  lemma {:induction false} CycleLength(g: nat, n: nat)
    requires 0 < g < U32_LIMIT
    ensures Advance(g, n) == g <==> n % GEN_PERIOD == 0
    decreases n
  {
    LessPeriod(n);
    if n >= GEN_PERIOD {
      FullCycle(g, GEN_PERIOD, n - GEN_PERIOD);
      CycleLength(g, n - GEN_PERIOD);
    } else if g + n <= GEN_PERIOD {
      AdvanceCounts(g, n);
    } else {
      AdvanceWraps(g, n);
    }
  }

  ghost function CountVacates(es: seq<Effect>, l: Loc): nat {
    if es == [] then 0 else (if es[0] == Vacate(l) then 1 else 0) + CountVacates(es[1..], l)
  }

  lemma {:induction false} CountVacatesConcat(es: seq<Effect>, fs: seq<Effect>, l: Loc)
    ensures CountVacates(es + fs, l) == CountVacates(es, l) + CountVacates(fs, l)
  {
    if es == [] {
      assert es + fs == fs;
    } else {
      assert (es + fs)[1..] == es[1..] + fs;
      CountVacatesConcat(es[1..], fs, l);
    }
  }

  lemma {:induction false} CountVacatesOf(ls: seq<Loc>, l: Loc)
    requires NoDup(ls)
    ensures CountVacates(Vacates(ls), l) == if l in ls then 1 else 0
  {
    if ls == [] {
    } else {
      VacatesTail(ls);
      var tail := ls[1..];
      assert forall k :: 0 <= k < |tail| ==> tail[k] == ls[k + 1];
      CountVacatesOf(tail, l);
    }
  }

  /** The generation of the slot at `l`. */
  ghost function GenAt(s: State, l: Loc): nat {
    if InRange(s.cnodes, l) then SlotAt(s.cnodes, l).gen else 0
  }

  lemma EffectGen(s: State, e: Effect, l: Loc)
    requires Inv(s) && Enabled(s, e) && InRange(s.cnodes, l)
    ensures InRange(Apply(s, e).cnodes, l)
    ensures GenAt(Apply(s, e), l) == if e == Vacate(l) then NextGen(GenAt(s, l)) else GenAt(s, l)
  {
  }

  /** On the way from `s` to `t` the slot at `l` was invalidated `n` times. */
  ghost predicate Aged(s: State, t: State, l: Loc, n: nat) {
    InRange(t.cnodes, l) && GenAt(t, l) == Advance(GenAt(s, l), n)
  }

  lemma AgedStep(s: State, t: State, u: State, l: Loc, cleared: bool, m: nat, n: nat)
    requires GenAt(t, l) == if cleared then NextGen(GenAt(s, l)) else GenAt(s, l)
    requires Aged(t, u, l, m) && n == if cleared then 1 + m else m
    ensures Aged(s, u, l, n)
  {
  }

  /** The state after the first effect, and how the slot has aged on the way to it. */
  lemma FirstEffectGen(s: State, es: seq<Effect>, l: Loc) returns (t: State)
    requires Inv(s) && CanApply(s, es) && es != [] && InRange(s.cnodes, l)
    ensures Inv(t) && CanApply(t, es[1..]) && ApplyAll(s, es) == ApplyAll(t, es[1..]) && InRange(t.cnodes, l)
    ensures GenAt(t, l) == if es[0] == Vacate(l) then NextGen(GenAt(s, l)) else GenAt(s, l)
  {
    t := Apply(s, es[0]);
    EffectGen(s, es[0], l);
    ApplyAllStep(s, es);
  }

  lemma {:induction false} EffectsGen(s: State, es: seq<Effect>, l: Loc, u: State, n: nat)
    requires Inv(s) && CanApply(s, es) && InRange(s.cnodes, l) && u == ApplyAll(s, es) && n == CountVacates(es, l)
    ensures Aged(s, u, l, n)
    decreases |es|
  {
    if es == [] {
    } else {
      var t := FirstEffectGen(s, es, l);
      var m := CountVacates(es[1..], l);
      EffectsGen(t, es[1..], l, u, m);
      AgedStep(s, t, u, l, es[0] == Vacate(l), m, n);
    }
  }

  // ---- Counting the clears of a slot along a run.

  ghost function Clears1(s: State, op: Op, l: Loc): nat
    requires Inv(s) && Allowed(s, op)
  {
    if Occupied(s.cnodes, l) && !Occupied(Step(s, op).cnodes, l) then 1 else 0
  }

  /** How many operations of the run found slot `l` occupied and left it free. */
  ghost function Clears(s: State, ops: seq<Op>, l: Loc): nat
    requires Inv(s) && AllowedRun(s, ops)
    decreases |ops|
  {
    if ops == [] then 0
    else (StepKeepsInv(s, ops[0]); Clears1(s, ops[0], l) + Clears(Step(s, ops[0]), ops[1..], l))
  }

  lemma {:induction false} DropEachFrees(s: State, ls: seq<Loc>, l: Loc)
    requires Shaped(s) && NoDup(ls) && AllOccupied(s.cnodes, ls)
    ensures Occupied(DropEach(s, ls).cnodes, l) <==> Occupied(s.cnodes, l) && l !in ls
    decreases |ls|
  {
    if ls == [] {
    } else {
      DropShaped(s, ls[0]);
      var s1, tail := Drop(s, ls[0]), ls[1..];
      assert forall k :: 0 <= k < |tail| ==> tail[k] == ls[k + 1];
      DropEachFrees(s1, tail, l);
    }
  }

  lemma DropEachVacates(s: State, ls: seq<Loc>, l: Loc)
    requires Inv(s) && NoDup(ls) && AllOccupied(s.cnodes, ls)
    ensures CountVacates(Vacates(ls), l) ==
            if Occupied(s.cnodes, l) && !Occupied(DropEach(s, ls).cnodes, l) then 1 else 0
  {
    CountVacatesOf(ls, l);
    DropEachFrees(s, ls, l);
  }

  lemma WireEffectsVacateNothing(s: State, o: nat, l: Loc, m: Loc)
    ensures CountVacates(WireEffects(s, o, l), m) == 0
  {
  }

  lemma DeriveClears(s: State, src: Loc, r: Outcome, c: nat, typ: nat, rights: Rights, o: nat, l: Loc)
    ensures CountVacates(DeriveEffects(s, src, r, c, typ, rights, o), l) == 0
  {
    if r.status == Ok && r.ref.Some? {
      var m := Loc(c, r.ref.value.slot);
      WireEffectsVacateNothing(s, o, m, l);
      CountVacatesConcat([Fill(m, typ, rights, o, Some(src))], WireEffects(s, o, m), l);
    }
  }

  lemma MoveClears(s: State, c: nat, i: nat, g: nat, l: Loc)
    requires Inv(s)
    ensures CountVacates(MoveEffects(s, c, i, g), l) ==
            if Occupied(s.cnodes, l) && !Occupied(Move(s, c, i, g).state.cnodes, l) then 1 else 0
  {
    MoveAtomic(s, c, i, g);
    var r, v := Move(s, c, i, g), Resolve(s, c, i, g);
    if r.status == Ok {
      var src, m := Loc(c, i), Loc(c, r.ref.value.slot);
      AllocIsFill(s, c, v.typ, v.rights, v.obj);
      WireEffectsVacateNothing(Drop(s, src), v.obj, m, l);
      FillVacateCount(Fill(m, v.typ, v.rights, v.obj, Some(src)), src, WireEffects(Drop(s, src), v.obj, m), l);
    }
  }

  lemma FillVacateCount(fill: Effect, src: Loc, wire: seq<Effect>, l: Loc)
    requires fill.Fill? && CountVacates(wire, l) == 0
    ensures CountVacates([fill, Vacate(src)] + wire, l) == if l == src then 1 else 0
  {
    var head := [fill, Vacate(src)];
    CountVacatesConcat(head, wire, l);
    assert head[1..] == [Vacate(src)] && head[1..][1..] == [];
  }

  lemma AllocClears(s: State, c: nat, typ: nat, rights: Rights, o: nat, l: Loc)
    requires Shaped(s) && Occupied(s.cnodes, l)
    ensures Occupied(AllocInstall(s, c, typ, rights, o).state.cnodes, l)
    ensures Occupied(DeriveInto(s, c, typ, rights, o).state.cnodes, l)
  {
    AllocAtomic(s, c, typ, rights, o);
  }

  lemma MintClears(s: State, c: nat, i: nat, g: nat, rights: Rights, dst: Option<nat>, l: Loc)
    requires Inv(s)
    ensures CountVacates(MintEffects(s, c, i, g, rights, dst), l) == 0
    ensures Occupied(s.cnodes, l) ==> Occupied(Mint(s, c, i, g, rights, dst).state.cnodes, l)
  {
    MintAtomic(s, c, i, g, rights, dst);
    var v := Resolve(s, c, i, g);
    DeriveClears(s, Loc(c, i), Mint(s, c, i, g, rights, dst), MintTarget(c, dst), v.typ, v.rights * rights, v.obj, l);
    if Occupied(s.cnodes, l) {
      AllocClears(s, MintTarget(c, dst), v.typ, v.rights * rights, v.obj, l);
    }
  }

  lemma CopyClears(s: State, c: nat, i: nat, g: nat, rights: Rights, l: Loc)
    requires Inv(s)
    ensures CountVacates(CopyEffects(s, c, i, g, rights), l) == 0
    ensures Occupied(s.cnodes, l) ==> Occupied(Copy(s, c, i, g, rights).state.cnodes, l)
  {
    CopyAtomic(s, c, i, g, rights);
    var v := Resolve(s, c, i, g);
    var mask := CopyMask(v.rights, rights);
    DeriveClears(s, Loc(c, i), Copy(s, c, i, g, rights), c, v.typ, v.rights * mask, v.obj, l);
    if Occupied(s.cnodes, l) {
      AllocClears(s, c, v.typ, v.rights * mask, v.obj, l);
    }
  }

  lemma StepClears(s: State, op: Op, l: Loc)
    requires Inv(s) && Allowed(s, op)
    ensures CountVacates(EffectsOf(s, op), l) == Clears1(s, op, l)
  {
    match op
    case OpMint(c, i, g, rights, dst) => MintClears(s, c, i, g, rights, dst, l);
    case OpCopy(c, i, g, rights) => CopyClears(s, c, i, g, rights, l);
    case OpMove(c, i, g) => MoveClears(s, c, i, g, l);
    case OpInvalidate(c, o, max) => DropEachVacates(s, InvalidateTargets(s, c, o, max), l);
    case OpWalk(o, max, held) => DropEachVacates(s, WalkTargets(s, o, max, held), l);
    case _ => OtherClears(s, op, l);
  }

  /** The remaining operations are one effect at most. */
  lemma OtherClears(s: State, op: Op, l: Loc)
    requires Inv(s) && Allowed(s, op)
    requires !op.OpMint? && !op.OpCopy? && !op.OpMove? && !op.OpInvalidate? && !op.OpWalk?
    ensures CountVacates(EffectsOf(s, op), l) == Clears1(s, op, l)
  {
    StepIsEffects(s, op);
    var es := EffectsOf(s, op);
    if es != [] {
      assert es == [es[0]] && es[1..] == [];
      One(s, es[0]);
      EffectFrees(s, es[0], l);
    }
  }

  lemma EffectFrees(s: State, e: Effect, l: Loc)
    requires Inv(s) && Enabled(s, e)
    ensures Occupied(s.cnodes, l) && !Occupied(Apply(s, e).cnodes, l) <==> e == Vacate(l)
  {
  }

  lemma {:induction false} RunClears(s: State, ops: seq<Op>, l: Loc)
    requires Inv(s) && AllowedRun(s, ops)
    ensures CountVacates(RunEffects(s, ops), l) == Clears(s, ops, l)
    decreases |ops|
  {
    if ops == [] {
    } else {
      StepClears(s, ops[0], l);
      StepKeepsInv(s, ops[0]);
      RunClears(Step(s, ops[0]), ops[1..], l);
      CountVacatesConcat(EffectsOf(s, ops[0]), RunEffects(Step(s, ops[0]), ops[1..]), l);
    }
  }

  /**
   Stale handles stay stale: a handle that is current in `s` matches its slot again after a run
   exactly when the slot was cleared a multiple of 2^32 - 1 times. After any other number of clears
   it does not resolve, however often the slot is reused.
   */
  lemma StaleHandlesStayStale(s: State, ops: seq<Op>, c: nat, i: nat)
    requires Inv(s) && AllowedRun(s, ops) && InRange(s.cnodes, Loc(c, i))
    ensures var g, s', n := SlotAt(s.cnodes, Loc(c, i)).gen, Run(s, ops), Clears(s, ops, Loc(c, i));
            && InRange(s'.cnodes, Loc(c, i))
            && SlotAt(s'.cnodes, Loc(c, i)).gen == Advance(g, n)
            && (SlotAt(s'.cnodes, Loc(c, i)).gen == g <==> n % GEN_PERIOD == 0)
            && (n % GEN_PERIOD != 0 ==> Resolve(s', c, i, g).status in {ErrNoEnt, ErrStale})
  {
    var l := Loc(c, i);
    RunIsEffects(s, ops);
    RunClears(s, ops, l);
    var g, n := SlotAt(s.cnodes, l).gen, Clears(s, ops, l);
    EffectsGen(s, RunEffects(s, ops), l, Run(s, ops), n);
    CycleLength(g, n);
    if n % GEN_PERIOD != 0 {
      OldGenFails(Run(s, ops), c, i, g);
    }
  }

  lemma OldGenFails(s: State, c: nat, i: nat, g: nat)
    requires Shaped(s) && InRange(s.cnodes, Loc(c, i)) && g > 0 && SlotAt(s.cnodes, Loc(c, i)).gen != g
    ensures Resolve(s, c, i, g).status in {ErrNoEnt, ErrStale}
  {
  }

  // ---- A handle that comes back.

  /** One CNode whose second slot is free with generation `g`, and one live object. */
  ghost function Bare(g: nat): State {
    State([CNode([FREE_SLOT, FREE_SLOT.(gen := g)], None, false)], [FreshObj()], [[]], 0, 0, [], [], [])
  }

  /** The same with a capability to the object in that slot. */
  ghost function Holding(g: nat): State {
    State([CNode([FREE_SLOT, Slot(1, {RIGHT_DESTROY}, g, 1, Some(0))], None, false)],
          [FreshObj().(slotsLeft := 1)], [[]], 0, 0, [], [], [])
  }

  lemma SecondSlot(first: Slot, was: Slot, slot: Slot)
    ensures SetSlot([CNode([first, was], None, false)], Loc(0, 1), slot) == [CNode([first, slot], None, false)]
  {
    assert [first, was][1 := slot] == [first, slot];
  }

  lemma BareIsInitial(g: nat)
    requires 0 < g < U32_LIMIT
    ensures Initial(Bare(g)) && Inv(Bare(g))
  {
    var s := Bare(g);
    assert forall l :: InRange(s.cnodes, l) ==> SlotAt(s.cnodes, l).typ == CAP_INVALID;
    InitialInv(s);
  }

  lemma BareAllocs(g: nat)
    requires 0 < g < U32_LIMIT
    ensures Shaped(Bare(g)) && AllocInstall(Bare(g), 0, 1, {RIGHT_DESTROY}, 0).state == Holding(g)
  {
    BareIsInitial(g);
    assert FirstFree(Bare(g).cnodes[0].slots, 1) == 1;
    SecondSlot(FREE_SLOT, FREE_SLOT.(gen := g), Slot(1, {RIGHT_DESTROY}, g, 1, Some(0)));
  }

  lemma BareInstalls(g: nat)
    requires 0 < g < U32_LIMIT
    ensures Inv(Bare(g)) && Inv(Holding(g)) && Step(Bare(g), OpAlloc(0, 1, {RIGHT_DESTROY}, 0)) == Holding(g)
  {
    BareIsInitial(g);
    BareAllocs(g);
    StepKeepsInv(Bare(g), OpAlloc(0, 1, {RIGHT_DESTROY}, 0));
  }

  lemma HoldingDeletes(g: nat)
    requires 0 < g < U32_LIMIT && Inv(Holding(g))
    ensures Resolve(Holding(g), 0, 1, g).status == Ok
    ensures Step(Holding(g), OpDelete(0, 1, g)) == Bare(NextGen(g))
  {
    var s := Holding(g);
    SecondSlot(FREE_SLOT, Slot(1, {RIGHT_DESTROY}, g, 1, Some(0)), FREE_SLOT.(gen := NextGen(g)));
  }

  /** Delete the capability and install it again, `n` times. */
  ghost function Reuses(g: nat, n: nat): seq<Op>
    decreases n
  {
    if n == 0 then []
    else [OpDelete(0, 1, g), OpAlloc(0, 1, {RIGHT_DESTROY}, 0)] + Reuses(NextGen(g), n - 1)
  }

  lemma RunTwo(s: State, a: Op, b: Op, rest: seq<Op>)
    requires Inv(s) && Allowed(s, a) && Inv(Step(s, a)) && Allowed(Step(s, a), b) && Inv(Step(Step(s, a), b))
    requires AllowedRun(Step(Step(s, a), b), rest)
    ensures AllowedRun(s, [a, b] + rest) && Run(s, [a, b] + rest) == Run(Step(Step(s, a), b), rest)
  {
    var ops := [a, b] + rest;
    assert ops[1..] == [b] + rest && ops[1..][1..] == rest;
    assert AllowedRun(Step(s, a), ops[1..]);
  }

  lemma ReuseOnce(g: nat, s: State, s': State, rest: seq<Op>, ops: seq<Op>)
    requires 0 < g < U32_LIMIT && s == Holding(g) && s' == Holding(NextGen(g)) && Inv(s') && AllowedRun(s', rest)
    requires ops == [OpDelete(0, 1, g), OpAlloc(0, 1, {RIGHT_DESTROY}, 0)] + rest
    ensures Inv(s) && AllowedRun(s, ops) && Run(s, ops) == Run(s', rest)
  {
    BareInstalls(g);
    HoldingDeletes(g);
    BareInstalls(NextGen(g));
    RunTwo(s, OpDelete(0, 1, g), OpAlloc(0, 1, {RIGHT_DESTROY}, 0), rest);
  }

  lemma {:induction false} ReusesAdvance(g: nat, n: nat, s: State, ops: seq<Op>, t: State)
    requires 0 < g < U32_LIMIT && s == Holding(g) && ops == Reuses(g, n) && t == Holding(Advance(g, n))
    ensures Inv(s) && AllowedRun(s, ops) && Run(s, ops) == t
    decreases n
  {
    if n == 0 {
      BareInstalls(g);
    } else {
      var s', rest := Holding(NextGen(g)), Reuses(NextGen(g), n - 1);
      ReusesAdvance(NextGen(g), n - 1, s', rest, t);
      ReuseOnce(g, s, s', rest, ops);
    }
  }

  /** After 2^32 - 1 reuses of the slot, the handle that was deleted first resolves again. */
  lemma OldHandleReturns()
    ensures Inv(Holding(1)) && AllowedRun(Holding(1), Reuses(1, GEN_PERIOD)) && Reuses(1, GEN_PERIOD) != []
    ensures Reuses(1, GEN_PERIOD)[0] == OpDelete(0, 1, 1)
    ensures Resolve(Run(Holding(1), Reuses(1, GEN_PERIOD)), 0, 1, 1).status == Ok
  {
    ReusesAdvance(1, GEN_PERIOD, Holding(1), Reuses(1, GEN_PERIOD), Holding(Advance(1, GEN_PERIOD)));
    CycleLength(1, GEN_PERIOD);
    HoldingDeletes(1);
  }

  /** Only the two invalidation paths can empty the root slot of a CNode. */
  lemma RootSlotPinned(s: State, op: Op, c: nat)
    requires Inv(s) && Allowed(s, op) && !op.OpInvalidate? && !op.OpWalk? && Occupied(s.cnodes, Loc(c, SLOT_ROOT_META))
    ensures Occupied(Step(s, op).cnodes, Loc(c, SLOT_ROOT_META))
  {
    var l := Loc(c, SLOT_ROOT_META);
    match op
    case OpAlloc(d, typ, rights, o) => AllocClears(s, d, typ, rights, o, l);
    case OpMint(d, i, g, rights, dst) => MintClears(s, d, i, g, rights, dst, l);
    case OpCopy(d, i, g, rights) => CopyClears(s, d, i, g, rights, l);
    case OpMove(d, i, g) => MovePins(s, d, i, g, l);
    case OpDelete(d, i, g) => DeletePins(s, d, i, g, l);
    case OpInstall(d, i, typ, rights, o) => InstallPins(s, d, i, typ, rights, o, l);
    case _ => OtherPins(s, op, l);
  }

  lemma DeletePins(s: State, c: nat, i: nat, g: nat, l: Loc)
    requires Inv(s) && Occupied(s.cnodes, l) && l.slot == SLOT_ROOT_META
    ensures Occupied(Delete(s, c, i, g).state.cnodes, l)
  {
    DeleteAtomic(s, c, i, g);
  }

  lemma InstallPins(s: State, c: nat, i: nat, typ: nat, rights: Rights, o: nat, l: Loc)
    requires Inv(s) && Occupied(s.cnodes, l)
    ensures Occupied(Install(s, c, i, typ, rights, o).state.cnodes, l)
  {
  }

  lemma OtherPins(s: State, op: Op, l: Loc)
    requires Inv(s) && Allowed(s, op) && OffSlots(op) && Occupied(s.cnodes, l)
    ensures Occupied(Step(s, op).cnodes, l)
  {
    OffSlotsKeepSlots(s, op);
  }

  lemma MovePins(s: State, c: nat, i: nat, g: nat, l: Loc)
    requires Inv(s) && Occupied(s.cnodes, l) && l.slot == SLOT_ROOT_META
    ensures Occupied(Move(s, c, i, g).state.cnodes, l)
  {
    MoveAtomic(s, c, i, g);
    var v := Resolve(s, c, i, g);
    AllocClears(s, c, v.typ, v.rights, v.obj, l);
  }
}
