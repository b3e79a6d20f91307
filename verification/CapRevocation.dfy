/** Revocation is immediate and permanent: a dead object is never usable again. */
module CapRevocation {
  import opened Words
  import opened EdgePool
  import opened CapState
  import opened CapOps
  import opened CapInvariant
  import opened CapRuns

  // ---- Dead objects.

  ghost predicate Gone(s: State, o: nat) {
    o < |s.objs| && !s.objs[o].life.Live?
  }

  ghost predicate RecyclesNo(ops: seq<Op>, o: nat) {
    forall k :: 0 <= k < |ops| ==> !(ops[k].OpRecycle? && ops[k].o == o)
  }

  /** Handle (`c`, `i`, `g`) gives no access to `o`, and nothing can be made from it. */
  ghost predicate Unusable(s: State, o: nat, c: nat, i: nat, g: nat)
    requires Shaped(s)
  {
    && (Resolve(s, c, i, g).status == Ok ==> Resolve(s, c, i, g).obj != o)
    && (forall typ :: InstallStatus(s, c, i, typ, o) != Ok)
    && (forall typ, rights :: AllocInstall(s, c, typ, rights, o).status != Ok)
    && (Names(s.cnodes, Loc(c, i), o) ==>
          && (forall rights, dst :: Mint(s, c, i, g, rights, dst).status != Ok)
          && (forall rights :: Copy(s, c, i, g, rights).status != Ok)
          && Move(s, c, i, g).status != Ok
          && Delete(s, c, i, g).status != Ok)
  }

  /** Once revoke has won, the object is unusable, although its slots are still in place. */
  lemma GoneIsUnusable(s: State, o: nat, c: nat, i: nat, g: nat)
    requires Inv(s) && Gone(s, o)
    ensures Unusable(s, o, c, i, g)
  {
  }

  /**
   In every reachable state a handle resolves exactly when its slot is occupied with that generation and
   the object is live: the generation captured at install never refuses a live object.
   */
  lemma ResolvesIff(s: State, c: nat, i: nat, g: nat)
    requires Inv(s)
    ensures Resolve(s, c, i, g).status == Ok <==>
            && Occupied(s.cnodes, Loc(c, i)) && SlotAt(s.cnodes, Loc(c, i)).gen == g
            && s.objs[SlotAt(s.cnodes, Loc(c, i)).obj.value].life.Live?
  {
    var l := Loc(c, i);
    if Occupied(s.cnodes, l) {
      assert Names(s.cnodes, l, SlotAt(s.cnodes, l).obj.value);
    }
  }

  /** Winning the revoke race is enough, and it clears no slot. */
  lemma RevokeTakesEffectAtOnce(s: State, o: nat)
    requires Inv(s) && o < |s.objs|
    ensures Gone(Step(s, OpSeize(o)), o)
    ensures Step(s, OpSeize(o)).cnodes == s.cnodes && Step(s, OpBury(o)).cnodes == s.cnodes
  {
  }

  /** Still gone, and named by no new slot. */
  ghost predicate StillGone(s: State, t: State, o: nat) {
    Gone(t, o) && NamedSet(t.cnodes, o) <= NamedSet(s.cnodes, o)
  }

  lemma FillKeepsGone(s: State, l: Loc, typ: nat, rights: Rights, x: nat, o: nat)
    requires Inv(s) && Gone(s, o) && InstallStatus(s, l.cnode, l.slot, typ, x) == Ok
    ensures StillGone(s, Place(s, l, typ, rights, x), o)
  {
    NamedSetUpdate(s.cnodes, l, SlotAt(Place(s, l, typ, rights, x).cnodes, l), o);
  }

  lemma VacateKeepsGone(s: State, l: Loc, o: nat)
    requires Inv(s) && Gone(s, o) && Occupied(s.cnodes, l)
    ensures StillGone(s, Drop(s, l), o)
  {
    NamedSetUpdate(s.cnodes, l, SlotAt(Drop(s, l).cnodes, l), o);
  }

  lemma EffectKeepsGone(s: State, e: Effect, o: nat)
    requires Inv(s) && Enabled(s, e) && Gone(s, o) && !(e.Recycle? && e.o == o)
    ensures StillGone(s, Apply(s, e), o)
  {
    match e
    case Fill(l, typ, rights, x, src) => FillKeepsGone(s, l, typ, rights, x, o);
    case Vacate(l) => VacateKeepsGone(s, l, o);
    case SetLock(c, locked) => SameSlots(s.cnodes, Apply(s, e).cnodes, o);
    case Attach(c, account) => SameSlots(s.cnodes, Apply(s, e).cnodes, o);
    case _ =>
  }

  ghost predicate NoRecycle(es: seq<Effect>, o: nat) {
    forall k :: 0 <= k < |es| ==> !(es[k].Recycle? && es[k].o == o)
  }

  lemma {:induction false} EffectsKeepGone(s: State, es: seq<Effect>, o: nat)
    requires Inv(s) && CanApply(s, es) && Gone(s, o) && NoRecycle(es, o)
    ensures StillGone(s, ApplyAll(s, es), o)
    decreases |es|
  {
    if es == [] {
    } else {
      EffectKeepsGone(s, es[0], o);
      ApplyAllStep(s, es);
      EffectsKeepGone(Apply(s, es[0]), es[1..], o);
    }
  }

  lemma {:induction false} RunNoRecycle(s: State, ops: seq<Op>, o: nat)
    requires Inv(s) && AllowedRun(s, ops) && RecyclesNo(ops, o)
    ensures NoRecycle(RunEffects(s, ops), o)
    decreases |ops|
  {
    if ops == [] {
    } else {
      StepNoRecycle(s, ops[0], o);
      StepKeepsInv(s, ops[0]);
      RunNoRecycle(Step(s, ops[0]), ops[1..], o);
    }
  }

  lemma MintCopyNoRecycle(s: State, op: Op, o: nat)
    requires Inv(s) && (op.OpMint? || op.OpCopy?)
    ensures NoRecycle(EffectsOf(s, op), o)
  {
  }

  lemma MoveNoRecycle(s: State, op: Op, o: nat)
    requires Inv(s) && op.OpMove?
    ensures NoRecycle(EffectsOf(s, op), o)
  {
    MoveEffectsNoRecycle(s, op.c, op.i, op.g, o);
  }

  lemma MoveEffectsNoRecycle(s: State, c: nat, i: nat, g: nat, o: nat)
    requires Inv(s)
    ensures NoRecycle(MoveEffects(s, c, i, g), o)
  {
    var r, v := Move(s, c, i, g), Resolve(s, c, i, g);
    if r.status == Ok {
      var src, l := Loc(c, i), Loc(c, r.ref.value.slot);
      MovePartsNoRecycle(MoveEffects(s, c, i, g), [Fill(l, v.typ, v.rights, v.obj, Some(src)), Vacate(src)],
                         Drop(s, src), v.obj, l, o);
    }
  }

  lemma MovePartsNoRecycle(all: seq<Effect>, es: seq<Effect>, t: State, x: nat, l: Loc, o: nat)
    requires all == es + WireEffects(t, x, l) && forall k :: 0 <= k < |es| ==> !es[k].Recycle?
    ensures NoRecycle(all, o)
  {
  }

  lemma OtherNoRecycle(s: State, op: Op, o: nat)
    requires Inv(s) && !op.OpMint? && !op.OpCopy? && !op.OpMove? && !(op.OpRecycle? && op.o == o)
    ensures NoRecycle(EffectsOf(s, op), o)
  {
  }

  lemma StepNoRecycle(s: State, op: Op, o: nat)
    requires Inv(s) && !(op.OpRecycle? && op.o == o)
    ensures NoRecycle(EffectsOf(s, op), o)
  {
    if op.OpMint? || op.OpCopy? {
      MintCopyNoRecycle(s, op, o);
    } else if op.OpMove? {
      MoveNoRecycle(s, op, o);
    } else {
      OtherNoRecycle(s, op, o);
    }
  }

  /**
   Revocation is permanent: however the run continues, short of freeing and reusing the header,
   the object stays unusable and the slots naming it only shrink.
   */
  lemma RevocationIsPermanent(s: State, ops: seq<Op>, o: nat, c: nat, i: nat, g: nat)
    requires Inv(s) && Gone(s, o) && AllowedRun(s, ops) && RecyclesNo(ops, o)
    ensures var s' := Run(s, ops);
            && Gone(s', o)
            && NamedSet(s'.cnodes, o) <= NamedSet(s.cnodes, o)
            && Unusable(s', o, c, i, g)
  {
    RunIsEffects(s, ops);
    RunNoRecycle(s, ops, o);
    EffectsKeepGone(s, RunEffects(s, ops), o);
    GoneIsUnusable(Run(s, ops), o, c, i, g);
  }

  /** Only the two invalidation paths clear a slot of a dead object. */
  lemma OnlyInvalidationClears(s: State, op: Op, o: nat)
    requires Inv(s) && Allowed(s, op) && Gone(s, o) && !op.OpInvalidate? && !op.OpWalk?
    ensures NamedSet(Step(s, op).cnodes, o) == NamedSet(s.cnodes, o)
  {
    if op.OpInstall? || op.OpAlloc? || op.OpMint? || op.OpCopy? || op.OpMove? || op.OpDelete? {
      SlotOpNamed(s, op, o);
    } else {
      OtherNamed(s, op, o);
    }
  }

  lemma OtherNamed(s: State, op: Op, o: nat)
    requires Inv(s) && Allowed(s, op) && OffSlots(op)
    ensures NamedSet(Step(s, op).cnodes, o) == NamedSet(s.cnodes, o)
  {
    OffSlotsKeepSlots(s, op);
    SameSlots(s.cnodes, Step(s, op).cnodes, o);
  }

  lemma SlotOpNamed(s: State, op: Op, o: nat)
    requires Inv(s) && Allowed(s, op) && Gone(s, o)
    requires op.OpInstall? || op.OpAlloc? || op.OpMint? || op.OpCopy? || op.OpMove? || op.OpDelete?
    ensures NamedSet(Step(s, op).cnodes, o) == NamedSet(s.cnodes, o)
  {
    match op
    case OpInstall(c, i, typ, rights, x) => FilledNamed(s, Install(s, c, i, typ, rights, x), c, typ, rights, x, o);
    case OpAlloc(c, typ, rights, x) => AllocNamed(s, c, typ, rights, x, o);
    case OpMint(c, i, g, rights, dst) => MintNamed(s, c, i, g, rights, dst, o);
    case OpCopy(c, i, g, rights) => CopyNamed(s, c, i, g, rights, o);
    case OpMove(c, i, g) => MoveNamed(s, c, i, g, o);
    case OpDelete(c, i, g) => DeleteNamed(s, c, i, g, o);
  }

  lemma DeleteNamed(s: State, c: nat, i: nat, g: nat, o: nat)
    requires Inv(s) && Gone(s, o)
    ensures NamedSet(Delete(s, c, i, g).state.cnodes, o) == NamedSet(s.cnodes, o)
  {
    if Delete(s, c, i, g).status == Ok {
      DroppedNamed(s, Loc(c, i), o);
    }
  }

  lemma MintNamed(s: State, c: nat, i: nat, g: nat, rights: Rights, dst: Option<nat>, o: nat)
    requires Inv(s) && Gone(s, o)
    ensures NamedSet(Mint(s, c, i, g, rights, dst).state.cnodes, o) == NamedSet(s.cnodes, o)
  {
    MintAtomic(s, c, i, g, rights, dst);
    var v := Resolve(s, c, i, g);
    AllocNamed(s, MintTarget(c, dst), v.typ, v.rights * rights, v.obj, o);
  }

  lemma CopyNamed(s: State, c: nat, i: nat, g: nat, rights: Rights, o: nat)
    requires Inv(s) && Gone(s, o)
    ensures NamedSet(Copy(s, c, i, g, rights).state.cnodes, o) == NamedSet(s.cnodes, o)
  {
    CopyAtomic(s, c, i, g, rights);
    var v := Resolve(s, c, i, g);
    AllocNamed(s, c, v.typ, v.rights * CopyMask(v.rights, rights), v.obj, o);
  }

  lemma MoveNamed(s: State, c: nat, i: nat, g: nat, o: nat)
    requires Inv(s) && Gone(s, o)
    ensures NamedSet(Move(s, c, i, g).state.cnodes, o) == NamedSet(s.cnodes, o)
  {
    MoveAtomic(s, c, i, g);
    if Move(s, c, i, g).status == Ok {
      var v := Resolve(s, c, i, g);
      AllocNamed(s, c, v.typ, v.rights, v.obj, o);
      var a := AllocInstall(s, c, v.typ, v.rights, v.obj);
      AllocIsFill(s, c, v.typ, v.rights, v.obj);
      assert !Names(a.state.cnodes, Loc(c, i), o);
      DroppedNamed(a.state, Loc(c, i), o);
    }
  }

  lemma FilledNamed(s: State, r: Outcome, c: nat, typ: nat, rights: Rights, x: nat, o: nat)
    requires Inv(s) && Gone(s, o)
    requires r.status != Ok ==> r.state == s
    requires r.status == Ok ==> r.ref.Some? && InstallStatus(s, c, r.ref.value.slot, typ, x) == Ok &&
                                r.state == Place(s, Loc(c, r.ref.value.slot), typ, rights, x)
    ensures NamedSet(r.state.cnodes, o) == NamedSet(s.cnodes, o)
  {
    if r.status == Ok {
      var l := Loc(c, r.ref.value.slot);
      NamedSetUpdate(s.cnodes, l, SlotAt(r.state.cnodes, l), o);
      assert l !in NamedSet(s.cnodes, o);
    }
  }

  lemma AllocNamed(s: State, c: nat, typ: nat, rights: Rights, x: nat, o: nat)
    requires Inv(s) && Gone(s, o)
    ensures NamedSet(AllocInstall(s, c, typ, rights, x).state.cnodes, o) == NamedSet(s.cnodes, o)
  {
    AllocAtomic(s, c, typ, rights, x);
    if AllocInstall(s, c, typ, rights, x).status == Ok {
      AllocIsFill(s, c, typ, rights, x);
    }
    FilledNamed(s, AllocInstall(s, c, typ, rights, x), c, typ, rights, x, o);
  }

  lemma DroppedNamed(s: State, l: Loc, o: nat)
    requires Shaped(s) && Occupied(s.cnodes, l) && !Names(s.cnodes, l, o)
    ensures NamedSet(Drop(s, l).cnodes, o) == NamedSet(s.cnodes, o)
  {
    NamedSetUpdate(s.cnodes, l, SlotAt(Drop(s, l).cnodes, l), o);
  }
}
