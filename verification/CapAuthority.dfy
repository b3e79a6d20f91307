/**
 Authority over whole runs: rights never grow, an object without MINT stays in the CNodes that
 already name it, and the root capability stays in its slot.
 */
module CapAuthority {
  import opened Words
  import opened EdgePool
  import opened CapState
  import opened CapOps
  import opened CapInvariant
  import opened CapRuns

  /** Some slot for `o` holds right `r`. */
  ghost predicate Held(cn: seq<CNode>, o: nat, r: nat) {
    exists l :: Names(cn, l, o) && r in SlotAt(cn, l).rights
  }

  /** The CNodes that name `o`. */
  ghost function Holders(cn: seq<CNode>, o: nat): set<nat> {
    set l | l in NamedSet(cn, o) :: l.cnode
  }

  /** The kernel installs no fresh capability for `o`. */
  ghost predicate DerivesOnly(es: seq<Effect>, o: nat) {
    forall k :: 0 <= k < |es| && es[k].Fill? && es[k].o == o ==> es[k].src.Some?
  }

  ghost predicate InstallsNo(ops: seq<Op>, o: nat) {
    forall k :: 0 <= k < |ops| ==> !((ops[k].OpInstall? || ops[k].OpAlloc?) && ops[k].o == o)
  }

  /** How the slots naming `o` may have changed: rights only from rights, CNodes only through MINT,
      slots only through MINT or GRANT. */
  ghost predicate Confined(cn: seq<CNode>, cn': seq<CNode>, o: nat) {
    && (forall r :: Held(cn', o, r) ==> Held(cn, o, r))
    && (!Held(cn, o, RIGHT_MINT) ==> Holders(cn', o) <= Holders(cn, o))
    && (!Held(cn, o, RIGHT_MINT) && !Held(cn, o, RIGHT_GRANT) ==> NamedSet(cn', o) <= NamedSet(cn, o))
  }

  lemma ConfinedTransitive(a: seq<CNode>, b: seq<CNode>, c: seq<CNode>, o: nat)
    requires Confined(a, b, o) && Confined(b, c, o)
    ensures Confined(a, c, o)
  {
  }

  /** Slots for `o` that were all there before, with the same rights, confine it. */
  lemma SubsetConfined(cn: seq<CNode>, cn': seq<CNode>, o: nat)
    requires forall l :: Names(cn', l, o) ==> Names(cn, l, o) && SlotAt(cn', l).rights == SlotAt(cn, l).rights
    ensures Confined(cn, cn', o)
  {
    assert NamedSet(cn', o) <= NamedSet(cn, o);
  }

  lemma DerivedConfined(cn: seq<CNode>, src: Loc, l: Loc, slot: Slot, o: nat)
    requires InRange(cn, l) && Derivable(cn, src, l, slot.typ, slot.rights, o) && slot.obj == Some(o)
    ensures Confined(cn, SetSlot(cn, l, slot), o)
  {
    var cn' := SetSlot(cn, l, slot);
    forall r | Held(cn', o, r)
      ensures Held(cn, o, r)
    {
      var m :| Names(cn', m, o) && r in SlotAt(cn', m).rights;
      assert Names(cn, if m == l then src else m, o);
    }
    NamedSetUpdate(cn, l, slot, o);
    assert NamedSet(cn', o) <= NamedSet(cn, o) + {l};
    if !Held(cn, o, RIGHT_MINT) {
      assert src in NamedSet(cn, o) && src.cnode == l.cnode;
    }
  }

  lemma EffectConfined(s: State, e: Effect, o: nat)
    requires Inv(s) && Enabled(s, e) && DerivesOnly([e], o)
    ensures Confined(s.cnodes, Apply(s, e).cnodes, o)
  {
    var cn' := Apply(s, e).cnodes;
    assert [e][0] == e;
    if e.Fill? && e.o == o {
      DerivedConfined(s.cnodes, e.src.value, e.l, SlotAt(cn', e.l), o);
    } else {
      SubsetConfined(s.cnodes, cn', o);
    }
  }

  lemma {:induction false} EffectsConfined(s: State, es: seq<Effect>, o: nat)
    requires Inv(s) && CanApply(s, es) && DerivesOnly(es, o)
    ensures Confined(s.cnodes, ApplyAll(s, es).cnodes, o)
    decreases |es|
  {
    if es == [] {
      SubsetConfined(s.cnodes, s.cnodes, o);
    } else {
      EffectConfined(s, es[0], o);
      ApplyAllStep(s, es);
      EffectsConfined(Apply(s, es[0]), es[1..], o);
      ConfinedTransitive(s.cnodes, Apply(s, es[0]).cnodes, ApplyAll(s, es).cnodes, o);
    }
  }

  lemma {:induction false} RunDerivesOnly(s: State, ops: seq<Op>, o: nat)
    requires Inv(s) && AllowedRun(s, ops) && InstallsNo(ops, o)
    ensures DerivesOnly(RunEffects(s, ops), o)
    decreases |ops|
  {
    if ops == [] {
    } else {
      StepDerivesOnly(s, ops[0], o);
      StepKeepsInv(s, ops[0]);
      RunDerivesOnly(Step(s, ops[0]), ops[1..], o);
    }
  }

  lemma DeriveEffectsOnly(s: State, src: Loc, r: Outcome, c: nat, typ: nat, rights: Rights, x: nat, o: nat)
    ensures DerivesOnly(DeriveEffects(s, src, r, c, typ, rights, x), o)
  {
  }

  lemma MoveDerivesOnly(s: State, c: nat, i: nat, g: nat, o: nat)
    requires Inv(s)
    ensures DerivesOnly(MoveEffects(s, c, i, g), o)
  {
    var r, v := Move(s, c, i, g), Resolve(s, c, i, g);
    if r.status == Ok {
      var l := Loc(c, r.ref.value.slot);
      MovePartsDeriveOnly(Drop(s, Loc(c, i)), l, v.typ, v.rights, v.obj, Loc(c, i), o);
    }
  }

  lemma MovePartsDeriveOnly(t: State, l: Loc, typ: nat, rights: Rights, x: nat, src: Loc, o: nat)
    ensures DerivesOnly([Fill(l, typ, rights, x, Some(src)), Vacate(src)] + WireEffects(t, x, l), o)
  {
  }

  lemma StepDerivesOnly(s: State, op: Op, o: nat)
    requires Inv(s) && InstallsNo([op], o)
    ensures DerivesOnly(EffectsOf(s, op), o)
  {
    assert [op][0] == op;
    match op
    case OpMint(c, i, g, rights, dst) =>
      var v := Resolve(s, c, i, g);
      DeriveEffectsOnly(s, Loc(c, i), Mint(s, c, i, g, rights, dst), MintTarget(c, dst), v.typ, v.rights * rights,
                        v.obj, o);
    case OpCopy(c, i, g, rights) =>
      var v := Resolve(s, c, i, g);
      DeriveEffectsOnly(s, Loc(c, i), Copy(s, c, i, g, rights), c, v.typ, v.rights * CopyMask(v.rights, rights),
                        v.obj, o);
    case OpMove(c, i, g) => MoveDerivesOnly(s, c, i, g, o);
    case _ => OtherDerivesOnly(s, op, o);
  }

  lemma OtherDerivesOnly(s: State, op: Op, o: nat)
    requires Inv(s) && !op.OpMint? && !op.OpCopy? && !op.OpMove?
    requires !((op.OpInstall? || op.OpAlloc?) && op.o == o)
    ensures DerivesOnly(EffectsOf(s, op), o)
  {
  }

  /**
   Authority confinement. Over any run in which the kernel installs no fresh capability for `o`:
   no slot for `o` ever holds a right that no slot for `o` held at the start; without MINT the set
   of CNodes naming `o` never grows; without MINT and GRANT no new slot ever names `o`.
   */
  lemma AuthorityConfinement(s: State, ops: seq<Op>, o: nat)
    requires Inv(s) && AllowedRun(s, ops) && InstallsNo(ops, o)
    ensures forall r :: Held(Run(s, ops).cnodes, o, r) ==> Held(s.cnodes, o, r)
    ensures !Held(s.cnodes, o, RIGHT_MINT) ==> Holders(Run(s, ops).cnodes, o) <= Holders(s.cnodes, o)
    ensures !Held(s.cnodes, o, RIGHT_MINT) && !Held(s.cnodes, o, RIGHT_GRANT) ==>
              && NamedSet(Run(s, ops).cnodes, o) <= NamedSet(s.cnodes, o)
              && |NamedSet(Run(s, ops).cnodes, o)| <= |NamedSet(s.cnodes, o)|
  {
    RunIsEffects(s, ops);
    RunDerivesOnly(s, ops, o);
    EffectsConfined(s, RunEffects(s, ops), o);
    SubsetCardinality(s.cnodes, Run(s, ops).cnodes, o);
  }

  lemma SubsetCardinality(cn: seq<CNode>, cn': seq<CNode>, o: nat)
    ensures NamedSet(cn', o) <= NamedSet(cn, o) ==> |NamedSet(cn', o)| <= |NamedSet(cn, o)|
  {
    if NamedSet(cn', o) <= NamedSet(cn, o) {
      var extra := NamedSet(cn, o) - NamedSet(cn', o);
      assert NamedSet(cn, o) == NamedSet(cn', o) + extra;
    }
  }

  // ---- The root capability.

  /** Slot 0 holds root meta only, and root meta sits nowhere else. */
  ghost predicate RootAtHome(cn: seq<CNode>) {
    forall l :: Occupied(cn, l) ==> (SlotAt(cn, l).typ == CAP_ROOT_META <==> l.slot == SLOT_ROOT_META)
  }

  lemma EffectKeepsRoot(s: State, e: Effect)
    requires Inv(s) && Enabled(s, e) && RootAtHome(s.cnodes)
    ensures RootAtHome(Apply(s, e).cnodes)
  {
    var cn' := Apply(s, e).cnodes;
    forall l | Occupied(cn', l)
      ensures SlotAt(cn', l).typ == CAP_ROOT_META <==> l.slot == SLOT_ROOT_META
    {
      if !(e.Fill? && e.l == l) {
        assert Occupied(s.cnodes, l);
      }
    }
  }

  lemma {:induction false} EffectsKeepRoot(s: State, es: seq<Effect>)
    requires Inv(s) && CanApply(s, es) && RootAtHome(s.cnodes)
    ensures RootAtHome(ApplyAll(s, es).cnodes)
    decreases |es|
  {
    if es == [] {
    } else {
      EffectKeepsRoot(s, es[0]);
      ApplyAllStep(s, es);
      EffectsKeepRoot(Apply(s, es[0]), es[1..]);
    }
  }

  /** Over any run the root capability stays in slot 0, and nothing else gets there. */
  lemma RootStaysHome(s: State, ops: seq<Op>)
    requires Inv(s) && AllowedRun(s, ops) && RootAtHome(s.cnodes)
    ensures RootAtHome(Run(s, ops).cnodes)
  {
    RunIsEffects(s, ops);
    EffectsKeepRoot(s, RunEffects(s, ops));
  }
}
