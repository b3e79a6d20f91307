/**
 Runs: arbitrary sequences of public operations. Every operation is a sequence of atomic
 effects, so a run is one too, and what every effect keeps holds in every reachable state.
 */
module CapRuns {
  import opened Words
  import opened EdgePool
  import opened QuotaLedger
  import opened CapState
  import opened CapOps
  import opened CapInvariant

  // ---- Sequences of effects.

  ghost predicate CanApply(s: State, es: seq<Effect>)
    requires Inv(s)
    decreases |es|
  {
    es == [] ||
    (Enabled(s, es[0]) && (ApplyKeepsInv(s, es[0]); CanApply(Apply(s, es[0]), es[1..])))
  }

  ghost function ApplyAll(s: State, es: seq<Effect>): (r: State)
    requires Inv(s) && CanApply(s, es)
    ensures Inv(r)
    decreases |es|
  {
    if es == [] then s else (ApplyKeepsInv(s, es[0]); ApplyAll(Apply(s, es[0]), es[1..]))
  }

  /** One step of a sequence of effects. */
  lemma ApplyAllStep(s: State, es: seq<Effect>)
    requires Inv(s) && CanApply(s, es) && es != []
    ensures Enabled(s, es[0]) && Inv(Apply(s, es[0])) && CanApply(Apply(s, es[0]), es[1..])
    ensures ApplyAll(s, es) == ApplyAll(Apply(s, es[0]), es[1..])
  {
    ApplyKeepsInv(s, es[0]);
  }

  lemma AfterFirst(s: State, es: seq<Effect>) returns (t: State)
    requires Inv(s) && CanApply(s, es) && es != []
    ensures Enabled(s, es[0]) && t == Apply(s, es[0]) && Inv(t)
    ensures CanApply(t, es[1..]) && ApplyAll(s, es) == ApplyAll(t, es[1..])
  {
    t := Apply(s, es[0]);
    ApplyAllStep(s, es);
  }

  lemma BeforeFirst(s: State, e: Effect, t: State, rest: seq<Effect>, all: seq<Effect>)
    requires Inv(s) && Enabled(s, e) && t == Apply(s, e) && Inv(t) && CanApply(t, rest) && all == [e] + rest
    ensures CanApply(s, all) && ApplyAll(s, all) == ApplyAll(t, rest)
  {
    assert all[0] == e && all[1..] == rest;
  }

  lemma ConsConcat<T>(a: seq<T>, b: seq<T>)
    requires a != []
    ensures a + b == [a[0]] + (a[1..] + b)
  {
  }

  lemma {:induction false} ApplyConcat(s: State, es: seq<Effect>, fs: seq<Effect>, all: seq<Effect>, mid: State,
                                       end: State)
    requires Inv(s) && CanApply(s, es) && mid == ApplyAll(s, es) && CanApply(mid, fs) && end == ApplyAll(mid, fs)
    requires all == es + fs
    ensures CanApply(s, all) && ApplyAll(s, all) == end
    decreases |es|
  {
    if es == [] {
      assert all == fs;
    } else {
      var t := AfterFirst(s, es);
      ApplyConcat(t, es[1..], fs, es[1..] + fs, mid, end);
      ConsConcat(es, fs);
      BeforeFirst(s, es[0], t, es[1..] + fs, all);
    }
  }

  lemma ApplyAllConcat(s: State, es: seq<Effect>, fs: seq<Effect>)
    requires Inv(s) && CanApply(s, es) && CanApply(ApplyAll(s, es), fs)
    ensures CanApply(s, es + fs) && ApplyAll(s, es + fs) == ApplyAll(ApplyAll(s, es), fs)
  {
    ApplyConcat(s, es, fs, es + fs, ApplyAll(s, es), ApplyAll(ApplyAll(s, es), fs));
  }

  // ---- Operations.

  datatype Op =
    | OpInstall(c: nat, i: nat, typ: nat, rights: Rights, o: nat)
    | OpAlloc(c: nat, typ: nat, rights: Rights, o: nat)
    | OpMint(c: nat, i: nat, g: nat, rights: Rights, dst: Option<nat>)
    | OpCopy(c: nat, i: nat, g: nat, rights: Rights)
    | OpMove(c: nat, i: nat, g: nat)
    | OpDelete(c: nat, i: nat, g: nat)
    | OpInvalidate(c: nat, o: nat, max: nat)
    | OpWalk(o: nat, max: nat, held: seq<set<nat>>)
    | OpSeize(o: nat)
    | OpBury(o: nat)
    | OpRecycle(o: nat, refs: nat, pins: nat)
    | OpTryLock(c: nat)
    | OpUnlock(c: nat)
    | OpAttach(c: nat, account: Option<nat>)
    | OpAdopt(q: nat, p: Option<nat>)

  /** What the caller of the accounting set-up owes: attaching and re-parenting leave every CNode in
      use charged to the same accounts. */
  ghost predicate Allowed(s: State, op: Op)
    requires Shaped(s)
  {
    match op
    case OpAttach(c, account) => Enabled(s, Attach(c, account))
    case OpAdopt(q, p) => Enabled(s, Adopt(q, p))
    case _ => true
  }

  ghost function WireEffects(s: State, o: nat, l: Loc): seq<Effect> {
    if s.poolUsed < s.poolSize then [Link(o, l)] else []
  }

  ghost function Vacates(ls: seq<Loc>): seq<Effect> {
    seq(|ls|, k requires 0 <= k < |ls| => Vacate(ls[k]))
  }

  ghost function DeriveEffects(s: State, src: Loc, r: Outcome, c: nat, typ: nat, rights: Rights, o: nat): seq<Effect> {
    if r.status != Ok || r.ref.None? then []
    else
      var l := Loc(c, r.ref.value.slot);
      [Fill(l, typ, rights, o, Some(src))] + WireEffects(s, o, l)
  }

  ghost function MintEffects(s: State, c: nat, i: nat, g: nat, rights: Rights, dst: Option<nat>): seq<Effect>
    requires Inv(s)
  {
    var v := Resolve(s, c, i, g);
    DeriveEffects(s, Loc(c, i), Mint(s, c, i, g, rights, dst), MintTarget(c, dst), v.typ, v.rights * rights, v.obj)
  }

  ghost function CopyEffects(s: State, c: nat, i: nat, g: nat, rights: Rights): seq<Effect>
    requires Inv(s)
  {
    var v := Resolve(s, c, i, g);
    DeriveEffects(s, Loc(c, i), Copy(s, c, i, g, rights), c, v.typ, v.rights * CopyMask(v.rights, rights), v.obj)
  }

  ghost function MoveEffects(s: State, c: nat, i: nat, g: nat): seq<Effect>
    requires Inv(s)
  {
    var v := Resolve(s, c, i, g);
    var r := Move(s, c, i, g);
    if r.status != Ok then []
    else
      var l := Loc(c, r.ref.value.slot);
      [Fill(l, v.typ, v.rights, v.obj, Some(Loc(c, i))), Vacate(Loc(c, i))] +
      WireEffects(Drop(s, Loc(c, i)), v.obj, l)
  }

  /** The atomic effects of one operation. */
  ghost function EffectsOf(s: State, op: Op): seq<Effect>
    requires Inv(s)
  {
    match op
    case OpInstall(c, i, typ, rights, o) =>
      if Install(s, c, i, typ, rights, o).status == Ok then [Fill(Loc(c, i), typ, rights, o, None)] else []
    case OpAlloc(c, typ, rights, o) =>
      var r := AllocInstall(s, c, typ, rights, o);
      if r.status == Ok then [Fill(Loc(c, r.ref.value.slot), typ, rights, o, None)] else []
    case OpMint(c, i, g, rights, dst) => MintEffects(s, c, i, g, rights, dst)
    case OpCopy(c, i, g, rights) => CopyEffects(s, c, i, g, rights)
    case OpMove(c, i, g) => MoveEffects(s, c, i, g)
    case OpDelete(c, i, g) => if Delete(s, c, i, g).status == Ok then [Vacate(Loc(c, i))] else []
    case OpInvalidate(c, o, max) => Vacates(InvalidateTargets(s, c, o, max))
    case OpWalk(o, max, held) => Vacates(WalkTargets(s, o, max, held))
    case OpSeize(o) => if Enabled(s, Seize(o)) then [Seize(o)] else []
    case OpBury(o) => if Enabled(s, Bury(o)) then [Bury(o)] else []
    case OpRecycle(o, refs, pins) => if ReclaimReady(s, o, refs, pins) then [Recycle(o)] else []
    case OpTryLock(c) => if c < |s.cnodes| then [SetLock(c, true)] else []
    case OpUnlock(c) => if c < |s.cnodes| then [SetLock(c, false)] else []
    case OpAttach(c, account) => [Attach(c, account)]
    case OpAdopt(q, p) => [Adopt(q, p)]
  }

  /** The state after one operation. */
  ghost function Step(s: State, op: Op): State
    requires Inv(s) && Allowed(s, op)
  {
    match op
    case OpInstall(c, i, typ, rights, o) => Install(s, c, i, typ, rights, o).state
    case OpAlloc(c, typ, rights, o) => AllocInstall(s, c, typ, rights, o).state
    case OpMint(c, i, g, rights, dst) => Mint(s, c, i, g, rights, dst).state
    case OpCopy(c, i, g, rights) => Copy(s, c, i, g, rights).state
    case OpMove(c, i, g) => Move(s, c, i, g).state
    case OpDelete(c, i, g) => Delete(s, c, i, g).state
    case OpInvalidate(c, o, max) => Invalidate(s, c, o, max)
    case OpWalk(o, max, held) => WalkIndex(s, o, max, held)
    case OpSeize(o) => if Enabled(s, Seize(o)) then Apply(s, Seize(o)) else s
    case OpBury(o) => if Enabled(s, Bury(o)) then Apply(s, Bury(o)) else s
    case OpRecycle(o, refs, pins) => if ReclaimReady(s, o, refs, pins) then Apply(s, Recycle(o)) else s
    case OpTryLock(c) => if c < |s.cnodes| then Apply(s, SetLock(c, true)) else s
    case OpUnlock(c) => if c < |s.cnodes| then Apply(s, SetLock(c, false)) else s
    case OpAttach(c, account) => Apply(s, Attach(c, account))
    case OpAdopt(q, p) => Apply(s, Adopt(q, p))
  }

  /** Operations on lives, locks and accounts. */
  predicate OffSlots(op: Op) {
    op.OpSeize? || op.OpBury? || op.OpRecycle? || op.OpTryLock? || op.OpUnlock? || op.OpAttach? || op.OpAdopt?
  }

  lemma OffSlotsKeepSlots(s: State, op: Op)
    requires Inv(s) && Allowed(s, op) && OffSlots(op)
    ensures var cn := Step(s, op).cnodes;
            |cn| == |s.cnodes| && forall c :: 0 <= c < |cn| ==> cn[c].slots == s.cnodes[c].slots
  {
  }

  // ---- Each operation is its effects.

  lemma One(s: State, e: Effect)
    requires Inv(s) && Enabled(s, e)
    ensures CanApply(s, [e]) && ApplyAll(s, [e]) == Apply(s, e)
  {
    ApplyKeepsInv(s, e);
    assert [e][1..] == [];
  }

  /** A free slot is on no list, so a new edge for it is never a duplicate. */
  lemma FreeSlotUnlisted(s: State, l: Loc, o: nat)
    requires Indexed(s) && !Occupied(s.cnodes, l) && o < |s.chains|
    ensures l !in s.chains[o]
  {
  }

  lemma WireIsEffects(s: State, o: nat, l: Loc)
    requires Inv(s) && o < |s.objs| && Names(s.cnodes, l, o) && l !in s.chains[o]
    ensures CanApply(s, WireEffects(s, o, l)) && ApplyAll(s, WireEffects(s, o, l)) == Wire(s, o, l)
  {
    if s.poolUsed < s.poolSize {
      One(s, Link(o, l));
    }
  }

  lemma AllocIsFill(s: State, c: nat, typ: nat, rights: Rights, o: nat)
    requires Shaped(s) && AllocInstall(s, c, typ, rights, o).status == Ok
    ensures var r := AllocInstall(s, c, typ, rights, o);
            && r.ref.Some?
            && InstallStatus(s, c, r.ref.value.slot, typ, o) == Ok
            && !Occupied(s.cnodes, Loc(c, r.ref.value.slot))
            && r.state == Place(s, Loc(c, r.ref.value.slot), typ, rights, o)
  {
  }

  lemma DeriveIsEffects(s: State, src: Loc, c: nat, typ: nat, rights: Rights, o: nat)
    requires Inv(s) && DeriveInto(s, c, typ, rights, o).status == Ok
    requires forall l: Loc :: l.cnode == c ==> Derivable(s.cnodes, src, l, typ, rights, o)
    ensures var r := DeriveInto(s, c, typ, rights, o);
            var es := DeriveEffects(s, src, r, c, typ, rights, o);
            CanApply(s, es) && ApplyAll(s, es) == r.state
  {
    AllocIsFill(s, c, typ, rights, o);
    var r := AllocInstall(s, c, typ, rights, o);
    var l := Loc(c, r.ref.value.slot);
    var fill := Fill(l, typ, rights, o, Some(src));
    One(s, fill);
    ApplyKeepsInv(s, fill);
    FreeSlotUnlisted(s, l, o);
    WireIsEffects(r.state, o, l);
    ApplyAllConcat(s, [fill], WireEffects(r.state, o, l));
  }

  lemma MintDerivable(s: State, c: nat, i: nat, g: nat, rights: Rights, l: Loc)
    requires Shaped(s) && Resolve(s, c, i, g).status == Ok && RIGHT_MINT in Resolve(s, c, i, g).rights
    ensures var v := Resolve(s, c, i, g);
            Derivable(s.cnodes, Loc(c, i), l, v.typ, v.rights * rights, v.obj)
  {
  }

  lemma CopyDerivable(s: State, c: nat, i: nat, g: nat, rights: Rights, l: Loc)
    requires Shaped(s) && Resolve(s, c, i, g).status == Ok && RIGHT_GRANT in Resolve(s, c, i, g).rights
    requires l.cnode == c
    ensures var v := Resolve(s, c, i, g);
            Derivable(s.cnodes, Loc(c, i), l, v.typ, v.rights * rights, v.obj)
  {
  }

  lemma MintIsEffects(s: State, c: nat, i: nat, g: nat, rights: Rights, dst: Option<nat>)
    requires Inv(s)
    ensures CanApply(s, MintEffects(s, c, i, g, rights, dst))
    ensures ApplyAll(s, MintEffects(s, c, i, g, rights, dst)) == Mint(s, c, i, g, rights, dst).state
  {
    MintAtomic(s, c, i, g, rights, dst);
    var r, v := Mint(s, c, i, g, rights, dst), Resolve(s, c, i, g);
    if r.status == Ok {
      forall l: Loc | l.cnode == MintTarget(c, dst)
        ensures Derivable(s.cnodes, Loc(c, i), l, v.typ, v.rights * rights, v.obj)
      {
        MintDerivable(s, c, i, g, rights, l);
      }
      DeriveIsEffects(s, Loc(c, i), MintTarget(c, dst), v.typ, v.rights * rights, v.obj);
    } else {
      assert MintEffects(s, c, i, g, rights, dst) == [];
    }
  }

  lemma CopyIsEffects(s: State, c: nat, i: nat, g: nat, rights: Rights)
    requires Inv(s)
    ensures CanApply(s, CopyEffects(s, c, i, g, rights))
    ensures ApplyAll(s, CopyEffects(s, c, i, g, rights)) == Copy(s, c, i, g, rights).state
  {
    CopyAtomic(s, c, i, g, rights);
    var r, v := Copy(s, c, i, g, rights), Resolve(s, c, i, g);
    if r.status == Ok {
      var mask := CopyMask(v.rights, rights);
      forall l: Loc | l.cnode == c
        ensures Derivable(s.cnodes, Loc(c, i), l, v.typ, v.rights * mask, v.obj)
      {
        CopyDerivable(s, c, i, g, mask, l);
      }
      DeriveIsEffects(s, Loc(c, i), c, v.typ, v.rights * mask, v.obj);
    } else {
      assert CopyEffects(s, c, i, g, rights) == [];
    }
  }

  lemma MoveIsEffects(s: State, c: nat, i: nat, g: nat)
    requires Inv(s)
    ensures CanApply(s, MoveEffects(s, c, i, g))
    ensures ApplyAll(s, MoveEffects(s, c, i, g)) == Move(s, c, i, g).state
  {
    MoveAtomic(s, c, i, g);
    var r, v := Move(s, c, i, g), Resolve(s, c, i, g);
    if r.status == Ok {
      AllocIsFill(s, c, v.typ, v.rights, v.obj);
      var src, l := Loc(c, i), Loc(c, r.ref.value.slot);
      CopyDerivable(s, c, i, g, v.rights, l);
      FillVacateWire(s, l, v.typ, v.rights, v.obj, src, MoveEffects(s, c, i, g));
    } else {
      assert MoveEffects(s, c, i, g) == [];
    }
  }

  lemma PairConcat<T>(a: T, b: T, rest: seq<T>)
    ensures [a, b] + rest == [a] + [b] + rest
  {
  }

  lemma FillVacateWire(s: State, l: Loc, typ: nat, rights: Rights, o: nat, src: Loc, es: seq<Effect>)
    requires Inv(s) && Names(s.cnodes, src, o) && Enabled(s, Fill(l, typ, rights, o, Some(src)))
    requires es == [Fill(l, typ, rights, o, Some(src)), Vacate(src)] + WireEffects(Drop(s, src), o, l)
    ensures CanApply(s, es)
    ensures var s1 := Place(s, l, typ, rights, o);
            Shaped(s1) && Occupied(s1.cnodes, src) && ApplyAll(s, es) == Wire(Drop(s1, src), o, l)
  {
    var s1, s2 := FillThenVacate(s, l, typ, rights, o, src);
    var wire := WireEffects(s2, o, l);
    WireIsEffects(s2, o, l);
    SameWire(s, s1, s2, o, l, src);
    var first := [Fill(l, typ, rights, o, Some(src))] + [Vacate(src)];
    PairConcat(Fill(l, typ, rights, o, Some(src)), Vacate(src), wire);
    ApplyConcat(s, first, wire, es, s2, Wire(s2, o, l));
  }

  /** The pool is as full after the fill and the drop as after the drop alone. */
  lemma SameWire(s: State, s1: State, s2: State, o: nat, l: Loc, src: Loc)
    requires Shaped(s) && Occupied(s.cnodes, src) && Shaped(s1) && Occupied(s1.cnodes, src) && s2 == Drop(s1, src)
    requires s1.chains == s.chains && s1.poolUsed == s.poolUsed && s1.poolSize == s.poolSize
    requires SlotAt(s1.cnodes, src) == SlotAt(s.cnodes, src)
    ensures WireEffects(Drop(s, src), o, l) == WireEffects(s2, o, l)
  {
  }

  lemma Two(s: State, e: Effect, f: Effect, t: State, u: State)
    requires Inv(s) && Enabled(s, e) && t == Apply(s, e) && Inv(t) && Enabled(t, f) && u == Apply(t, f)
    ensures CanApply(s, [e] + [f]) && ApplyAll(s, [e] + [f]) == u
  {
    One(t, f);
    BeforeFirst(s, e, t, [f], [e] + [f]);
  }

  /** After the fill the source is still there, and after the drop the new slot is, without an edge. */
  lemma FilledThenDropped(s: State, l: Loc, typ: nat, rights: Rights, o: nat, src: Loc) returns (s1: State, s2: State)
    requires Inv(s) && Names(s.cnodes, src, o) && InstallStatus(s, l.cnode, l.slot, typ, o) == Ok
    ensures s1 == Place(s, l, typ, rights, o) && Inv(s1) && Occupied(s1.cnodes, src)
    ensures s2 == Drop(s1, src) && Inv(s2) && o < |s2.chains| && Names(s2.cnodes, l, o) && l !in s2.chains[o]
  {
    s1 := Place(s, l, typ, rights, o);
    FillKeepsInv(s, l, typ, rights, o);
    FreeSlotUnlisted(s, l, o);
    VacateKeepsInv(s1, src);
    DropLeaves(s1, src, l, o);
    s2 := Drop(s1, src);
  }

  /** Dropping one slot leaves the others and adds no edge. */
  lemma DropLeaves(s: State, src: Loc, l: Loc, o: nat)
    requires Shaped(s) && Occupied(s.cnodes, src) && Names(s.cnodes, l, o) && l != src && o < |s.chains|
    requires l !in s.chains[o]
    ensures Names(Drop(s, src).cnodes, l, o) && l !in Drop(s, src).chains[o]
  {
  }

  lemma FillThenVacate(s: State, l: Loc, typ: nat, rights: Rights, o: nat, src: Loc) returns (s1: State, s2: State)
    requires Inv(s) && Names(s.cnodes, src, o) && Enabled(s, Fill(l, typ, rights, o, Some(src)))
    ensures s1 == Place(s, l, typ, rights, o) && Inv(s1) && Occupied(s1.cnodes, src)
    ensures s2 == Drop(s1, src) && Inv(s2) && o < |s2.chains| && Names(s2.cnodes, l, o) && l !in s2.chains[o]
    ensures var es := [Fill(l, typ, rights, o, Some(src))] + [Vacate(src)]; CanApply(s, es) && ApplyAll(s, es) == s2
  {
    s1, s2 := FilledThenDropped(s, l, typ, rights, o, src);
    Two(s, Fill(l, typ, rights, o, Some(src)), Vacate(src), s1, s2);
  }

  lemma VacatesTail(ls: seq<Loc>)
    requires ls != []
    ensures Vacates(ls)[0] == Vacate(ls[0]) && Vacates(ls)[1..] == Vacates(ls[1..])
  {
  }

  lemma {:induction false} DropEachIsEffects(s: State, ls: seq<Loc>)
    requires Inv(s) && NoDup(ls) && AllOccupied(s.cnodes, ls)
    ensures CanApply(s, Vacates(ls)) && ApplyAll(s, Vacates(ls)) == DropEach(s, ls)
    decreases |ls|
  {
    if ls == [] {
    } else {
      ApplyKeepsInv(s, Vacate(ls[0]));
      var s1 := Drop(s, ls[0]);
      forall k | 0 <= k < |ls[1..]|
        ensures Occupied(s1.cnodes, ls[1..][k])
      {
        assert ls[1..][k] == ls[k + 1];
      }
      DropEachIsEffects(s1, ls[1..]);
      VacatesTail(ls);
    }
  }

  /** Every operation is a sequence of enabled atomic effects. */
  lemma StepIsEffects(s: State, op: Op)
    requires Inv(s) && Allowed(s, op)
    ensures CanApply(s, EffectsOf(s, op)) && ApplyAll(s, EffectsOf(s, op)) == Step(s, op)
  {
    match op
    case OpInstall(c, i, typ, rights, o) => InstallIsEffects(s, op);
    case OpAlloc(c, typ, rights, o) => InstallIsEffects(s, op);
    case OpMint(c, i, g, rights, dst) => MintIsEffects(s, c, i, g, rights, dst);
    case OpCopy(c, i, g, rights) => CopyIsEffects(s, c, i, g, rights);
    case OpMove(c, i, g) => MoveIsEffects(s, c, i, g);
    case OpDelete(c, i, g) => DeleteIsEffects(s, op);
    case OpInvalidate(c, o, max) => DropEachIsEffects(s, InvalidateTargets(s, c, o, max));
    case OpWalk(o, max, held) => DropEachIsEffects(s, WalkTargets(s, o, max, held));
    case _ => OtherIsEffects(s, op);
  }

  lemma InstallIsEffects(s: State, op: Op)
    requires Inv(s) && Allowed(s, op) && (op.OpInstall? || op.OpAlloc?)
    ensures CanApply(s, EffectsOf(s, op)) && ApplyAll(s, EffectsOf(s, op)) == Step(s, op)
  {
    if op.OpInstall? {
      if Install(s, op.c, op.i, op.typ, op.rights, op.o).status == Ok {
        One(s, Fill(Loc(op.c, op.i), op.typ, op.rights, op.o, None));
      }
    } else if AllocInstall(s, op.c, op.typ, op.rights, op.o).status == Ok {
      AllocIsFill(s, op.c, op.typ, op.rights, op.o);
      One(s, EffectsOf(s, op)[0]);
    }
  }

  lemma DeleteIsEffects(s: State, op: Op)
    requires Inv(s) && Allowed(s, op) && op.OpDelete?
    ensures CanApply(s, EffectsOf(s, op)) && ApplyAll(s, EffectsOf(s, op)) == Step(s, op)
  {
    if Delete(s, op.c, op.i, op.g).status == Ok {
      One(s, Vacate(Loc(op.c, op.i)));
    }
  }

  /** The remaining operations are at most one effect each. */
  lemma OtherIsEffects(s: State, op: Op)
    requires Inv(s) && Allowed(s, op)
    requires OffSlots(op)
    ensures CanApply(s, EffectsOf(s, op)) && ApplyAll(s, EffectsOf(s, op)) == Step(s, op)
  {
    var es := EffectsOf(s, op);
    if es != [] {
      assert Enabled(s, es[0]) && es == [es[0]];
      One(s, es[0]);
    }
  }

  /** What the operations that report a status answer. */
  ghost function StatusOf(s: State, op: Op): Status
    requires Inv(s)
  {
    match op
    case OpInstall(c, i, typ, rights, o) => Install(s, c, i, typ, rights, o).status
    case OpAlloc(c, typ, rights, o) => AllocInstall(s, c, typ, rights, o).status
    case OpMint(c, i, g, rights, dst) => Mint(s, c, i, g, rights, dst).status
    case OpCopy(c, i, g, rights) => Copy(s, c, i, g, rights).status
    case OpMove(c, i, g) => Move(s, c, i, g).status
    case OpDelete(c, i, g) => Delete(s, c, i, g).status
    case _ => Ok
  }

  /** An operation that reports a failure has changed no slot, header, list, pool or account. */
  lemma FailureChangesNothing(s: State, op: Op)
    requires Inv(s) && Allowed(s, op) && StatusOf(s, op) != Ok
    ensures Step(s, op) == s
  {
    match op
    case OpAlloc(c, typ, rights, o) => AllocAtomic(s, c, typ, rights, o);
    case OpMint(c, i, g, rights, dst) => MintAtomic(s, c, i, g, rights, dst);
    case OpCopy(c, i, g, rights) => CopyAtomic(s, c, i, g, rights);
    case OpMove(c, i, g) => MoveAtomic(s, c, i, g);
    case OpDelete(c, i, g) => DeleteAtomic(s, c, i, g);
    case _ =>
  }

  lemma StepKeepsInv(s: State, op: Op)
    requires Inv(s) && Allowed(s, op)
    ensures Inv(Step(s, op))
  {
    StepIsEffects(s, op);
  }

  // ---- Runs.

  ghost predicate AllowedRun(s: State, ops: seq<Op>)
    requires Inv(s)
    decreases |ops|
  {
    ops == [] || (Allowed(s, ops[0]) && (StepKeepsInv(s, ops[0]); AllowedRun(Step(s, ops[0]), ops[1..])))
  }

  ghost function Run(s: State, ops: seq<Op>): (r: State)
    requires Inv(s) && AllowedRun(s, ops)
    ensures Inv(r)
    decreases |ops|
  {
    if ops == [] then s else (StepKeepsInv(s, ops[0]); Run(Step(s, ops[0]), ops[1..]))
  }

  ghost function RunEffects(s: State, ops: seq<Op>): seq<Effect>
    requires Inv(s) && AllowedRun(s, ops)
    decreases |ops|
  {
    if ops == [] then []
    else (StepKeepsInv(s, ops[0]); EffectsOf(s, ops[0]) + RunEffects(Step(s, ops[0]), ops[1..]))
  }

  /** A run is the sequence of its effects. */
  lemma {:induction false} RunIsEffects(s: State, ops: seq<Op>)
    requires Inv(s) && AllowedRun(s, ops)
    ensures CanApply(s, RunEffects(s, ops)) && ApplyAll(s, RunEffects(s, ops)) == Run(s, ops)
    decreases |ops|
  {
    if ops == [] {
    } else {
      StepIsEffects(s, ops[0]);
      RunIsEffects(Step(s, ops[0]), ops[1..]);
      ApplyAllConcat(s, EffectsOf(s, ops[0]), RunEffects(Step(s, ops[0]), ops[1..]));
    }
  }

  // ---- Where runs start.

  ghost predicate Initial(s: State) {
    && Shaped(s)
    && (forall l :: !Occupied(s.cnodes, l))
    && (forall o :: 0 <= o < |s.objs| ==> s.objs[o].slotsLeft == 0 && s.chains[o] == [])
    && s.poolUsed == 0
    && (forall a :: 0 <= a < |s.used| ==> s.used[a] == 0 && s.limits[a] <= U32_MAX)
    && ChargesDistinct(s.parents)
  }

  lemma InitialInv(s: State)
    requires Initial(s)
    ensures Inv(s)
  {
    SumLenNone(s.chains);
    forall o | 0 <= o < |s.objs|
      ensures NamedSet(s.cnodes, o) == {}
    {
    }
    forall a | 0 <= a < |s.used|
      ensures ChargedSet(s.cnodes, s.parents, a) == {}
    {
    }
  }
}
