/**
 The atomic effects all operations are made of, and the global invariant each of them keeps:
 slot tables, object counts, derivation index, edge pool and quota accounts agree.
 */
module CapInvariant {
  import opened Words
  import opened EdgePool
  import opened QuotaLedger
  import opened CapState
  import opened CapOps

  // ---- The invariant.

  /** `u32SlotsLeft` is what a scan of all CNodes would count. */
  ghost predicate Counted(s: State) {
    forall o :: 0 <= o < |s.objs| ==> s.objs[o].slotsLeft == |NamedSet(s.cnodes, o)| <= U32_MAX
  }

  /** The pool's counter is the number of edges on all lists, and the pool is not over-full. */
  ghost predicate Pooled(s: State) {
    s.poolUsed == SumLen(s.chains) <= s.poolSize
  }

  /** Every account is charged once for every occupied slot at or below it. */
  ghost predicate Metered(s: State) {
    && WithinLimits(s.limits, s.used)
    && forall a :: 0 <= a < |s.used| ==> s.used[a] == |ChargedSet(s.cnodes, s.parents, a)|
  }

  /** A slot naming a live object carries that object's generation. */
  ghost predicate Current(s: State) {
    forall l, o: nat :: Names(s.cnodes, l, o) && o < |s.objs| && s.objs[o].life.Live? ==>
      SlotAt(s.cnodes, l).objGen == s.objs[o].gen
  }

  ghost predicate Inv(s: State) {
    && Shaped(s)
    && Indexed(s)
    && Pooled(s)
    && Counted(s)
    && ChargesDistinct(s.parents)
    && Metered(s)
    && Current(s)
  }

  // ---- Atomic effects.

  datatype Effect =
    | Fill(l: Loc, typ: nat, rights: Rights, o: nat, src: Option<Loc>)
    | Link(o: nat, l: Loc)
    | Vacate(l: Loc)
    | Seize(o: nat)
    | Bury(o: nat)
    | Recycle(o: nat)
    | SetLock(c: nat, locked: bool)
    | Attach(c: nat, account: Option<nat>)
    | Adopt(q: nat, p: Option<nat>)

  /** What lets a slot be filled from `src`: it names the same object, holds every right passed on,
      and holds MINT, or GRANT within its own CNode. */
  ghost predicate Derivable(cn: seq<CNode>, src: Loc, l: Loc, typ: nat, rights: Rights, o: nat) {
    && Names(cn, src, o)
    && typ == SlotAt(cn, src).typ
    && rights <= SlotAt(cn, src).rights
    && (RIGHT_MINT in SlotAt(cn, src).rights ||
        (RIGHT_GRANT in SlotAt(cn, src).rights && src.cnode == l.cnode))
  }

  ghost predicate EmptyCNode(cn: CNode) {
    forall i :: 0 <= i < |cn.slots| ==> cn.slots[i].typ == CAP_INVALID
  }

  function Attached(cn: seq<CNode>, c: nat, account: Option<nat>): seq<CNode>
    requires c < |cn|
  {
    cn[c := cn[c].(account := account)]
  }

  /** A charge for `x` and one for `x'` reach the same accounts. */
  ghost predicate SameAccounts(parents: Parents, x: Option<nat>, parents': Parents, x': Option<nat>) {
    forall a :: a in ChargeChain(parents, x) <==> a in ChargeChain(parents', x')
  }

  /** Every CNode that holds a slot is charged to the same accounts before and after. */
  ghost predicate SameCharges(cn: seq<CNode>, parents: Parents, cn': seq<CNode>, parents': Parents) {
    && |cn'| == |cn|
    && forall c :: 0 <= c < |cn| && !EmptyCNode(cn[c]) ==>
         SameAccounts(parents, cn[c].account, parents', cn'[c].account)
  }

  ghost predicate Enabled(s: State, e: Effect)
    requires Shaped(s)
  {
    match e
    case Fill(l, typ, rights, o, src) =>
      && InstallStatus(s, l.cnode, l.slot, typ, o) == Ok
      && (src.Some? ==> Derivable(s.cnodes, src.value, l, typ, rights, o))
    case Link(o, l) => o < |s.objs| && Names(s.cnodes, l, o) && l !in s.chains[o] && s.poolUsed < s.poolSize
    case Vacate(l) => Occupied(s.cnodes, l)
    case Seize(o) => o < |s.objs| && s.objs[o].life.Live?
    case Bury(o) => o < |s.objs| && s.objs[o].life.Revoking?
    case Recycle(o) => ReclaimReady(s, o, 0, 0)
    case SetLock(c, locked) => c < |s.cnodes|
    case Attach(c, account) =>
      && c < |s.cnodes| && InTable(s.parents, account)
      && SameCharges(s.cnodes, s.parents, Attached(s.cnodes, c, account), s.parents)
    case Adopt(q, p) =>
      && q < |s.parents| && InTable(s.parents, p)
      && SameCharges(s.cnodes, s.parents, s.cnodes, SetParent(s.parents, q, p))
  }

  ghost function Apply(s: State, e: Effect): State
    requires Shaped(s) && Enabled(s, e)
  {
    match e
    case Fill(l, typ, rights, o, src) => Place(s, l, typ, rights, o)
    case Link(o, l) => Wire(s, o, l)
    case Vacate(l) => Drop(s, l)
    case Seize(o) => s.(objs := s.objs[o := s.objs[o].(life := Revoking)])
    case Bury(o) => s.(objs := s.objs[o := s.objs[o].(life := Dead, gen := Inc32(s.objs[o].gen))])
    case Recycle(o) => s.(objs := s.objs[o := FreshObj()])
    case SetLock(c, locked) => WithLock(s, c, locked)
    case Attach(c, account) => s.(cnodes := Attached(s.cnodes, c, account))
    case Adopt(q, p) => s.(parents := SetParent(s.parents, q, p))
  }

  // ---- Sets of locations under one slot update.

  lemma NamedSetUpdate(cn: seq<CNode>, l: Loc, slot: Slot, o: nat)
    requires InRange(cn, l)
    ensures NamedSet(SetSlot(cn, l, slot), o) ==
            if slot.typ != CAP_INVALID && slot.obj == Some(o) then NamedSet(cn, o) + {l} else NamedSet(cn, o) - {l}
  {
  }

  lemma ChargedSetUpdate(cn: seq<CNode>, parents: Parents, l: Loc, slot: Slot, a: nat)
    requires InRange(cn, l)
    ensures ChargedSet(SetSlot(cn, l, slot), parents, a) ==
            if slot.typ != CAP_INVALID && Reaches(cn, parents, l, a)
            then ChargedSet(cn, parents, a) + {l} else ChargedSet(cn, parents, a) - {l}
  {
  }

  // ---- Filling a slot.

  lemma FillCounted(s: State, l: Loc, typ: nat, rights: Rights, o: nat)
    requires Shaped(s) && Counted(s) && InstallStatus(s, l.cnode, l.slot, typ, o) == Ok
    ensures Counted(Place(s, l, typ, rights, o))
  {
    var s' := Place(s, l, typ, rights, o);
    var slot := SlotAt(s'.cnodes, l);
    forall x | 0 <= x < |s.objs|
      ensures s'.objs[x].slotsLeft == |NamedSet(s'.cnodes, x)| <= U32_MAX
    {
      FillNamed(s.cnodes, l, slot, x);
    }
  }

  /** Filling a free slot adds one to what names its object, and nothing to the rest. */
  lemma FillNamed(cn: seq<CNode>, l: Loc, slot: Slot, x: nat)
    requires InRange(cn, l) && !Occupied(cn, l) && slot.typ != CAP_INVALID
    ensures |NamedSet(SetSlot(cn, l, slot), x)| == |NamedSet(cn, x)| + if slot.obj == Some(x) then 1 else 0
  {
    NamedSetUpdate(cn, l, slot, x);
    assert l !in NamedSet(cn, x);
  }

  lemma FillAccount(s: State, l: Loc, slot: Slot, chain: seq<nat>, a: nat)
    requires InRange(s.cnodes, l) && !Occupied(s.cnodes, l) && slot.typ != CAP_INVALID
    requires chain == ChargeChain(s.parents, s.cnodes[l.cnode].account) && NoDup(chain)
    requires |s.used| == |s.parents| && a < |s.used| && s.used[a] == |ChargedSet(s.cnodes, s.parents, a)|
    requires forall i :: 0 <= i < |chain| ==> s.used[chain[i]] < U32_MAX
    ensures BumpAll(s.used, chain)[a] == |ChargedSet(SetSlot(s.cnodes, l, slot), s.parents, a)|
  {
    ChargedSetUpdate(s.cnodes, s.parents, l, slot, a);
    OneMore(ChargedSet(s.cnodes, s.parents, a), ChargedSet(SetSlot(s.cnodes, l, slot), s.parents, a), l, a in chain);
    BumpAllAt(s.used, chain, a);
  }

  lemma OneMore(before: set<Loc>, after: set<Loc>, l: Loc, joins: bool)
    requires l !in before && after == if joins then before + {l} else before - {l}
    ensures |after| == |before| + if joins then 1 else 0
  {
  }

  lemma OneLess(before: set<Loc>, after: set<Loc>, l: Loc, leaves: bool)
    requires (l in before <==> leaves) && after == before - {l}
    ensures |after| == |before| - if leaves then 1 else 0
  {
  }

  lemma FillMetered(s: State, l: Loc, typ: nat, rights: Rights, o: nat)
    requires Shaped(s) && Metered(s) && ChargesDistinct(s.parents) && InstallStatus(s, l.cnode, l.slot, typ, o) == Ok
    ensures Metered(Place(s, l, typ, rights, o))
  {
    var chain := ChargeChain(s.parents, s.cnodes[l.cnode].account);
    ChargeChainNoDup(s.parents, s.cnodes[l.cnode].account);
    ChargeKeepsLimits(s.limits, s.used, chain);
    FillAccounts(s, l, Slot(typ, rights, SlotAt(s.cnodes, l).gen, s.objs[o].gen, Some(o)), chain);
  }

  lemma FillAccounts(s: State, l: Loc, slot: Slot, chain: seq<nat>)
    requires InRange(s.cnodes, l) && !Occupied(s.cnodes, l) && slot.typ != CAP_INVALID && |s.used| == |s.parents|
    requires chain == ChargeChain(s.parents, s.cnodes[l.cnode].account) && NoDup(chain)
    requires forall a :: 0 <= a < |s.used| ==> s.used[a] == |ChargedSet(s.cnodes, s.parents, a)|
    requires forall i :: 0 <= i < |chain| ==> s.used[chain[i]] < U32_MAX
    ensures forall a :: 0 <= a < |s.used| ==>
              BumpAll(s.used, chain)[a] == |ChargedSet(SetSlot(s.cnodes, l, slot), s.parents, a)|
  {
    forall a | 0 <= a < |s.used|
      ensures BumpAll(s.used, chain)[a] == |ChargedSet(SetSlot(s.cnodes, l, slot), s.parents, a)|
    {
      FillAccount(s, l, slot, chain, a);
    }
  }

  lemma FillIndexed(s: State, l: Loc, typ: nat, rights: Rights, o: nat)
    requires Shaped(s) && Indexed(s) && InstallStatus(s, l.cnode, l.slot, typ, o) == Ok
    ensures Indexed(Place(s, l, typ, rights, o))
  {
    var s' := Place(s, l, typ, rights, o);
    forall x, k | 0 <= x < |s.chains| && 0 <= k < |s.chains[x]|
      ensures Names(s'.cnodes, s.chains[x][k], x)
    {
      assert Names(s.cnodes, s.chains[x][k], x);
    }
  }

  lemma FillCurrent(s: State, l: Loc, typ: nat, rights: Rights, o: nat)
    requires Shaped(s) && Current(s) && InstallStatus(s, l.cnode, l.slot, typ, o) == Ok
    ensures Current(Place(s, l, typ, rights, o))
  {
    var s' := Place(s, l, typ, rights, o);
    forall m, x: nat | Names(s'.cnodes, m, x) && x < |s.objs| && s'.objs[x].life.Live?
      ensures SlotAt(s'.cnodes, m).objGen == s'.objs[x].gen
    {
      if m != l {
        assert Names(s.cnodes, m, x);
      }
    }
  }

  lemma FillKeepsInv(s: State, l: Loc, typ: nat, rights: Rights, o: nat)
    requires Inv(s) && InstallStatus(s, l.cnode, l.slot, typ, o) == Ok
    ensures Inv(Place(s, l, typ, rights, o))
  {
    PlaceShaped(s, l, typ, rights, o);
    FillIndexed(s, l, typ, rights, o);
    FillCounted(s, l, typ, rights, o);
    FillMetered(s, l, typ, rights, o);
    FillCurrent(s, l, typ, rights, o);
  }

  // ---- Vacating a slot.

  lemma VacateCounted(s: State, l: Loc)
    requires Shaped(s) && Counted(s) && Occupied(s.cnodes, l)
    ensures Counted(Drop(s, l))
  {
    var s' := Drop(s, l);
    forall x | 0 <= x < |s.objs|
      ensures s'.objs[x].slotsLeft == |NamedSet(s'.cnodes, x)| <= U32_MAX
    {
      NamedSetUpdate(s.cnodes, l, SlotAt(s'.cnodes, l), x);
    }
  }

  lemma VacateAccount(s: State, l: Loc, slot: Slot, chain: seq<nat>, a: nat)
    requires Occupied(s.cnodes, l) && slot.typ == CAP_INVALID
    requires chain == ChargeChain(s.parents, s.cnodes[l.cnode].account) && NoDup(chain)
    requires |s.used| == |s.parents| && a < |s.used| && s.used[a] == |ChargedSet(s.cnodes, s.parents, a)|
    ensures DropAll(s.used, chain)[a] == |ChargedSet(SetSlot(s.cnodes, l, slot), s.parents, a)| <= s.used[a]
    ensures a in chain ==> s.used[a] > 0
  {
    ChargedSetUpdate(s.cnodes, s.parents, l, slot, a);
    OneLess(ChargedSet(s.cnodes, s.parents, a), ChargedSet(SetSlot(s.cnodes, l, slot), s.parents, a), l, a in chain);
    DropAllAt(s.used, chain, a);
  }

  /** The refund's stop at zero never takes effect: every account on the chain holds this charge. */
  lemma VacateMetered(s: State, l: Loc)
    requires Shaped(s) && Metered(s) && ChargesDistinct(s.parents) && Occupied(s.cnodes, l)
    ensures Metered(Drop(s, l))
    ensures forall a :: a in ChargeChain(s.parents, s.cnodes[l.cnode].account) ==> s.used[a] > 0
  {
    ChargeChainNoDup(s.parents, s.cnodes[l.cnode].account);
    VacateAccounts(s, l, Cleared(SlotAt(s.cnodes, l)), ChargeChain(s.parents, s.cnodes[l.cnode].account));
  }

  lemma VacateAccounts(s: State, l: Loc, slot: Slot, chain: seq<nat>)
    requires Occupied(s.cnodes, l) && slot.typ == CAP_INVALID && |s.used| == |s.parents| && Closed(s.parents)
    requires chain == ChargeChain(s.parents, s.cnodes[l.cnode].account) && NoDup(chain)
    requires forall a :: 0 <= a < |s.used| ==> s.used[a] == |ChargedSet(s.cnodes, s.parents, a)|
    ensures forall a :: 0 <= a < |s.used| ==>
              DropAll(s.used, chain)[a] == |ChargedSet(SetSlot(s.cnodes, l, slot), s.parents, a)| <= s.used[a]
    ensures forall a :: 0 <= a < |s.used| && a in chain ==> s.used[a] > 0
  {
    forall a | 0 <= a < |s.used|
      ensures DropAll(s.used, chain)[a] == |ChargedSet(SetSlot(s.cnodes, l, slot), s.parents, a)| <= s.used[a]
      ensures a in chain ==> s.used[a] > 0
    {
      VacateAccount(s, l, slot, chain, a);
    }
  }

  lemma VacateIndexed(s: State, l: Loc)
    requires Shaped(s) && Indexed(s) && Occupied(s.cnodes, l)
    ensures Indexed(Drop(s, l))
  {
    var s' := Drop(s, l);
    var o := SlotAt(s.cnodes, l).obj.value;
    WithoutNoDup(s.chains[o], l);
    forall x, k | 0 <= x < |s'.chains| && 0 <= k < |s'.chains[x]|
      ensures Names(s'.cnodes, s'.chains[x][k], x)
    {
      var m := s'.chains[x][k];
      assert m in s'.chains[x];
      assert m in s.chains[x];
      var j :| 0 <= j < |s.chains[x]| && s.chains[x][j] == m;
      assert Names(s.cnodes, m, x);
    }
  }

  lemma VacatePooled(s: State, l: Loc)
    requires Shaped(s) && Indexed(s) && Pooled(s) && Occupied(s.cnodes, l)
    ensures Pooled(Drop(s, l))
  {
    var o := SlotAt(s.cnodes, l).obj.value;
    var chain := Without(s.chains[o], l);
    SumLenUpdate(s.chains, o, chain);
    LengthInSum(s.chains, o);
  }

  lemma VacateCurrent(s: State, l: Loc)
    requires Shaped(s) && Current(s) && Occupied(s.cnodes, l)
    ensures Current(Drop(s, l))
  {
    var s' := Drop(s, l);
    forall m, x: nat | Names(s'.cnodes, m, x) && x < |s.objs| && s'.objs[x].life.Live?
      ensures SlotAt(s'.cnodes, m).objGen == s'.objs[x].gen
    {
      assert Names(s.cnodes, m, x);
    }
  }

  lemma VacateKeepsInv(s: State, l: Loc)
    requires Inv(s) && Occupied(s.cnodes, l)
    ensures Inv(Drop(s, l))
  {
    DropShaped(s, l);
    VacateIndexed(s, l);
    VacatePooled(s, l);
    VacateCounted(s, l);
    VacateMetered(s, l);
    VacateCurrent(s, l);
  }

  // ---- Wiring an edge.

  lemma LinkKeepsInv(s: State, o: nat, l: Loc)
    requires Inv(s) && Enabled(s, Link(o, l))
    ensures Inv(Wire(s, o, l))
  {
    var s' := Wire(s, o, l);
    WireShaped(s, o, l);
    SumLenUpdate(s.chains, o, [l] + s.chains[o]);
    WireIndexed(s, o, l);
    assert Counted(s') && Metered(s') && Current(s');
  }

  lemma WireIndexed(s: State, o: nat, l: Loc)
    requires Indexed(s) && o < |s.objs| && Names(s.cnodes, l, o) && l !in s.chains[o]
    ensures Indexed(Wire(s, o, l))
  {
    var s' := Wire(s, o, l);
    forall x, k | 0 <= x < |s'.chains| && 0 <= k < |s'.chains[x]|
      ensures Names(s'.cnodes, s'.chains[x][k], x)
    {
      if s'.chains[x][k] != l {
        var j := if x == o && s.poolUsed < s.poolSize then k - 1 else k;
        assert s'.chains[x][k] == s.chains[x][j];
      }
    }
  }

  // ---- Object lifetime, locks and accounts.

  lemma LifeKeepsInv(s: State, e: Effect)
    requires Inv(s) && Enabled(s, e) && (e.Seize? || e.Bury? || e.Recycle?)
    ensures Inv(Apply(s, e))
  {
    var s' := Apply(s, e);
    if e.Recycle? {
      assert NamedSet(s.cnodes, e.o) == {};
    }
    forall m, x: nat | Names(s'.cnodes, m, x) && x < |s.objs| && s'.objs[x].life.Live?
      ensures SlotAt(s'.cnodes, m).objGen == s'.objs[x].gen
    {
      assert m in NamedSet(s.cnodes, x);
    }
  }

  /** Changing a CNode's lock or account leaves its slots alone. */
  lemma SameSlots(cn: seq<CNode>, cn': seq<CNode>, o: nat)
    requires |cn'| == |cn| && forall c :: 0 <= c < |cn| ==> cn'[c].slots == cn[c].slots
    ensures forall l :: InRange(cn', l) <==> InRange(cn, l)
    ensures forall l :: InRange(cn, l) ==> SlotAt(cn', l) == SlotAt(cn, l)
    ensures NamedSet(cn', o) == NamedSet(cn, o)
  {
  }

  lemma SameSlotsKeepInv(s: State, cn': seq<CNode>)
    requires Inv(s) && |cn'| == |s.cnodes|
    requires forall c :: 0 <= c < |cn'| ==> cn'[c].slots == s.cnodes[c].slots && InTable(s.parents, cn'[c].account)
    requires forall a :: 0 <= a < |s.used| ==> ChargedSet(cn', s.parents, a) == ChargedSet(s.cnodes, s.parents, a)
    ensures Inv(s.(cnodes := cn'))
  {
    var s' := s.(cnodes := cn');
    SameSlots(s.cnodes, cn', 0);
    forall o | 0 <= o < |s.objs|
      ensures s'.objs[o].slotsLeft == |NamedSet(cn', o)| <= U32_MAX
    {
      SameSlots(s.cnodes, cn', o);
    }
    forall x, k | 0 <= x < |s.chains| && 0 <= k < |s.chains[x]|
      ensures Names(cn', s.chains[x][k], x)
    {
      assert Names(s.cnodes, s.chains[x][k], x);
    }
    forall m, x: nat | Names(cn', m, x) && x < |s.objs| && s.objs[x].life.Live?
      ensures SlotAt(cn', m).objGen == s.objs[x].gen
    {
      assert Names(s.cnodes, m, x);
    }
  }

  lemma SetLockKeepsInv(s: State, c: nat, locked: bool)
    requires Inv(s) && c < |s.cnodes|
    ensures Inv(WithLock(s, c, locked))
  {
    var cn' := WithLock(s, c, locked).cnodes;
    SameSlots(s.cnodes, cn', 0);
    forall a | 0 <= a < |s.used|
      ensures ChargedSet(cn', s.parents, a) == ChargedSet(s.cnodes, s.parents, a)
    {
    }
    SameSlotsKeepInv(s, cn');
  }

  /** Slots charged to the same accounts are charged to each account in the same number. */
  lemma SameChargedSet(cn: seq<CNode>, parents: Parents, cn': seq<CNode>, parents': Parents, a: nat)
    requires SameCharges(cn, parents, cn', parents') && forall c :: 0 <= c < |cn| ==> cn'[c].slots == cn[c].slots
    ensures ChargedSet(cn', parents', a) == ChargedSet(cn, parents, a)
  {
    forall l
      ensures Occupied(cn', l) <==> Occupied(cn, l)
      ensures Occupied(cn, l) ==> (Reaches(cn', parents', l, a) <==> Reaches(cn, parents, l, a))
    {
      if Occupied(cn, l) {
        assert !EmptyCNode(cn[l.cnode]);
        assert SameAccounts(parents, cn[l.cnode].account, parents', cn'[l.cnode].account);
      }
    }
  }

  lemma AttachKeepsInv(s: State, c: nat, account: Option<nat>)
    requires Inv(s) && Enabled(s, Attach(c, account))
    ensures Inv(s.(cnodes := Attached(s.cnodes, c, account)))
  {
    var cn' := Attached(s.cnodes, c, account);
    SameSlots(s.cnodes, cn', 0);
    forall a | 0 <= a < |s.used|
      ensures ChargedSet(cn', s.parents, a) == ChargedSet(s.cnodes, s.parents, a)
    {
      SameChargedSet(s.cnodes, s.parents, cn', s.parents, a);
    }
    SameSlotsKeepInv(s, cn');
  }

  /** A link update after which every CNode in use is charged to the same accounts as before. */
  lemma AdoptKeepsInv(s: State, q: nat, p: Option<nat>)
    requires Inv(s) && Enabled(s, Adopt(q, p))
    ensures Inv(s.(parents := SetParent(s.parents, q, p)))
  {
    var s' := s.(parents := SetParent(s.parents, q, p));
    SetParentKeepsDistinct(s.parents, q, p);
    forall a | 0 <= a < |s.used|
      ensures s'.used[a] == |ChargedSet(s'.cnodes, s'.parents, a)|
    {
      SameChargedSet(s.cnodes, s.parents, s.cnodes, s'.parents, a);
    }
    assert Counted(s') && Indexed(s') && Current(s');
  }

  /** Every enabled effect keeps the whole invariant. */
  lemma ApplyKeepsInv(s: State, e: Effect)
    requires Inv(s) && Enabled(s, e)
    ensures Inv(Apply(s, e))
  {
    match e
    case Fill(l, typ, rights, o, src) => FillKeepsInv(s, l, typ, rights, o);
    case Link(o, l) => LinkKeepsInv(s, o, l);
    case Vacate(l) => VacateKeepsInv(s, l);
    case Seize(o) => LifeKeepsInv(s, e);
    case Bury(o) => LifeKeepsInv(s, e);
    case Recycle(o) => LifeKeepsInv(s, e);
    case SetLock(c, locked) => SetLockKeepsInv(s, c, locked);
    case Attach(c, account) => AttachKeepsInv(s, c, account);
    case Adopt(q, p) => AdoptKeepsInv(s, q, p);
  }
}
