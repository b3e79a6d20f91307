/**
 The capability space as a value: CNode tables, object headers, the derivation index and the
 quota accounts. CNodes, objects and accounts are named by their table index; an index past
 the end of a table stands for a null pointer.
 */
module CapState {
  import opened Words
  import opened EdgePool
  import opened QuotaLedger

  // ---- Constants of the capability ABI.

  const CAP_INVALID: nat := 0
  const CAP_ROOT_META: nat := 14
  const SLOT_ROOT_META: nat := 0

  /** A rights mask is the set of its bit positions: `&` is intersection. */
  type Rights = set<nat>

  const RIGHT_GRANT: nat := 2
  const RIGHT_MINT: nat := 3
  const RIGHT_DESTROY: nat := 4

  // ---- Entities.

  datatype Status = Ok | ErrInval | ErrNoEnt | ErrPerm | ErrAgain | ErrBusy | ErrDead | ErrStale | ErrQuota

  datatype Life = Live | Revoking | Dead

  datatype Slot = Slot(typ: nat, rights: Rights, gen: nat, objGen: nat, obj: Option<nat>)

  datatype CNode = CNode(slots: seq<Slot>, account: Option<nat>, locked: bool)

  datatype Obj = Obj(life: Life, gen: nat, slotsLeft: nat)

  datatype State = State(
    cnodes: seq<CNode>,
    objs: seq<Obj>,
    chains: seq<seq<Loc>>,
    poolUsed: nat,
    poolSize: nat,
    limits: seq<nat>,
    used: seq<nat>,
    parents: Parents)

  // ---- Slots.

  predicate InRange(cn: seq<CNode>, l: Loc) {
    l.cnode < |cn| && l.slot < |cn[l.cnode].slots|
  }

  function SlotAt(cn: seq<CNode>, l: Loc): Slot
    requires InRange(cn, l)
  {
    cn[l.cnode].slots[l.slot]
  }

  predicate Occupied(cn: seq<CNode>, l: Loc) {
    InRange(cn, l) && SlotAt(cn, l).typ != CAP_INVALID
  }

  /** The slot at `l` is occupied and its object pointer is `o`. */
  predicate Names(cn: seq<CNode>, l: Loc, o: nat) {
    Occupied(cn, l) && SlotAt(cn, l).obj == Some(o)
  }

  function SetSlot(cn: seq<CNode>, l: Loc, slot: Slot): (r: seq<CNode>)
    requires InRange(cn, l)
    ensures |r| == |cn|
    ensures forall m :: InRange(r, m) <==> InRange(cn, m)
    ensures forall m :: InRange(cn, m) ==> SlotAt(r, m) == if m == l then slot else SlotAt(cn, m)
    ensures forall c :: 0 <= c < |cn| ==> r[c].account == cn[c].account && r[c].locked == cn[c].locked
  {
    cn[l.cnode := cn[l.cnode].(slots := cn[l.cnode].slots[l.slot := slot])]
  }

  /** Generations run 1, 2, ..., 2^32 - 1, 1, ...: zero is the null handle. */
  function NextGen(g: nat): (r: nat)
    ensures 0 < r < U32_LIMIT
  {
    var n := Inc32(g);
    if n == 0 then 1 else n
  }

  /** A slot as its table is initialised. */
  const FREE_SLOT := Slot(CAP_INVALID, {}, 1, 0, None)

  function Cleared(slot: Slot): Slot {
    Slot(CAP_INVALID, {}, NextGen(slot.gen), 0, None)
  }

  // ---- Counting by sets of locations.

  /** Every slot that names `o`, in all CNodes: what a full scan would find. */
  ghost function NamedSet(cn: seq<CNode>, o: nat): (r: set<Loc>)
    ensures forall l :: l in r <==> Names(cn, l, o)
  {
    set c, i | 0 <= c < |cn| && 0 <= i < |cn[c].slots| && Names(cn, Loc(c, i), o) :: Loc(c, i)
  }

  /** A charge for the slot at `l` reaches account `a`. */
  ghost predicate Reaches(cn: seq<CNode>, parents: Parents, l: Loc, a: nat) {
    l.cnode < |cn| && a in ChargeChain(parents, cn[l.cnode].account)
  }

  /** The occupied slots of all CNodes attached to `a` or below it. */
  ghost function ChargedSet(cn: seq<CNode>, parents: Parents, a: nat): (r: set<Loc>)
    ensures forall l :: l in r <==> Occupied(cn, l) && Reaches(cn, parents, l, a)
  {
    set c, i | 0 <= c < |cn| && 0 <= i < |cn[c].slots| && Occupied(cn, Loc(c, i)) &&
               Reaches(cn, parents, Loc(c, i), a) :: Loc(c, i)
  }

  // ---- Pointers are in range.

  ghost predicate SlotShaped(slot: Slot, objects: nat) {
    && (slot.typ != CAP_INVALID <==> slot.obj.Some?)
    && (slot.typ == CAP_INVALID ==> slot.rights == {})
    && (slot.obj.Some? ==> slot.obj.value < objects)
    && 0 < slot.gen < U32_LIMIT
  }

  ghost predicate TablesShaped(cn: seq<CNode>, objects: nat, parents: Parents) {
    && (forall l :: InRange(cn, l) ==> SlotShaped(SlotAt(cn, l), objects))
    && (forall c :: 0 <= c < |cn| ==> InTable(parents, cn[c].account))
  }

  ghost predicate Shaped(s: State) {
    && |s.chains| == |s.objs|
    && |s.limits| == |s.used| == |s.parents|
    && Closed(s.parents)
    && TablesShaped(s.cnodes, |s.objs|, s.parents)
  }

  // ---- The three rewrites every operation is made of.

  /** Occupy a slot: slot fields, the object's count, and one charge along the account chain. */
  function Place(s: State, l: Loc, typ: nat, rights: Rights, o: nat): State
    requires Shaped(s) && InRange(s.cnodes, l) && o < |s.objs|
  {
    var slot := SlotAt(s.cnodes, l);
    s.(cnodes := SetSlot(s.cnodes, l, Slot(typ, rights, slot.gen, s.objs[o].gen, Some(o))),
       objs := s.objs[o := s.objs[o].(slotsLeft := Inc32(s.objs[o].slotsLeft))],
       used := BumpAll(s.used, ChargeChain(s.parents, s.cnodes[l.cnode].account)))
  }

  /** Push an edge for `l` onto the object's list, unless the pool is exhausted. */
  function Wire(s: State, o: nat, l: Loc): State
    requires o < |s.chains|
  {
    if s.poolUsed < s.poolSize
    then s.(chains := s.chains[o := [l] + s.chains[o]], poolUsed := s.poolUsed + 1)
    else s
  }

  /** Vacate a slot: structured invalidate, one refund, and the slot's edge back to the pool. */
  function Drop(s: State, l: Loc): State
    requires Shaped(s) && Occupied(s.cnodes, l)
  {
    var slot := SlotAt(s.cnodes, l);
    var o := slot.obj.value;
    var chain := Without(s.chains[o], l);
    s.(cnodes := SetSlot(s.cnodes, l, Cleared(slot)),
       objs := s.objs[o := s.objs[o].(slotsLeft := Dec(s.objs[o].slotsLeft))],
       chains := s.chains[o := chain],
       poolUsed := if |s.chains[o]| - |chain| <= s.poolUsed then s.poolUsed - (|s.chains[o]| - |chain|) else 0,
       used := DropAll(s.used, ChargeChain(s.parents, s.cnodes[l.cnode].account)))
  }

  function WithLock(s: State, c: nat, locked: bool): State
    requires c < |s.cnodes|
  {
    s.(cnodes := s.cnodes[c := s.cnodes[c].(locked := locked)])
  }
}
