/**
 The capability space updated in place: slot arrays, object headers, the linked edge pool and the
 quota tables. Every operation is proved to take the abstract state to the state its
 specification function gives.
 */
module CapKernel {
  import opened Words
  import opened EdgePool
  import opened QuotaLedger
  import opened CapState
  import opened CapOps
  import opened CapInvariant
  import opened CapRuns
  import opened CapHygiene
  import opened CapWalk

  /** `struct gj_cnode`: a caller-owned slot table with an account and a soft lock. */
  class CNodeTable {
    const slots: array<Slot>
    var account: Option<nat>
    var locked: bool

    ghost function View(): CNode
      reads this, slots
    {
      CNode(slots[..], account, locked)
    }

    /** `gj_cnode_init`: every slot free with generation 1, no account, lock free. */
    constructor (table: array<Slot>)
      modifies table
      ensures slots == table && account == None && !locked
      ensures forall i :: 0 <= i < table.Length ==> table[i] == FREE_SLOT
    {
      slots := table;
      account := None;
      locked := false;
      new;
      for i := 0 to table.Length
        modifies table
        invariant forall j :: 0 <= j < i ==> table[j] == FREE_SLOT
      {
        table[i] := FREE_SLOT;
      }
    }

    /** `gj_cnode_trylock`. */
    method TryLock() returns (taken: bool)
      modifies this`locked
      ensures taken == !old(locked) && locked
    {
      taken := !locked;
      locked := true;
    }

    /** `gj_cnode_unlock`. */
    method Unlock()
      modifies this`locked
      ensures !locked
    {
      locked := false;
    }
  }

  /** Tables, headers, pool and accounts as their initialisers leave them, with any links a sequence of link updates
      can make. */
  ghost predicate Fresh(tables: seq<CNodeTable>, headers: array<Obj>, edges: Pool, accounts: Ledger)
    reads tables, set t | t in tables :: t.slots
    reads headers, edges, accounts.limits, accounts.used, accounts.parents
  {
    && (forall c :: 0 <= c < |tables| ==>
          FreeTable(tables[c].View()) && InTable(accounts.parents[..], tables[c].account))
    && (forall o :: 0 <= o < headers.Length ==> headers[o].slotsLeft == 0)
    && (forall o :: 0 <= o < |edges.chains| ==> edges.chains[o] == []) && edges.usedCount == 0
    && accounts.limits.Length == accounts.used.Length
    && (forall a :: 0 <= a < accounts.used.Length ==> accounts.used[a] == 0 && accounts.limits[a] <= U32_MAX)
    && ChargesDistinct(accounts.parents[..])
  }

  /** Every slot free with generation 1. */
  ghost predicate FreeTable(cn: CNode) {
    forall i :: 0 <= i < |cn.slots| ==> cn.slots[i] == FREE_SLOT
  }

  lemma FreshIsInitial(s: State)
    requires |s.chains| == |s.objs| && |s.limits| == |s.used| == |s.parents| && Closed(s.parents)
    requires ChargesDistinct(s.parents)
    requires forall c :: 0 <= c < |s.cnodes| ==> FreeTable(s.cnodes[c]) && InTable(s.parents, s.cnodes[c].account)
    requires forall o :: 0 <= o < |s.objs| ==> s.objs[o].slotsLeft == 0 && s.chains[o] == []
    requires s.poolUsed == 0 && forall a :: 0 <= a < |s.used| ==> s.used[a] == 0 && s.limits[a] <= U32_MAX
    ensures Initial(s)
  {
    forall l | InRange(s.cnodes, l)
      ensures SlotAt(s.cnodes, l) == FREE_SLOT
    {
      assert FreeTable(s.cnodes[l.cnode]);
    }
  }

  lemma AllocatedInTable(s: State, c: nat, typ: nat, rights: Rights, o: nat)
    requires Shaped(s)
    ensures var a := AllocInstall(s, c, typ, rights, o);
            a.status == Ok ==> a.ref.Some? && o < |s.objs| == |a.state.objs|
  {
  }

  // ---- The steps of dropping a slot, as values.

  ghost function Unlinked(s: State, o: nat, l: Loc): State
    requires o < |s.chains|
  {
    var chain := Without(s.chains[o], l);
    s.(chains := s.chains[o := chain],
       poolUsed := if |s.chains[o]| - |chain| <= s.poolUsed then s.poolUsed - (|s.chains[o]| - |chain|) else 0)
  }

  /** The edge at position `p` spliced out. */
  ghost function UnlinkedAt(s: State, o: nat, p: nat): State
    requires o < |s.chains| && p < |s.chains[o]| && s.poolUsed > 0
  {
    s.(chains := s.chains[o := RemoveAt(s.chains[o], p)], poolUsed := s.poolUsed - 1)
  }

  ghost function Refunded(s: State, c: nat): State
    requires |s.used| == |s.parents| && c < |s.cnodes|
  {
    s.(used := DropAll(s.used, ChargeChain(s.parents, s.cnodes[c].account)))
  }

  ghost function Invalidated(s: State, l: Loc, o: nat): State
    requires o < |s.objs|
  {
    if Names(s.cnodes, l, o)
    then s.(cnodes := SetSlot(s.cnodes, l, Cleared(SlotAt(s.cnodes, l))),
            objs := s.objs[o := s.objs[o].(slotsLeft := Dec(s.objs[o].slotsLeft))])
    else s
  }

  /** Delete's order, invalidate's order and move's order of the steps all amount to one drop. */
  lemma DropOrders(s: State, l: Loc, m: Loc, o: nat)
    requires Shaped(s) && Names(s.cnodes, l, o)
    ensures Invalidated(Refunded(Unlinked(s, o, l), l.cnode), l, o) == Drop(s, l)
    ensures Unlinked(Invalidated(Refunded(s, l.cnode), l, o), o, l) == Drop(s, l)
    ensures Invalidated(Refunded(Wire(Unlinked(s, o, l), o, m), l.cnode), l, o) == Wire(Drop(s, l), o, m)
  {
  }

  lemma MoveKeepsInv(s: State, c: nat, i: nat, g: nat)
    requires Inv(s)
    ensures Inv(CapOps.Move(s, c, i, g).state)
    ensures CapOps.Move(s, c, i, g).status != Ok ==> CapOps.Move(s, c, i, g).state == s
  {
    MoveIsEffects(s, c, i, g);
    MoveAtomic(s, c, i, g);
  }

  /** Scanning under the lock and releasing it is the invalidate on the unlocked CNode. */
  lemma ScanUnderLock(s: State, c: nat, o: nat, max: nat)
    requires Shaped(s) && c < |s.cnodes| && o < |s.objs| && !s.cnodes[c].locked
    ensures var u := WithLock(s, c, true);
            && Shaped(u) && c < |u.cnodes|
            && ScanTargets(u, c, o, 0, max) == InvalidateTargets(s, c, o, max)
            && var t := DropEach(u, ScanTargets(u, c, o, 0, max));
            && c < |t.cnodes| && WithLock(t, c, false) == Invalidate(s, c, o, max)
  {
    var u, ls := WithLock(s, c, true), InvalidateTargets(s, c, o, max);
    LockKeepsSlots(s, c, true);
    MatchingSame(s.cnodes, u.cnodes, c, o, 0);
    LockCommutes(s, c, true, ls);
    DropEachLocks(s, ls, c);
    var t := DropEach(s, ls);
    assert WithLock(WithLock(t, c, true), c, false) == t;
  }

  lemma {:induction false} DropEachLocks(s: State, ls: seq<Loc>, c: nat)
    requires Shaped(s) && c < |s.cnodes| && NoDup(ls) && AllOccupied(s.cnodes, ls)
    ensures c < |DropEach(s, ls).cnodes| && DropEach(s, ls).cnodes[c].locked == s.cnodes[c].locked
    decreases |ls|
  {
    if ls == [] {
    } else {
      DropShaped(s, ls[0]);
      assert forall k :: 0 <= k < |ls[1..]| ==> ls[1..][k] == ls[k + 1];
      DropEachLocks(Drop(s, ls[0]), ls[1..], c);
    }
  }

  ghost function ClearedLocked(s: State, l: Loc, o: nat): (r: State)
    requires Shaped(s) && o < |s.objs| && Names(s.cnodes, l, o)
    ensures o < |r.chains|
  {
    LockKeepsSlots(s, l.cnode, true);
    WithLock(Invalidated(Refunded(WithLock(s, l.cnode, true), l.cnode), l, o), l.cnode, false)
  }

  /** An edge at position `p` of the list of `o` names slot `l`, which names `o` in a free CNode. */
  ghost predicate Droppable(s: State, l: Loc, o: nat, p: nat) {
    && Names(s.cnodes, l, o) && !s.cnodes[l.cnode].locked && s.poolUsed > 0
    && o < |s.chains| && NoDup(s.chains[o]) && p < |s.chains[o]| && s.chains[o][p] == l
  }

  /** All of a drop is done except taking out the edge. */
  ghost predicate AllButUnlinked(s: State, t: State, l: Loc, o: nat, p: nat) {
    && o < |t.chains| && p < |t.chains[o]| && t.poolUsed > 0
    && Shaped(s) && Occupied(s.cnodes, l)
    && UnlinkedAt(t, o, p) == Drop(s, l)
  }

  /** The walk's order of the steps, taken under the CNode's lock. */
  lemma DropUnderLock(s: State, l: Loc, o: nat, p: nat)
    requires Shaped(s) && o < |s.objs| && Droppable(s, l, o, p)
    ensures AllButUnlinked(s, ClearedLocked(s, l, o), l, o, p)
  {
    LockKeepsSlots(s, l.cnode, true);
    var slot := Cleared(SlotAt(s.cnodes, l));
    var cn := WithLock(s, l.cnode, true).cnodes;
    assert SetSlot(cn, l, slot)[l.cnode := SetSlot(cn, l, slot)[l.cnode].(locked := false)] == SetSlot(s.cnodes, l,
                   slot);
    WithoutIsRemoveAt(s.chains[o], p);
  }

  class Kernel {
    const cnodes: seq<CNodeTable>
    const objs: array<Obj>
    const pool: Pool
    const ledger: Ledger

    /** Bind tables, headers, pool and accounts into one space. Freshly initialised, they satisfy the invariant. */
    constructor (tables: seq<CNodeTable>, headers: array<Obj>, edges: Pool, accounts: Ledger)
      requires forall c, d :: 0 <= c < d < |tables| ==> tables[c] != tables[d] && tables[c].slots != tables[d].slots
      requires edges.heads != accounts.parents
      requires edges.Valid() && accounts.Valid() && |edges.chains| == edges.heads.Length == headers.Length
      ensures Valid()
      ensures cnodes == tables && objs == headers && pool == edges && ledger == accounts
      ensures Fresh(tables, headers, edges, accounts) ==> Initial(Abs()) && Inv(Abs())
    {
      cnodes, objs, pool, ledger := tables, headers, edges, accounts;
      new;
      if Fresh(tables, headers, edges, accounts) {
        FreshIsInitial(Abs());
        InitialInv(Abs());
      }
    }

    ghost predicate Distinct() {
      && (forall c, d :: 0 <= c < d < |cnodes| ==> cnodes[c] != cnodes[d] && cnodes[c].slots != cnodes[d].slots)
      && pool.heads != ledger.parents
    }

    ghost predicate Valid()
      reads pool, pool.edges, pool.used, pool.heads, ledger.parents
    {
      && Distinct()
      && pool.Valid()
      && ledger.Valid()
      && |pool.chains| == pool.heads.Length == objs.Length
    }

    ghost function Views(): (r: seq<CNode>)
      reads cnodes, set c | c in cnodes :: c.slots
      ensures |r| == |cnodes|
    {
      seq(|cnodes|, c requires 0 <= c < |cnodes| reads cnodes, set c | c in cnodes :: c.slots => cnodes[c].View())
    }

    /** The heap as a value. */
    ghost function Abs(): State
      reads cnodes, set c | c in cnodes :: c.slots
      reads objs, pool, ledger.limits, ledger.used, ledger.parents
    {
      State(Views(), objs[..], pool.chains, pool.usedCount, pool.edges.Length,
            ledger.limits[..], ledger.used[..], ledger.parents[..])
    }

    // ---- Primitive writes.

    method WriteSlot(c: nat, i: nat, slot: Slot)
      requires Valid() && c < |cnodes| && i < cnodes[c].slots.Length
      modifies cnodes[c].slots
      ensures Valid()
      ensures Abs() == old(Abs()).(cnodes := SetSlot(old(Abs()).cnodes, Loc(c, i), slot))
    {
      ghost var before := Views();
      cnodes[c].slots[i] := slot;
      assert Views() == SetSlot(before, Loc(c, i), slot);
    }

    method WriteObj(o: nat, obj: Obj)
      requires Valid() && o < objs.Length
      modifies objs
      ensures Valid()
      ensures Abs() == old(Abs()).(objs := old(Abs()).objs[o := obj])
    {
      objs[o] := obj;
    }

    method Charge(c: nat) returns (ok: bool)
      requires Valid() && c < |cnodes| && InTable(ledger.parents[..], cnodes[c].account)
      modifies ledger.used
      ensures Valid()
      ensures var s := old(Abs());
              var chain := ChargeChain(s.parents, s.cnodes[c].account);
              && ok == HasRoom(s.limits, s.used, chain)
              && Abs() == if ok then s.(used := BumpAll(s.used, chain)) else s
    {
      ghost var s := Abs();
      assert s.cnodes[c].account == cnodes[c].account;
      ok := ledger.Charge(cnodes[c].account);
      assert Abs() == s.(used := ledger.used[..]);
    }

    method Refund(c: nat)
      requires Valid() && c < |cnodes| && InTable(ledger.parents[..], cnodes[c].account)
      modifies ledger.used
      ensures Valid()
      ensures Abs() == Refunded(old(Abs()), c)
    {
      ledger.Refund(cnodes[c].account);
    }

    method UnlinkEdge(o: nat, l: Loc)
      requires Valid() && o < objs.Length
      modifies pool, pool.edges, pool.used, pool.heads
      ensures Valid()
      ensures Abs() == Unlinked(old(Abs()), o, l)
    {
      pool.UnlinkSlot(o, l);
    }

    method WireEdge(o: nat, l: Loc)
      requires Valid() && o < objs.Length
      modifies pool, pool.edges, pool.used, pool.heads
      ensures Valid()
      ensures Abs() == Wire(old(Abs()), o, l)
    {
      ghost var s := Abs();
      var ok := pool.TryWire(o, l);
      assert Abs() == s.(chains := pool.chains, poolUsed := pool.usedCount);
    }

    /** `gj_cap_slot_invalidate_locked`: only a slot that still points at the object is cleared. */
    method InvalidateSlot(c: nat, i: nat, o: nat)
      requires Valid() && c < |cnodes| && i < cnodes[c].slots.Length && o < objs.Length
      modifies cnodes[c].slots, objs
      ensures Valid()
      ensures Abs() == Invalidated(old(Abs()), Loc(c, i), o)
    {
      var slot := cnodes[c].slots[i];
      assert SlotAt(Views(), Loc(c, i)) == slot;
      if slot.typ != CAP_INVALID && slot.obj == Some(o) {
        WriteObj(o, objs[o].(slotsLeft := Dec(objs[o].slotsLeft)));
        WriteSlot(c, i, Cleared(slot));
      }
    }

    // ---- Operations.

    /** Everything an operation may write, apart from CNode locks and accounts. */
    ghost function Tables(): set<object> {
      (set c | c in cnodes :: c.slots as object) + {objs, ledger.used, pool, pool.edges, pool.used, pool.heads}
    }

    /** `gj_cap_resolve`. */
    method Resolve(c: nat, i: nat, g: nat) returns (r: Resolved)
      requires Valid() && Shaped(Abs())
      ensures r == CapOps.Resolve(Abs(), c, i, g)
    {
      if c >= |cnodes| || cnodes[c].slots.Length == 0 || g == 0 || i >= cnodes[c].slots.Length {
        return NotResolved(ErrInval);
      }
      var slot := cnodes[c].slots[i];
      assert SlotAt(Views(), Loc(c, i)) == slot;
      if slot.typ == CAP_INVALID {
        return NotResolved(ErrNoEnt);
      }
      if slot.gen != g || slot.obj.None? {
        return NotResolved(ErrStale);
      }
      var st := CheckLive(objs[slot.obj.value], slot.objGen);
      if st != Ok {
        return NotResolved(st);
      }
      r := Resolved(Ok, slot.typ, slot.rights, slot.obj.value);
    }

    /** `gj_cap_slot_install`: all checks, the quota charge last, then the writes. */
    method Install(c: nat, i: nat, typ: nat, rights: Rights, o: nat) returns (st: Status, ref: Option<Ref>)
      requires Valid() && Shaped(Abs())
      modifies Tables()
      ensures Valid()
      ensures Outcome(Abs(), st, ref) == CapOps.Install(old(Abs()), c, i, typ, rights, o)
    {
      ref := None;
      if c >= |cnodes| || o >= objs.Length {
        return ErrInval, None;
      }
      if cnodes[c].slots.Length == 0 || i >= cnodes[c].slots.Length {
        return ErrInval, None;
      }
      if typ == CAP_INVALID {
        return ErrInval, None;
      }
      if !objs[o].life.Live? {
        return ErrDead, None;
      }
      var objGen := objs[o].gen;
      if objGen == 0 {
        return ErrInval, None;
      }
      if i == SLOT_ROOT_META && typ != CAP_ROOT_META {
        return ErrPerm, None;
      }
      if i != SLOT_ROOT_META && typ == CAP_ROOT_META {
        return ErrPerm, None;
      }
      if cnodes[c].slots[i].typ != CAP_INVALID {
        return ErrBusy, None;
      }
      if !objs[o].life.Live? || objs[o].gen != objGen {
        return ErrDead, None;
      }
      if objs[o].slotsLeft == U32_MAX {
        return ErrQuota, None;
      }
      st, ref := ChargeAndFill(c, i, typ, rights, o);
    }

    method ChargeAndFill(c: nat, i: nat, typ: nat, rights: Rights, o: nat) returns (st: Status, ref: Option<Ref>)
      requires Valid() && Shaped(Abs()) && c < |cnodes| && i < cnodes[c].slots.Length && o < objs.Length
      modifies Tables()
      ensures Valid()
      ensures var s := old(Abs());
              if HasRoom(s.limits, s.used, ChargeChain(s.parents, s.cnodes[c].account))
              then st == Ok && Abs() == Place(s, Loc(c, i), typ, rights, o) &&
                   ref == Some(Ref(i, s.cnodes[c].slots[i].gen))
              else st == ErrQuota && Abs() == s && ref == None
    {
      assert cnodes[c] in cnodes;
      ghost var s := Abs();
      assert InTable(s.parents, s.cnodes[c].account);
      var ok := Charge(c);
      if !ok {
        return ErrQuota, None;
      }
      var slot := cnodes[c].slots[i];
      assert SlotAt(s.cnodes, Loc(c, i)) == slot;
      WriteSlot(c, i, Slot(typ, rights, slot.gen, objs[o].gen, Some(o)));
      WriteObj(o, objs[o].(slotsLeft := Inc32(objs[o].slotsLeft)));
      return Ok, Some(Ref(i, slot.gen));
    }

    /** `gj_cap_alloc_install`: first free slot from 1 up; root meta only at slot 0. */
    method AllocInstall(c: nat, typ: nat, rights: Rights, o: nat) returns (st: Status, ref: Option<Ref>)
      requires Valid() && Shaped(Abs())
      modifies Tables()
      ensures Valid()
      ensures Outcome(Abs(), st, ref) == CapOps.AllocInstall(old(Abs()), c, typ, rights, o)
    {
      if c >= |cnodes| || o >= objs.Length || cnodes[c].slots.Length == 0 || typ == CAP_INVALID {
        return ErrInval, None;
      }
      if typ == CAP_ROOT_META {
        st, ref := Install(c, SLOT_ROOT_META, typ, rights, o);
        return;
      }
      var i := FindFree(c);
      if i == cnodes[c].slots.Length {
        return ErrQuota, None;
      }
      st, ref := Install(c, i, typ, rights, o);
    }

    method FindFree(c: nat) returns (i: nat)
      requires c < |cnodes| && cnodes[c].slots.Length > 0
      ensures i == FirstFree(cnodes[c].slots[..], 1)
    {
      i := 1;
      while i < cnodes[c].slots.Length && cnodes[c].slots[i].typ != CAP_INVALID
        invariant 1 <= i <= cnodes[c].slots.Length
        invariant FirstFree(cnodes[c].slots[..], 1) == FirstFree(cnodes[c].slots[..], i)
      {
        i := i + 1;
      }
    }

    /** Install and wire: the common tail of mint and copy. A pool miss does not fail the operation. */
    method DeriveInto(c: nat, typ: nat, rights: Rights, o: nat) returns (st: Status, ref: Option<Ref>)
      requires Valid() && Shaped(Abs())
      modifies Tables()
      ensures Valid()
      ensures Outcome(Abs(), st, ref) == CapOps.DeriveInto(old(Abs()), c, typ, rights, o)
    {
      ghost var a := CapOps.AllocInstall(Abs(), c, typ, rights, o);
      AllocatedInTable(Abs(), c, typ, rights, o);
      st, ref := AllocInstall(c, typ, rights, o);
      if st == Ok {
        assert Abs() == a.state;
        WireEdge(o, Loc(c, ref.value.slot));
      }
    }

    /** `gj_cap_mint`. */
    method Mint(c: nat, i: nat, g: nat, rights: Rights, dst: Option<nat>) returns (st: Status, ref: Option<Ref>)
      requires Valid() && Inv(Abs())
      modifies Tables()
      ensures Valid() && Inv(Abs())
      ensures Outcome(Abs(), st, ref) == CapOps.Mint(old(Abs()), c, i, g, rights, dst)
      ensures st != Ok ==> Abs() == old(Abs())
    {
      ghost var s := Abs();
      MintIsEffects(s, c, i, g, rights, dst);
      MintAtomic(s, c, i, g, rights, dst);
      st, ref := MintSteps(c, i, g, rights, dst);
    }

    method MintSteps(c: nat, i: nat, g: nat, rights: Rights, dst: Option<nat>) returns (st: Status, ref: Option<Ref>)
      requires Valid() && Shaped(Abs())
      modifies Tables()
      ensures Valid()
      ensures Outcome(Abs(), st, ref) == CapOps.Mint(old(Abs()), c, i, g, rights, dst)
    {
      var r := Resolve(c, i, g);
      if r.status != Ok {
        return r.status, None;
      }
      if RIGHT_MINT !in r.rights {
        return ErrPerm, None;
      }
      var weaker := r.rights * rights;
      if weaker == {} {
        return ErrPerm, None;
      }
      st, ref := DeriveInto(MintTarget(c, dst), r.typ, weaker, r.obj);
    }

    /** `gj_cap_copy`. */
    method Copy(c: nat, i: nat, g: nat, rights: Rights) returns (st: Status, ref: Option<Ref>)
      requires Valid() && Inv(Abs())
      modifies Tables()
      ensures Valid() && Inv(Abs())
      ensures Outcome(Abs(), st, ref) == CapOps.Copy(old(Abs()), c, i, g, rights)
      ensures st != Ok ==> Abs() == old(Abs())
    {
      ghost var s := Abs();
      CopyIsEffects(s, c, i, g, rights);
      CopyAtomic(s, c, i, g, rights);
      st, ref := CopySteps(c, i, g, rights);
    }

    method CopySteps(c: nat, i: nat, g: nat, rights: Rights) returns (st: Status, ref: Option<Ref>)
      requires Valid() && Shaped(Abs())
      modifies Tables()
      ensures Valid()
      ensures Outcome(Abs(), st, ref) == CapOps.Copy(old(Abs()), c, i, g, rights)
    {
      var r := Resolve(c, i, g);
      if r.status != Ok {
        return r.status, None;
      }
      if RIGHT_GRANT !in r.rights {
        return ErrPerm, None;
      }
      st, ref := DeriveInto(c, r.typ, r.rights * CopyMask(r.rights, rights), r.obj);
    }

    /** Unlink, refund and invalidate one slot: the common tail of move and delete. */
    method DropSlot(c: nat, i: nat, o: nat)
      requires Valid() && Shaped(Abs()) && Names(Abs().cnodes, Loc(c, i), o)
      modifies Tables()
      ensures Valid()
      ensures Abs() == Drop(old(Abs()), Loc(c, i))
    {
      ghost var s := Abs();
      assert cnodes[c] in cnodes && InTable(s.parents, s.cnodes[c].account);
      DropOrders(s, Loc(c, i), Loc(c, i), o);
      UnlinkEdge(o, Loc(c, i));
      Refund(c);
      InvalidateSlot(c, i, o);
    }

    /** `gj_cap_delete`. */
    method Delete(c: nat, i: nat, g: nat) returns (st: Status)
      requires Valid() && Inv(Abs())
      modifies Tables()
      ensures Valid() && Inv(Abs())
      ensures Outcome(Abs(), st, None) == CapOps.Delete(old(Abs()), c, i, g)
      ensures st != Ok ==> Abs() == old(Abs())
    {
      var r := Resolve(c, i, g);
      if r.status != Ok {
        return r.status;
      }
      if i == SLOT_ROOT_META {
        return ErrPerm;
      }
      if RIGHT_DESTROY !in r.rights && RIGHT_GRANT !in r.rights {
        return ErrPerm;
      }
      VacateKeepsInv(Abs(), Loc(c, i));
      DropSlot(c, i, r.obj);
      st := Ok;
    }

    /** `gj_cap_move`: fill the new slot, retarget the edge, then refund and clear the source. */
    method Move(c: nat, i: nat, g: nat) returns (st: Status, ref: Option<Ref>)
      requires Valid() && Inv(Abs())
      modifies Tables()
      ensures Valid() && Inv(Abs())
      ensures Outcome(Abs(), st, ref) == CapOps.Move(old(Abs()), c, i, g)
      ensures st != Ok ==> Abs() == old(Abs())
    {
      MoveKeepsInv(Abs(), c, i, g);
      st, ref := MoveSteps(c, i, g);
    }

    method MoveSteps(c: nat, i: nat, g: nat) returns (st: Status, ref: Option<Ref>)
      requires Valid() && Shaped(Abs())
      modifies Tables()
      ensures Valid()
      ensures Outcome(Abs(), st, ref) == CapOps.Move(old(Abs()), c, i, g)
    {
      ghost var s := Abs();
      MoveAtomic(s, c, i, g);
      var r := Resolve(c, i, g);
      if r.status != Ok {
        return r.status, None;
      }
      if RIGHT_GRANT !in r.rights {
        return ErrPerm, None;
      }
      if i == SLOT_ROOT_META {
        return ErrPerm, None;
      }
      st, ref := AllocInstall(c, r.typ, r.rights, r.obj);
      if st == Ok {
        assert Abs() == CapOps.AllocInstall(s, c, r.typ, r.rights, r.obj).state;
        assert CapOps.Move(s, c, i, g).status == Ok;
        Retarget(c, i, ref.value.slot, r.obj);
      }
    }

    /** Move the edge of a slot to another slot of the same object. */
    method Rewire(o: nat, l: Loc, m: Loc)
      requires Valid() && o < objs.Length
      modifies pool, pool.edges, pool.used, pool.heads
      ensures Valid()
      ensures Abs() == Wire(Unlinked(old(Abs()), o, l), o, m)
    {
      UnlinkEdge(o, l);
      WireEdge(o, m);
    }

    method RefundAndInvalidate(c: nat, i: nat, o: nat)
      requires Valid() && c < |cnodes| && i < cnodes[c].slots.Length && o < objs.Length
      requires InTable(ledger.parents[..], cnodes[c].account)
      modifies cnodes[c].slots, objs, ledger.used
      ensures Valid()
      ensures Abs() == Invalidated(Refunded(old(Abs()), c), Loc(c, i), o)
    {
      Refund(c);
      InvalidateSlot(c, i, o);
    }

    method Retarget(c: nat, i: nat, j: nat, o: nat)
      requires Valid() && Shaped(Abs()) && Names(Abs().cnodes, Loc(c, i), o)
      modifies Tables()
      ensures Valid()
      ensures Abs() == Wire(Drop(old(Abs()), Loc(c, i)), o, Loc(c, j))
    {
      ghost var s := Abs();
      assert cnodes[c] in cnodes && InTable(s.parents, s.cnodes[c].account);
      DropOrders(s, Loc(c, i), Loc(c, j), o);
      Rewire(o, Loc(c, i), Loc(c, j));
      RefundAndInvalidate(c, i, o);
    }

    // ---- Clearing the slots of a dead object.

    method TryLock(c: nat) returns (taken: bool)
      requires Valid() && c < |cnodes|
      modifies cnodes[c]
      ensures Valid()
      ensures taken == !old(Abs()).cnodes[c].locked
      ensures Abs() == WithLock(old(Abs()), c, true)
    {
      ghost var before := Views();
      taken := cnodes[c].TryLock();
      assert Views() == before[c := before[c].(locked := true)];
    }

    method Unlock(c: nat)
      requires Valid() && c < |cnodes|
      modifies cnodes[c]
      ensures Valid()
      ensures Abs() == WithLock(old(Abs()), c, false)
    {
      ghost var before := Views();
      cnodes[c].Unlock();
      assert Views() == before[c := before[c].(locked := false)];
    }

    /** Refund, invalidate, then drop the edge of one slot, in the order the bounded scan uses. */
    method ClearSlot(c: nat, i: nat, o: nat)
      requires Valid() && Shaped(Abs()) && Names(Abs().cnodes, Loc(c, i), o)
      modifies Tables()
      ensures Valid()
      ensures Abs() == Drop(old(Abs()), Loc(c, i))
    {
      ghost var s := Abs();
      assert cnodes[c] in cnodes && InTable(s.parents, s.cnodes[c].account);
      DropOrders(s, Loc(c, i), Loc(c, i), o);
      Refund(c);
      InvalidateSlot(c, i, o);
      UnlinkEdge(o, Loc(c, i));
    }

    /** `gj_cnode_invalidate_obj_slots`: under the soft lock, clear at most `max` slots naming `o`. */
    method InvalidateObj(c: nat, o: nat, max: nat) returns (cleared: nat)
      requires Valid() && Shaped(Abs())
      modifies Tables(), cnodes
      ensures Valid()
      ensures Abs() == CapOps.Invalidate(old(Abs()), c, o, max)
      ensures cleared == |InvalidateTargets(old(Abs()), c, o, max)|
    {
      if c >= |cnodes| || o >= objs.Length || max == 0 {
        return 0;
      }
      ghost var s := Abs();
      LockKeepsSlots(s, c, true);
      var taken := TryLock(c);
      if !taken {
        assert WithLock(s, c, true) == s;
        return 0;
      }
      cleared := ScanAndClear(c, o, max);
      ScanUnderLock(s, c, o, max);
      Unlock(c);
    }

    method ScanAndClear(c: nat, o: nat, max: nat) returns (cleared: nat)
      requires Valid() && Shaped(Abs()) && c < |cnodes| && o < objs.Length
      modifies Tables()
      ensures Valid()
      ensures Abs() == DropEach(old(Abs()), ScanTargets(old(Abs()), c, o, 0, max))
      ensures cleared == |ScanTargets(old(Abs()), c, o, 0, max)|
    {
      ghost var s := Abs();
      ghost var goal, count := DropEach(s, ScanTargets(s, c, o, 0, max)), |ScanTargets(s, c, o, 0, max)|;
      var i := 0;
      cleared := 0;
      while i < cnodes[c].slots.Length && cleared < max
        invariant Valid() && i <= cnodes[c].slots.Length
        invariant Scanning(Abs(), goal, count, c, o, i, cleared, max)
      {
        i, cleared := ScanStep(c, i, o, cleared, max, goal, count);
      }
      ScanningEnd(Abs(), goal, count, c, o, i, cleared, max);
    }

    method ScanStep(c: nat, i: nat, o: nat, cleared: nat, max: nat, ghost goal: State, ghost count: nat)
      returns (i': nat, cleared': nat)
      requires Valid() && c < |cnodes| && i < cnodes[c].slots.Length && o < objs.Length && cleared < max
      requires Scanning(Abs(), goal, count, c, o, i, cleared, max)
      modifies Tables()
      ensures Valid() && i' == i + 1
      ensures Scanning(Abs(), goal, count, c, o, i', cleared', max)
    {
      i' := i + 1;
      var slot := cnodes[c].slots[i];
      assert SlotAt(Abs().cnodes, Loc(c, i)) == slot;
      if slot.typ != CAP_INVALID && slot.obj == Some(o) {
        cleared' := cleared + 1;
        ScanningHit(Abs(), goal, count, c, o, i, cleared, max, i', cleared');
        ClearSlot(c, i, o);
      } else {
        cleared' := cleared;
        ScanningMiss(Abs(), goal, count, c, o, i, cleared, max, i');
      }
    }

    // ---- Walking the derivation index.

    /** Edge `e` stands at position `p` of the list of `o` and names slot `l`. */
    ghost predicate EdgeAt(o: nat, e: nat, l: Loc, p: nat)
      reads pool
    {
      && o < |pool.lists| && p < |pool.lists[o]| && pool.lists[o][p] == e
      && o < |pool.chains| && p < |pool.chains[o]| && pool.chains[o][p] == l
      && pool.usedCount > 0
    }

    method UnlinkEdgeAt(o: nat, e: nat, l: Loc, ghost p: nat)
      requires Valid() && o < objs.Length && EdgeAt(o, e, l, p)
      modifies pool, pool.edges, pool.used, pool.heads
      ensures Valid() && |pool.chains[o]| == |pool.lists[o]|
      ensures pool.lists[o] == RemoveAt(old(pool.lists[o]), p)
      ensures Abs() == UnlinkedAt(old(Abs()), o, p)
    {
      ghost var s := Abs();
      pool.UnlinkAt(o, e, p);
      assert Abs().chains == UnlinkedAt(s, o, p).chains;
      assert Abs().cnodes == s.cnodes && Abs().used == s.used && Abs().parents == s.parents;
    }

    /** Refund and invalidate a slot under its CNode's lock. */
    method ClearLocked(l: Loc, o: nat)
      requires Valid() && Shaped(Abs()) && o < objs.Length && Names(Abs().cnodes, l, o)
      requires l.cnode < |cnodes| && InTable(ledger.parents[..], cnodes[l.cnode].account)
      modifies cnodes[l.cnode], cnodes[l.cnode].slots, objs, ledger.used
      ensures Valid()
      ensures Abs() == ClearedLocked(old(Abs()), l, o)
    {
      var taken := TryLock(l.cnode);
      assert Views()[l.cnode].account == cnodes[l.cnode].account;
      Refund(l.cnode);
      InvalidateSlot(l.cnode, l.slot, o);
      Unlock(l.cnode);
    }

    method ClearNamed(l: Loc, o: nat, ghost p: nat)
      requires Valid() && Shaped(Abs()) && o < objs.Length && Droppable(Abs(), l, o, p)
      modifies cnodes, set c | c in cnodes :: c.slots, objs, ledger.used
      ensures Valid()
      ensures AllButUnlinked(old(Abs()), Abs(), l, o, p)
    {
      ghost var s := Abs();
      assert cnodes[l.cnode] in cnodes && InTable(s.parents, s.cnodes[l.cnode].account);
      DropUnderLock(s, l, o, p);
      ClearLocked(l, o);
    }

    /** Clear the slot an edge names, under its CNode's lock, then unlink the edge. */
    method ClearEdge(o: nat, e: nat, l: Loc, ghost p: nat)
      requires Valid() && Shaped(Abs()) && o < objs.Length && EdgeAt(o, e, l, p) && Droppable(Abs(), l, o, p)
      modifies Tables(), cnodes
      ensures Valid() && |pool.chains[o]| == |pool.lists[o]|
      ensures pool.lists[o] == RemoveAt(old(pool.lists[o]), p)
      ensures Abs() == Drop(old(Abs()), l)
    {
      ClearNamed(l, o, p);
      UnlinkEdgeAt(o, e, l, p);
    }

    method VisitFree(o: nat, e: nat, l: Loc, busy: nat, cleared: nat, visited: nat, max: nat, cap: nat,
                     held: seq<set<nat>>, ghost end: Point, ghost locks: seq<bool>)
      returns (cleared': nat, visited': nat)
      requires Valid() && o < objs.Length && cleared < max && visited < cap && EdgeAt(o, e, l, busy)
      requires Passing(Abs(), end, o, busy, cleared, visited, max, cap, held, locks) && Granted(locks, held, visited, l)
      modifies Tables(), cnodes
      ensures Valid() && cleared' == cleared + 1 && visited' == visited + 1
      ensures Passing(Abs(), end, o, busy, cleared', visited', max, cap, held, locks)
      ensures |pool.chains[o]| == |pool.lists[o]| && pool.lists[o] == RemoveAt(old(pool.lists[o]), busy)
    {
      cleared', visited' := cleared + 1, visited + 1;
      EdgeNames(Abs(), o, busy);
      PassingClear(Abs(), Drop(Abs(), l), l, end, o, busy, cleared, visited, max, cap, held, locks, cleared', visited');
      ClearEdge(o, e, l, busy);
    }

    lemma ReadFacts(o: nat, e: nat, p: nat)
      requires Valid() && o < objs.Length && Indexed(Abs()) && p < |pool.lists[o]| && pool.lists[o][p] == e
      ensures e < pool.edges.Length && pool.edges[e].target.Some?
      ensures var l := pool.edges[e].target.value;
              && EdgeAt(o, e, l, p) && |pool.lists[o]| == |pool.chains[o]|
              && l.cnode < |cnodes| == |Locks(Abs().cnodes)| && Locks(Abs().cnodes)[l.cnode] == cnodes[l.cnode].locked
      ensures pool.edges[e].next == First(pool.lists[o][p + 1..])
    {
      pool.ReadFacts(o, e, p);
      assert Names(Views(), Abs().chains[o][p], o);
    }

    /**
     One edge of a pass: the edge of a busy CNode is passed over, that of a free one cleared. A
     CNode is busy if its lock word is set or another processor holds it at this visit.
     */
    method WalkVisit(o: nat, e: nat, busy: nat, cleared: nat, visited: nat, max: nat, cap: nat, held: seq<set<nat>>,
                     ghost end: Point, ghost locks: seq<bool>)
      returns (next: Option<nat>, busy': nat, cleared': nat, visited': nat)
      requires Valid() && o < objs.Length && cleared < max && visited < cap
      requires Passing(Abs(), end, o, busy, cleared, visited, max, cap, held, locks)
      requires busy < |pool.lists[o]| && pool.lists[o][busy] == e
      modifies Tables(), cnodes
      ensures Valid() && visited' == visited + 1 && busy' + cleared' == busy + cleared + 1
      ensures Passing(Abs(), end, o, busy', cleared', visited', max, cap, held, locks)
      ensures busy' <= |pool.lists[o]| == |pool.chains[o]| && next == First(pool.lists[o][busy'..])
    {
      ReadFacts(o, e, busy);
      var l := pool.edges[e].target.value;
      next := pool.edges[e].next;
      if cnodes[l.cnode].locked || (visited < |held| && l.cnode in held[visited]) {
        busy', cleared', visited' := busy + 1, cleared, visited + 1;
        PassingBusy(Abs(), end, o, busy, cleared, visited, max, cap, held, locks, busy', visited');
      } else {
        busy' := busy;
        ghost var list := pool.lists[o];
        cleared', visited' := VisitFree(o, e, l, busy, cleared, visited, max, cap, held, end, locks);
        assert RemoveAt(list, busy)[busy..] == list[busy + 1..];
      }
    }

    /** One pass over the list. */
    method WalkPass(o: nat, cleared0: nat, visited0: nat, max: nat, cap: nat, held: seq<set<nat>>,
                    ghost end: Point, ghost locks: seq<bool>)
      returns (busy: nat, cleared: nat, visited: nat)
      requires Valid() && o < objs.Length
      requires Passing(Abs(), end, o, 0, cleared0, visited0, max, cap, held, locks)
      modifies Tables(), cnodes
      ensures Valid() && Indexed(Abs()) && Locks(Abs().cnodes) == locks
      ensures busy + cleared - cleared0 == visited - visited0
      ensures end == Point(Abs(), Abs().chains[o], cleared, visited)
    {
      pool.HeadFacts(o);
      var e := pool.heads[o];
      assert pool.lists[o][0..] == pool.lists[o];
      busy, cleared, visited := WalkEdges(o, e, cleared0, visited0, max, cap, held, end, locks);
      PassingEnd(Abs(), end, o, busy, cleared, visited, max, cap, held, locks);
    }

    method WalkEdges(o: nat, head: Option<nat>, cleared0: nat, visited0: nat, max: nat, cap: nat, held: seq<set<nat>>,
                     ghost end: Point, ghost locks: seq<bool>)
      returns (busy: nat, cleared: nat, visited: nat)
      requires Valid() && o < objs.Length
      requires Passing(Abs(), end, o, 0, cleared0, visited0, max, cap, held, locks)
      requires |pool.lists[o]| == |pool.chains[o]| && head == First(pool.lists[o][0..])
      modifies Tables(), cnodes
      ensures Valid() && busy + cleared - cleared0 == visited - visited0
      ensures Passing(Abs(), end, o, busy, cleared, visited, max, cap, held, locks)
      ensures busy == |pool.chains[o]| || cleared == max || visited == cap
    {
      busy, cleared, visited := 0, cleared0, visited0;
      var e := head;
      while e.Some? && cleared < max && visited < cap
        invariant Valid() && busy + cleared - cleared0 == visited - visited0
        invariant Passing(Abs(), end, o, busy, cleared, visited, max, cap, held, locks)
        invariant busy <= |pool.lists[o]| == |pool.chains[o]| && e == First(pool.lists[o][busy..])
        decreases cap - visited
      {
        e, busy, cleared, visited := WalkVisit(o, e.value, busy, cleared, visited, max, cap, held, end, locks);
      }
    }

    /** The walk of `o` has reached `at`. */
    ghost predicate StandsAt(at: Point, o: nat, cleared: nat, visited: nat, locks: seq<bool>)
      reads Tables(), cnodes, ledger.parents, ledger.limits
    {
      && Valid() && o < objs.Length && Indexed(Abs()) && Locks(Abs().cnodes) == locks
      && at == Point(Abs(), Abs().chains[o], cleared, visited)
    }

    /** A pass of the walk, after which the walk is over or goes on. */
    method WalkOnce(o: nat, cleared0: nat, visited0: nat, max: nat, cap: nat, held: seq<set<nat>>, ghost at: Point,
                    ghost goal: State, ghost count: nat, ghost locks: seq<bool>, ghost n: nat, ghost n': nat)
      returns (more: bool, cleared: nat, visited: nat, ghost end: Point)
      requires StandsAt(at, o, cleared0, visited0, locks) && Walking(at, goal, count, max, cap, held, locks, n)
      requires n == n' + 1 && cleared0 < max && visited0 < cap
      modifies Tables(), cnodes
      ensures StandsAt(end, o, cleared, visited, locks)
      ensures !more ==> end.state == goal && end.cleared == count
      ensures more ==> Walking(end, goal, count, max, cap, held, locks, n')
    {
      ghost var p;
      p, end := WalkingPass(at, goal, count, max, cap, held, locks, n, n');
      PassingStart(at, p, end, o, max, cap, held, locks);
      var busy;
      busy, cleared, visited := WalkPass(o, cleared0, visited0, max, cap, held, end, locks);
      more := busy != 0;
    }

    /**
     `gj_revoke_cdt_walk_batch`: a pass, and up to three retries as long as the last pass met a busy
     CNode. `held` lists the CNodes other processors hold at each visit.
     */
    method WalkBatch(o: nat, max: nat, held: seq<set<nat>>) returns (cleared: nat)
      requires Valid() && Shaped(Abs()) && Indexed(Abs())
      modifies Tables(), cnodes
      ensures Valid()
      ensures Abs() == CapOps.WalkIndex(old(Abs()), o, max, held)
      ensures cleared == |WalkTargets(old(Abs()), o, max, held)|
    {
      if o >= objs.Length || max == 0 {
        return 0;
      }
      ghost var s := Abs();
      ghost var goal, count, locks := CapOps.WalkIndex(s, o, max, held), |WalkTargets(s, o, max, held)|,
                                                       Locks(s.cnodes);
      var cap := VisitCap(max);
      WalkingStart(s, o, max, held, SOFT_RETRY_MAX + 1);
      cleared := WalkPasses(o, max, cap, held, Point(s, s.chains[o], 0, 0), goal, count, locks, SOFT_RETRY_MAX + 1);
    }

    method WalkPasses(o: nat, max: nat, cap: nat, held: seq<set<nat>>, ghost at0: Point, ghost goal: State,
                      ghost count: nat, ghost locks: seq<bool>, passes: nat)
      returns (cleared: nat)
      requires StandsAt(at0, o, 0, 0, locks) && Walking(at0, goal, count, max, cap, held, locks, passes)
      modifies Tables(), cnodes
      ensures Valid() && Abs() == goal && cleared == count
    {
      var pass: nat, visited: nat, more := 0, 0, true;
      cleared := 0;
      ghost var n: nat, at := passes, at0;
      while pass < passes && cleared < max && visited < cap && more
        invariant StandsAt(at, o, cleared, visited, locks) && n == passes - pass
        invariant more ==> Walking(at, goal, count, max, cap, held, locks, n)
        invariant !more ==> at.state == goal && at.cleared == count
        decreases passes - pass
      {
        ghost var n' := n - 1;
        more, cleared, visited, at := WalkOnce(o, cleared, visited, max, cap, held, at, goal, count, locks, n, n');
        pass, n := pass + 1, n';
      }
      if more {
        WalkingEnd(at, goal, count, max, cap, held, locks, n);
      }
    }
  }
}
