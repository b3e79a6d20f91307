/**
 What a caller of the capability operations sees: for each of them exactly when it succeeds, which slot it fills or
 empties with what, what happens to counts, accounts and lists, and which error answers which mistake. Nothing here
 is said through the functions that make up an operation. Bits, types and bounds are written out: GRANT, MINT and
 DESTROY are bits 2, 3 and 4, type 0 is a free slot, type 14 the root capability, and a charge goes eight accounts up.
 */
module CapAnswers {
  import opened Words
  import opened EdgePool
  import opened QuotaLedger
  import opened CapState
  import opened CapOps
  import opened CapInvariant
  import opened CapRuns

  // ---- Accounts.

  /** The account `j` links above `a`. */
  ghost function AccountAbove(parents: Parents, a: Option<nat>, j: nat): Option<nat>
    decreases j
  {
    if a.None? || a.value >= |parents| then None
    else if j == 0 then a
    else AccountAbove(parents, parents[a.value], j - 1)
  }

  /** A slot of CNode `c` is charged to account `a`: its own, or one of the seven above it. */
  ghost predicate Pays(s: State, c: nat, a: nat) {
    c < |s.cnodes| && exists j :: 0 <= j < 8 && AccountAbove(s.parents, s.cnodes[c].account, j) == Some(a)
  }

  lemma {:induction false} OnChainAbove(parents: Parents, a: Option<nat>, n: nat, x: nat) returns (j: nat)
    requires x in Chain(parents, a, n)
    ensures j < n && AccountAbove(parents, a, j) == Some(x)
    decreases n
  {
    if a == Some(x) {
      j := 0;
    } else {
      assert Chain(parents, a, n) == [a.value] + Chain(parents, parents[a.value], n - 1);
      var k := OnChainAbove(parents, parents[a.value], n - 1, x);
      j := k + 1;
    }
  }

  lemma {:induction false} AboveOnChain(parents: Parents, a: Option<nat>, n: nat, x: nat, j: nat)
    requires j < n && AccountAbove(parents, a, j) == Some(x)
    ensures x in Chain(parents, a, n)
    decreases n
  {
    assert Chain(parents, a, n) == [a.value] + Chain(parents, parents[a.value], n - 1);
    if j == 0 {
      assert Chain(parents, a, n)[0] == x;
    } else {
      AboveOnChain(parents, parents[a.value], n - 1, x, j - 1);
    }
  }

  lemma PaysIff(s: State, c: nat, a: nat)
    requires c < |s.cnodes|
    ensures Pays(s, c, a) <==> a in ChargeChain(s.parents, s.cnodes[c].account)
  {
    var x := s.cnodes[c].account;
    if Pays(s, c, a) {
      var j :| 0 <= j < 8 && AccountAbove(s.parents, x, j) == Some(a);
      AboveOnChain(s.parents, x, DEPTH_MAX, a, j);
    }
    if a in ChargeChain(s.parents, x) {
      var j := OnChainAbove(s.parents, x, DEPTH_MAX, a);
    }
  }

  /** Every account a slot of CNode `c` is charged to has room for one more. */
  ghost predicate Solvent(s: State, c: nat) {
    forall a :: 0 <= a < |s.used| && a < |s.limits| && Pays(s, c, a) ==> s.used[a] < s.limits[a]
  }

  lemma SolventIff(s: State, c: nat)
    requires Shaped(s) && c < |s.cnodes|
    ensures Solvent(s, c) <==> HasRoom(s.limits, s.used, ChargeChain(s.parents, s.cnodes[c].account))
  {
    var chain := ChargeChain(s.parents, s.cnodes[c].account);
    forall a
      ensures Pays(s, c, a) <==> a in chain
    {
      if a >= 0 {
        PaysIff(s, c, a);
      }
    }
    if Solvent(s, c) {
      forall i | 0 <= i < |chain|
        ensures s.used[chain[i]] < s.limits[chain[i]]
      {
        assert Pays(s, c, chain[i]);
      }
    }
  }

  // ---- What an operation does to the state, part by part.

  /** Only the slots change: tables keep their sizes, accounts and locks. */
  ghost predicate SameTables(cn: seq<CNode>, cn': seq<CNode>) {
    && |cn'| == |cn|
    && forall c :: 0 <= c < |cn| ==>
         |cn'[c].slots| == |cn[c].slots| && cn'[c].account == cn[c].account && cn'[c].locked == cn[c].locked
  }

  /** Slot `l` becomes `slot` and every other slot stays. */
  ghost predicate OneSlot(cn: seq<CNode>, cn': seq<CNode>, l: Loc, slot: Slot) {
    && SameTables(cn, cn') && InRange(cn, l)
    && forall m :: InRange(cn, m) ==> SlotAt(cn', m) == if m == l then slot else SlotAt(cn, m)
  }

  /** The count of object `o` becomes `n` and nothing else about any object changes. */
  ghost predicate OneCount(objs: seq<Obj>, objs': seq<Obj>, o: nat, n: int) {
    && |objs'| == |objs| && o < |objs|
    && forall x :: 0 <= x < |objs| ==>
         && objs'[x].life == objs[x].life && objs'[x].gen == objs[x].gen
         && objs'[x].slotsLeft == if x == o then n else objs[x].slotsLeft
  }

  /** Every account CNode `c` pays moves by `d`, and no other one. */
  ghost predicate Charged(s: State, t: State, c: nat, d: int) {
    && |t.used| == |s.used|
    && forall a :: 0 <= a < |s.used| ==> t.used[a] == s.used[a] + if Pays(s, c, a) then d else 0
  }

  /** The list of `o` becomes `list`, the others stay, and the pool's counter follows. */
  ghost predicate OneList(s: State, t: State, o: nat, list: seq<Loc>) {
    && |t.chains| == |s.chains| && o < |s.chains|
    && (forall x :: 0 <= x < |s.chains| ==> t.chains[x] == if x == o then list else s.chains[x])
    && t.poolUsed == s.poolUsed + |list| - |s.chains[o]|
  }

  ghost predicate SameBounds(s: State, t: State) {
    t.poolSize == s.poolSize && t.limits == s.limits && t.parents == s.parents
  }

  /** Slot `l` is filled for object `o` and one charge is made; the new slot is listed first if `list` says so. */
  ghost predicate Fills(s: State, t: State, l: Loc, typ: nat, rights: Rights, o: nat, list: seq<Loc>) {
    && InRange(s.cnodes, l) && SlotAt(s.cnodes, l).typ == 0 && o < |s.objs|
    && OneSlot(s.cnodes, t.cnodes, l, Slot(typ, rights, SlotAt(s.cnodes, l).gen, s.objs[o].gen, Some(o)))
    && OneCount(s.objs, t.objs, o, s.objs[o].slotsLeft + 1)
    && Charged(s, t, l.cnode, 1) && OneList(s, t, o, list) && SameBounds(s, t)
  }

  /** The list of `o` with `l` in front, if the pool has an edge left for it. */
  ghost function ListedFirst(s: State, o: nat, l: Loc): seq<Loc>
    requires o < |s.chains|
  {
    if s.poolUsed < s.poolSize then [l] + s.chains[o] else s.chains[o]
  }

  /** `rest` is `list` with the one occurrence of `l`, if there is one, cut out. */
  ghost predicate CutOut(list: seq<Loc>, l: Loc, rest: seq<Loc>) {
    if l in list then exists k :: 0 <= k < |list| && list[k] == l && rest == list[..k] + list[k + 1..]
    else rest == list
  }

  /** A free slot with the generation after `gen`, which skips zero. */
  ghost function Freed(gen: nat): Slot {
    Slot(0, {}, if gen == 0xffff_ffff then 1 else gen + 1, 0, None)
  }

  /** Slot `l`, which holds object `o`, is freed under a new generation and one charge is returned. */
  ghost predicate Empties(s: State, t: State, l: Loc, o: nat, list: seq<Loc>) {
    && InRange(s.cnodes, l) && o < |s.objs| && o < |s.chains|
    && OneSlot(s.cnodes, t.cnodes, l, Freed(SlotAt(s.cnodes, l).gen))
    && OneCount(s.objs, t.objs, o, s.objs[o].slotsLeft - 1)
    && Charged(s, t, l.cnode, -1) && OneList(s, t, o, list) && CutOut(s.chains[o], l, list) && SameBounds(s, t)
  }

  /** The capability at `src` goes to `dst`, which keeps its generation; counts and accounts stay as they were. */
  ghost predicate Moves(s: State, t: State, src: Loc, dst: Loc, o: nat, rest: seq<Loc>) {
    && InRange(s.cnodes, src) && InRange(s.cnodes, dst) && src != dst && o < |s.chains|
    && SameTables(s.cnodes, t.cnodes) && t.objs == s.objs && t.used == s.used && SameBounds(s, t)
    && (forall m :: InRange(s.cnodes, m) ==>
          SlotAt(t.cnodes, m) == if m == dst then SlotAt(s.cnodes, src).(gen := SlotAt(s.cnodes, dst).gen)
                                 else if m == src then Freed(SlotAt(s.cnodes, src).gen) else SlotAt(s.cnodes, m))
    && CutOut(s.chains[o], src, rest)
    && OneList(s, t, o, if src in s.chains[o] || s.poolUsed < s.poolSize then [dst] + rest else rest)
  }

  lemma ChargeOne(s: State, c: nat)
    requires Inv(s) && c < |s.cnodes| && Solvent(s, c)
    ensures var chain := ChargeChain(s.parents, s.cnodes[c].account);
            Charged(s, s.(used := BumpAll(s.used, chain)), c, 1)
  {
    var chain := ChargeChain(s.parents, s.cnodes[c].account);
    ChargeChainNoDup(s.parents, s.cnodes[c].account);
    SolventIff(s, c);
    forall a | 0 <= a < |s.used|
      ensures BumpAll(s.used, chain)[a] == s.used[a] + if Pays(s, c, a) then 1 else 0
    {
      PaysIff(s, c, a);
      BumpAllAt(s.used, chain, a);
    }
  }

  lemma PlaceFills(s: State, l: Loc, typ: nat, rights: Rights, o: nat)
    requires Inv(s) && InRange(s.cnodes, l) && SlotAt(s.cnodes, l).typ == 0 && o < |s.objs|
    requires s.objs[o].slotsLeft < 0xffff_ffff && Solvent(s, l.cnode)
    ensures Fills(s, Place(s, l, typ, rights, o), l, typ, rights, o, s.chains[o])
  {
    ChargeOne(s, l.cnode);
  }

  lemma WireLists(s: State, t: State, l: Loc, typ: nat, rights: Rights, o: nat)
    requires Inv(s) && o < |s.objs| && Fills(s, t, l, typ, rights, o, s.chains[o])
    ensures Fills(s, Wire(t, o, l), l, typ, rights, o, ListedFirst(s, o, l))
  {
    var u := Wire(t, o, l);
    assert Charged(s, u, l.cnode, 1);
  }

  lemma PaidFor(s: State, l: Loc, a: nat)
    requires Inv(s) && Occupied(s.cnodes, l) && a < |s.used| && a in ChargeChain(s.parents, s.cnodes[l.cnode].account)
    ensures s.used[a] > 0
  {
    assert l in ChargedSet(s.cnodes, s.parents, a);
    assert s.used[a] == |ChargedSet(s.cnodes, s.parents, a)|;
  }

  lemma RefundEach(s: State, c: nat, chain: seq<nat>, used: seq<nat>)
    requires c < |s.cnodes| && chain == ChargeChain(s.parents, s.cnodes[c].account) && NoDup(chain)
    requires AllBelow(chain, |s.used|) && used == DropAll(s.used, chain)
    requires forall a :: 0 <= a < |s.used| && a in chain ==> s.used[a] > 0
    ensures Charged(s, s.(used := used), c, -1)
  {
    forall a | 0 <= a < |s.used|
      ensures Pays(s, c, a) <==> a in chain
      ensures used[a] == if a in chain then s.used[a] - 1 else s.used[a]
    {
      PaysIff(s, c, a);
      DropAllAt(s.used, chain, a);
    }
  }

  lemma RefundOne(s: State, l: Loc)
    requires Inv(s) && Occupied(s.cnodes, l)
    ensures var chain := ChargeChain(s.parents, s.cnodes[l.cnode].account);
            Charged(s, s.(used := DropAll(s.used, chain)), l.cnode, -1)
  {
    var chain := ChargeChain(s.parents, s.cnodes[l.cnode].account);
    ChargeChainNoDup(s.parents, s.cnodes[l.cnode].account);
    forall a: nat | a < |s.used| && a in chain
      ensures s.used[a] > 0
    {
      PaidFor(s, l, a);
    }
    RefundEach(s, l.cnode, chain, DropAll(s.used, chain));
  }

  lemma WithoutCuts(list: seq<Loc>, l: Loc)
    requires NoDup(list)
    ensures CutOut(list, l, Without(list, l)) && |Without(list, l)| == |list| - if l in list then 1 else 0
  {
    if l in list {
      var k :| 0 <= k < |list| && list[k] == l;
      WithoutIsRemoveAt(list, k);
    } else {
      WithoutAbsent(list, l);
    }
  }

  lemma DropEmpties(s: State, l: Loc)
    requires Inv(s) && Occupied(s.cnodes, l)
    ensures var o := SlotAt(s.cnodes, l).obj.value;
            o < |s.chains| && Empties(s, Drop(s, l), l, o, Drop(s, l).chains[o])
  {
    var o := SlotAt(s.cnodes, l).obj.value;
    RefundOne(s, l);
    WithoutCuts(s.chains[o], l);
    assert l in NamedSet(s.cnodes, o);
    if l in s.chains[o] {
      LengthInSum(s.chains, o);
    }
  }

  // ---- Resolve.

  /** The handle names an occupied slot, by its generation, of a live object. */
  ghost predicate Opens(s: State, c: nat, i: nat, g: nat) {
    && c < |s.cnodes| && i < |s.cnodes[c].slots| && s.cnodes[c].slots[i].typ != 0 && s.cnodes[c].slots[i].gen == g
    && s.cnodes[c].slots[i].obj.Some? && s.cnodes[c].slots[i].obj.value < |s.objs|
    && s.objs[s.cnodes[c].slots[i].obj.value].life.Live?
  }

  /** What each answer of a resolve means. */
  ghost predicate Answers(s: State, c: nat, i: nat, g: nat, status: Status) {
    if c >= |s.cnodes| || i >= |s.cnodes[c].slots| || g == 0 then status == ErrInval
    else if s.cnodes[c].slots[i].typ == 0 then status == ErrNoEnt
    else if s.cnodes[c].slots[i].gen != g then status == ErrStale
    else if !Opens(s, c, i, g) then status == ErrDead
    else status == Ok
  }

  lemma ResolveAnswers(s: State, c: nat, i: nat, g: nat)
    requires Inv(s)
    ensures Answers(s, c, i, g, Resolve(s, c, i, g).status)
    ensures Opens(s, c, i, g) ==>
              Resolve(s, c, i, g) == Resolved(Ok, s.cnodes[c].slots[i].typ, s.cnodes[c].slots[i].rights,
                                              s.cnodes[c].slots[i].obj.value)
  {
    if c < |s.cnodes| && i < |s.cnodes[c].slots| {
      var slot := s.cnodes[c].slots[i];
      assert SlotAt(s.cnodes, Loc(c, i)) == slot && SlotShaped(slot, |s.objs|);
      if slot.typ != 0 {
        assert Names(s.cnodes, Loc(c, i), slot.obj.value);
      }
    }
  }

  // ---- Install and alloc-install.

  /** The object can be named by one more slot of CNode `c`. */
  ghost predicate Admits(s: State, c: nat, o: nat) {
    && c < |s.cnodes| && o < |s.objs| && s.objs[o].life.Live? && s.objs[o].gen != 0
    && s.objs[o].slotsLeft < 0xffff_ffff && Solvent(s, c)
  }

  lemma InstallAnswers(s: State, c: nat, i: nat, typ: nat, rights: Rights, o: nat)
    requires Inv(s)
    ensures var r := Install(s, c, i, typ, rights, o);
            && (r.status == Ok <==> Admits(s, c, o) && i < |s.cnodes[c].slots| && s.cnodes[c].slots[i].typ == 0 &&
                                    typ != 0 && (i == 0 <==> typ == 14))
            && (r.status == Ok ==> r.ref == Some(Ref(i, s.cnodes[c].slots[i].gen)) &&
                                   Fills(s, r.state, Loc(c, i), typ, rights, o, s.chains[o]))
            && (r.status != Ok ==> r.state == s && r.ref.None?)
  {
    var r := Install(s, c, i, typ, rights, o);
    if c < |s.cnodes| {
      SolventIff(s, c);
    }
    if r.status == Ok {
      PlaceFills(s, Loc(c, i), typ, rights, o);
    }
  }

  /** Which mistake an install answers, the first of them in this order. */
  lemma InstallErrors(s: State, c: nat, i: nat, typ: nat, rights: Rights, o: nat)
    requires Inv(s)
    ensures var st := Install(s, c, i, typ, rights, o).status;
            if c >= |s.cnodes| || o >= |s.objs| || i >= |s.cnodes[c].slots| || typ == 0 then st == ErrInval
            else if !s.objs[o].life.Live? then st == ErrDead
            else if s.objs[o].gen == 0 then st == ErrInval
            else if (i == 0) != (typ == 14) then st == ErrPerm
            else if s.cnodes[c].slots[i].typ != 0 then st == ErrBusy
            else st == ErrQuota <==> s.objs[o].slotsLeft >= 0xffff_ffff || !Solvent(s, c)
  {
    if c < |s.cnodes| {
      SolventIff(s, c);
      assert o < |s.objs| ==> s.objs[o].slotsLeft == |NamedSet(s.cnodes, o)|;
    }
  }

  /** Slot `i` is the one an allocation of this type takes: slot 0 for the root capability, else the lowest free. */
  ghost predicate Vacant(s: State, c: nat, typ: nat, i: nat) {
    && c < |s.cnodes| && i < |s.cnodes[c].slots| && s.cnodes[c].slots[i].typ == 0
    && if typ == 14 then i == 0 else i > 0 && forall j :: 0 < j < i ==> s.cnodes[c].slots[j].typ != 0
  }

  lemma AllocAnswers(s: State, c: nat, typ: nat, rights: Rights, o: nat)
    requires Inv(s)
    ensures var r := AllocInstall(s, c, typ, rights, o);
            && (r.status == Ok <==> typ != 0 && Admits(s, c, o) && exists i: nat :: Vacant(s, c, typ, i))
            && (r.status == Ok ==>
                  && r.ref.Some? && Vacant(s, c, typ, r.ref.value.slot)
                  && r.ref.value.gen == s.cnodes[c].slots[r.ref.value.slot].gen
                  && Fills(s, r.state, Loc(c, r.ref.value.slot), typ, rights, o, s.chains[o]))
            && (r.status != Ok ==> r.state == s && r.ref.None?)
  {
    if c < |s.cnodes| && |s.cnodes[c].slots| > 0 && typ != 0 {
      var i := if typ == 14 then 0 else FirstFree(s.cnodes[c].slots, 1);
      assert (exists j: nat :: Vacant(s, c, typ, j)) <==> Vacant(s, c, typ, i);
      if i < |s.cnodes[c].slots| {
        InstallAnswers(s, c, i, typ, rights, o);
      }
    }
  }

  /** Which mistake an allocation that fails answers: a full CNode comes before everything about the object. */
  ghost predicate Refusal(s: State, c: nat, typ: nat, o: nat, st: Status) {
    if c >= |s.cnodes| || o >= |s.objs| || |s.cnodes[c].slots| == 0 || typ == 0 then st == ErrInval
    else if typ != 14 && !(exists i: nat :: Vacant(s, c, typ, i)) then st == ErrQuota
    else if !s.objs[o].life.Live? then st == ErrDead
    else if s.objs[o].gen == 0 then st == ErrInval
    else if typ == 14 && s.cnodes[c].slots[0].typ != 0 then st == ErrBusy
    else st == ErrQuota
  }

  lemma AllocErrors(s: State, c: nat, typ: nat, rights: Rights, o: nat)
    requires Inv(s) && AllocInstall(s, c, typ, rights, o).status != Ok
    ensures Refusal(s, c, typ, o, AllocInstall(s, c, typ, rights, o).status)
  {
    if c < |s.cnodes| && |s.cnodes[c].slots| > 0 && typ != 0 {
      var i := if typ == 14 then 0 else FirstFree(s.cnodes[c].slots, 1);
      assert (exists j: nat :: Vacant(s, c, typ, j)) <==> Vacant(s, c, typ, i);
      if i < |s.cnodes[c].slots| {
        InstallErrors(s, c, i, typ, rights, o);
        InstallAnswers(s, c, i, typ, rights, o);
      }
    }
  }

  // ---- Mint, copy, move and delete.

  /** A capability like the one at (c, i), with rights `rights`, was put into CNode `d`, listed if the pool allows. */
  ghost predicate DerivedInto(s: State, r: Outcome, c: nat, i: nat, d: nat, rights: Rights) {
    && c < |s.cnodes| && i < |s.cnodes[c].slots| && s.cnodes[c].slots[i].obj.Some?
    && var slot := s.cnodes[c].slots[i];
       && slot.obj.value < |s.chains| && r.ref.Some? && Vacant(s, d, slot.typ, r.ref.value.slot)
       && r.ref.value.gen == s.cnodes[d].slots[r.ref.value.slot].gen
       && Fills(s, r.state, Loc(d, r.ref.value.slot), slot.typ, rights, slot.obj.value,
                ListedFirst(s, slot.obj.value, Loc(d, r.ref.value.slot)))
  }

  /** There is a slot in CNode `d` for a capability like the one at (c, i). */
  ghost predicate RoomFor(s: State, c: nat, i: nat, d: nat)
    requires c < |s.cnodes| && i < |s.cnodes[c].slots| && s.cnodes[c].slots[i].obj.Some?
  {
    var slot := s.cnodes[c].slots[i];
    Admits(s, d, slot.obj.value) && exists j: nat :: Vacant(s, d, slot.typ, j)
  }

  lemma DeriveAnswers(s: State, c: nat, i: nat, g: nat, d: nat, rights: Rights)
    requires Inv(s) && Opens(s, c, i, g)
    ensures var slot := s.cnodes[c].slots[i];
            var r := DeriveInto(s, d, slot.typ, rights, slot.obj.value);
            && (r.status == Ok <==> RoomFor(s, c, i, d))
            && (r.status == Ok ==> DerivedInto(s, r, c, i, d, rights))
            && (r.status != Ok ==> r.state == s && r.ref.None? && Refusal(s, d, slot.typ, slot.obj.value, r.status))
  {
    var slot := s.cnodes[c].slots[i];
    var a := AllocInstall(s, d, slot.typ, rights, slot.obj.value);
    AllocAnswers(s, d, slot.typ, rights, slot.obj.value);
    if a.status == Ok {
      WireLists(s, a.state, Loc(d, a.ref.value.slot), slot.typ, rights, slot.obj.value);
    } else {
      AllocErrors(s, d, slot.typ, rights, slot.obj.value);
    }
  }

  lemma NothingShared(held: Rights, rights: Rights)
    ensures held * rights == {} <==> held !! rights
  {
    if held * rights == {} {
      forall x | x in held
        ensures x !in rights
      {
        assert x in rights ==> x in held * rights;
      }
    } else {
      var x :| x in held * rights;
      assert x in held && x in rights;
    }
  }

  /** The CNode a mint is for: the one asked for, or the source's own. */
  lemma MintAnswers(s: State, c: nat, i: nat, g: nat, rights: Rights, dst: Option<nat>, d: nat)
    requires Inv(s) && (dst == Some(d) || (dst.None? && d == c))
    ensures var r := Mint(s, c, i, g, rights, dst);
            && (r.status == Ok <==>
                  && Opens(s, c, i, g) && 3 in s.cnodes[c].slots[i].rights
                  && !(s.cnodes[c].slots[i].rights !! rights) && RoomFor(s, c, i, d))
            && (r.status == Ok ==> DerivedInto(s, r, c, i, d, s.cnodes[c].slots[i].rights * rights))
            && (r.status != Ok ==> r.state == s && r.ref.None?)
            && (!Opens(s, c, i, g) ==> Answers(s, c, i, g, r.status))
            && (Opens(s, c, i, g) && r.status != Ok ==>
                  if 3 !in s.cnodes[c].slots[i].rights || s.cnodes[c].slots[i].rights !! rights
                  then r.status == ErrPerm
                  else Refusal(s, d, s.cnodes[c].slots[i].typ, s.cnodes[c].slots[i].obj.value, r.status))
  {
    ResolveAnswers(s, c, i, g);
    if Opens(s, c, i, g) {
      var held := s.cnodes[c].slots[i].rights;
      NothingShared(held, rights);
      DeriveAnswers(s, c, i, g, d, held * rights);
    }
  }

  /** A copy into the source's own CNode: of the rights held, all or those asked for. */
  lemma CopyAnswers(s: State, c: nat, i: nat, g: nat, rights: Rights)
    requires Inv(s)
    ensures var r := Copy(s, c, i, g, rights);
            && (r.status == Ok <==>
                  Opens(s, c, i, g) && 2 in s.cnodes[c].slots[i].rights && RoomFor(s, c, i, c))
            && (r.status == Ok ==>
                  && (rights == {} ==> DerivedInto(s, r, c, i, c, s.cnodes[c].slots[i].rights))
                  && (rights != {} ==> DerivedInto(s, r, c, i, c, s.cnodes[c].slots[i].rights * rights)))
            && (r.status != Ok ==> r.state == s && r.ref.None?)
            && (!Opens(s, c, i, g) ==> Answers(s, c, i, g, r.status))
            && (Opens(s, c, i, g) && r.status != Ok ==>
                  if 2 !in s.cnodes[c].slots[i].rights then r.status == ErrPerm
                  else Refusal(s, c, s.cnodes[c].slots[i].typ, s.cnodes[c].slots[i].obj.value, r.status))
  {
    ResolveAnswers(s, c, i, g);
    if Opens(s, c, i, g) {
      var held := s.cnodes[c].slots[i].rights;
      var passed := if rights == {} then held else held * rights;
      assert held * held == held;
      DeriveAnswers(s, c, i, g, c, passed);
    }
  }

  lemma DeleteAnswers(s: State, c: nat, i: nat, g: nat)
    requires Inv(s)
    ensures var r := Delete(s, c, i, g);
            && (r.status == Ok <==>
                  && Opens(s, c, i, g) && i != 0
                  && (4 in s.cnodes[c].slots[i].rights || 2 in s.cnodes[c].slots[i].rights))
            && (r.status == Ok ==>
                  && s.cnodes[c].slots[i].obj.value < |r.state.chains|
                  && Empties(s, r.state, Loc(c, i), s.cnodes[c].slots[i].obj.value,
                             r.state.chains[s.cnodes[c].slots[i].obj.value]))
            && (r.status != Ok ==> r.state == s)
            && (r.status == ErrPerm <==> Opens(s, c, i, g) && r.status != Ok)
            && (!Opens(s, c, i, g) ==> Answers(s, c, i, g, r.status))
  {
    ResolveAnswers(s, c, i, g);
    if Opens(s, c, i, g) {
      assert SlotAt(s.cnodes, Loc(c, i)) == s.cnodes[c].slots[i];
      DropEmpties(s, Loc(c, i));
    }
  }

  lemma SamePayers(s: State, u: State, c: nat)
    requires SameTables(s.cnodes, u.cnodes) && u.parents == s.parents
    ensures forall a :: Pays(u, c, a) <==> Pays(s, c, a)
  {
  }

  lemma BackAndForth(s: State, u: State, t: State, c: nat, o: nat)
    requires SameTables(s.cnodes, u.cnodes) && u.parents == s.parents && o < |s.objs| == |u.objs|
    requires Charged(s, u, c, 1) && Charged(u, t, c, -1)
    requires OneCount(s.objs, u.objs, o, s.objs[o].slotsLeft + 1)
    requires OneCount(u.objs, t.objs, o, u.objs[o].slotsLeft - 1)
    ensures t.used == s.used && t.objs == s.objs
  {
    SamePayers(s, u, c);
    assert forall x :: 0 <= x < |s.objs| ==> t.objs[x] == s.objs[x];
  }

  lemma SlotsMoved(s: State, u: State, t: State, src: Loc, dst: Loc, slot: Slot, filled: Slot, freed: Slot)
    requires OneSlot(s.cnodes, u.cnodes, dst, filled) && OneSlot(u.cnodes, t.cnodes, src, freed)
    requires InRange(s.cnodes, src) && src != dst && SlotAt(s.cnodes, src) == slot
    ensures SameTables(s.cnodes, t.cnodes) && InRange(u.cnodes, src) && SlotAt(u.cnodes, src) == slot
    ensures forall m :: InRange(s.cnodes, m) ==>
              SlotAt(t.cnodes, m) == if m == dst then filled else if m == src then freed else SlotAt(s.cnodes, m)
  {
    assert forall m :: InRange(u.cnodes, m) <==> InRange(s.cnodes, m);
  }

  /** Listing `dst` after `src` was taken off: there is an edge if `src` had one, or the pool one left. */
  lemma ListMoved(s: State, v: State, src: Loc, dst: Loc, o: nat, rest: seq<Loc>)
    requires o < |s.chains| && OneList(s, v, o, rest) && v.poolSize == s.poolSize && CutOut(s.chains[o], src, rest)
    requires s.poolUsed <= s.poolSize
    ensures OneList(s, Wire(v, o, dst), o, if src in s.chains[o] || s.poolUsed < s.poolSize then [dst] + rest else rest)
  {
    assert |rest| == |s.chains[o]| - if src in s.chains[o] then 1 else 0;
  }

  lemma StillThere(s: State, u: State, src: Loc, dst: Loc, slot: Slot, filled: Slot)
    requires OneSlot(s.cnodes, u.cnodes, dst, filled) && SlotAt(s.cnodes, dst).typ == 0
    requires Occupied(s.cnodes, src) && SlotAt(s.cnodes, src) == slot
    ensures src != dst && Occupied(u.cnodes, src) && SlotAt(u.cnodes, src) == slot
  {
  }

  /** Filling `dst` and emptying `src` leaves counts and accounts alone and moves the slot. */
  lemma Moving(s: State, u: State, v: State, src: Loc, dst: Loc, slot: Slot, o: nat, rest: seq<Loc>)
    requires o < |s.objs| && o < |s.chains| && Fills(s, u, dst, slot.typ, slot.rights, o, s.chains[o])
    requires src.cnode == dst.cnode && Occupied(s.cnodes, src) && SlotAt(s.cnodes, src) == slot
    requires slot.objGen == s.objs[o].gen && slot.obj == Some(o) && Empties(u, v, src, o, rest)
    requires s.poolUsed <= s.poolSize
    ensures Moves(s, Wire(v, o, dst), src, dst, o, rest)
  {
    var filled := slot.(gen := SlotAt(s.cnodes, dst).gen);
    StillThere(s, u, src, dst, slot, filled);
    BackAndForth(s, u, v, src.cnode, o);
    SlotsMoved(s, u, v, src, dst, slot, filled, Freed(slot.gen));
    ListMoved(s, v, src, dst, o, rest);
  }

  /** Filling `dst`, emptying `src` and then listing `dst` is a move. */
  lemma FillThenEmpty(s: State, u: State, src: Loc, dst: Loc, slot: Slot, o: nat) returns (rest: seq<Loc>)
    requires Inv(s) && Inv(u) && o < |s.objs| && Fills(s, u, dst, slot.typ, slot.rights, o, s.chains[o])
    requires src.cnode == dst.cnode && Names(s.cnodes, src, o) && SlotAt(s.cnodes, src) == slot
    requires slot.objGen == s.objs[o].gen
    ensures Names(u.cnodes, src, o) && Moves(s, Wire(Drop(u, src), o, dst), src, dst, o, rest)
  {
    StillThere(s, u, src, dst, slot, slot.(gen := SlotAt(s.cnodes, dst).gen));
    DropEmpties(u, src);
    rest := Drop(u, src).chains[o];
    Moving(s, u, Drop(u, src), src, dst, slot, o, rest);
  }

  /** A move inside the CNode: of everything but slot 0, with GRANT, whenever a second slot could be filled. */
  lemma MoveAnswers(s: State, c: nat, i: nat, g: nat)
    requires Inv(s)
    ensures var r := Move(s, c, i, g);
            && (r.status == Ok <==>
                  Opens(s, c, i, g) && i != 0 && 2 in s.cnodes[c].slots[i].rights && RoomFor(s, c, i, c))
            && (r.status == Ok ==>
                  && r.ref.Some? && Vacant(s, c, s.cnodes[c].slots[i].typ, r.ref.value.slot)
                  && r.ref.value.gen == s.cnodes[c].slots[r.ref.value.slot].gen
                  && exists rest :: Moves(s, r.state, Loc(c, i), Loc(c, r.ref.value.slot),
                                          s.cnodes[c].slots[i].obj.value, rest))
            && (r.status != Ok ==> r.state == s && r.ref.None?)
            && (!Opens(s, c, i, g) ==> Answers(s, c, i, g, r.status))
            && (Opens(s, c, i, g) && r.status != Ok ==>
                  if i == 0 || 2 !in s.cnodes[c].slots[i].rights then r.status == ErrPerm
                  else Refusal(s, c, s.cnodes[c].slots[i].typ, s.cnodes[c].slots[i].obj.value, r.status))
  {
    ResolveAnswers(s, c, i, g);
    if Opens(s, c, i, g) && i != 0 && 2 in s.cnodes[c].slots[i].rights {
      var slot := s.cnodes[c].slots[i];
      var a := AllocInstall(s, c, slot.typ, slot.rights, slot.obj.value);
      AllocAnswers(s, c, slot.typ, slot.rights, slot.obj.value);
      if a.status == Ok {
        var dst := Loc(c, a.ref.value.slot);
        AllocIsFill(s, c, slot.typ, slot.rights, slot.obj.value);
        FillKeepsInv(s, dst, slot.typ, slot.rights, slot.obj.value);
        assert Names(s.cnodes, Loc(c, i), slot.obj.value);
        var rest := FillThenEmpty(s, a.state, Loc(c, i), dst, slot, slot.obj.value);
      } else {
        AllocErrors(s, c, slot.typ, slot.rights, slot.obj.value);
      }
    }
  }
}
