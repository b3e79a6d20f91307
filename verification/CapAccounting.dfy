/**
 What the invariant means for the books: the derivation index against a full scan, accounts
 against the slots below them, and a move that leaves every balance where it was.
 */
module CapAccounting {
  import opened Words
  import opened EdgePool
  import opened QuotaLedger
  import opened CapState
  import opened CapOps
  import opened CapInvariant
  import opened CapRuns

  // ---- The derivation index against a full scan.

  /** The slots naming `o` that have no edge: direct installs and pool misses. */
  ghost function Unindexed(s: State, o: nat): set<Loc>
    requires o < |s.chains|
  {
    set l | l in NamedSet(s.cnodes, o) && l !in s.chains[o]
  }

  /**
   In every state a run can reach, the count on the header is the scan's count, the count minus
   the chain depth is the number of slots without an edge, and so the audit's match flag is set
   exactly when a walk of the index reaches every slot.
   */
  lemma AuditIsExact(s: State, ops: seq<Op>, o: nat)
    requires Inv(s) && AllowedRun(s, ops) && o < |Run(s, ops).objs|
    ensures var t := Run(s, ops);
            && t.objs[o].slotsLeft == |NamedSet(t.cnodes, o)|
            && t.objs[o].slotsLeft - |t.chains[o]| == |Unindexed(t, o)|
            && (t.objs[o].slotsLeft == |t.chains[o]| <==>
                forall l :: Names(t.cnodes, l, o) ==> l in t.chains[o])
  {
    AuditInState(Run(s, ops), o);
  }

  lemma AuditInState(t: State, o: nat)
    requires Indexed(t) && Counted(t) && o < |t.objs|
    ensures t.objs[o].slotsLeft - |t.chains[o]| == |Unindexed(t, o)|
    ensures t.objs[o].slotsLeft == |t.chains[o]| <==> forall l :: Names(t.cnodes, l, o) ==> l in t.chains[o]
  {
    var listed := set l | l in t.chains[o];
    DistinctCount(t.chains[o]);
    forall l | l in listed
      ensures l in NamedSet(t.cnodes, o)
    {
      var k :| 0 <= k < |t.chains[o]| && t.chains[o][k] == l;
    }
    assert NamedSet(t.cnodes, o) == listed + Unindexed(t, o);
    assert listed !! Unindexed(t, o);
    if t.objs[o].slotsLeft == |t.chains[o]| {
      assert Unindexed(t, o) == {};
      forall l | Names(t.cnodes, l, o)
        ensures l in t.chains[o]
      {
        assert l in NamedSet(t.cnodes, o) && l !in Unindexed(t, o);
      }
    }
  }

  /** No location is on two lists: an edge's slot determines the object it belongs to. */
  lemma EdgesAreUnique(s: State, o1: nat, o2: nat, l: Loc)
    requires Indexed(s) && o1 < |s.chains| && o2 < |s.chains| && l in s.chains[o1] && l in s.chains[o2]
    ensures o1 == o2 && Names(s.cnodes, l, o1)
  {
    var j :| 0 <= j < |s.chains[o1]| && s.chains[o1][j] == l;
    var k :| 0 <= k < |s.chains[o2]| && s.chains[o2][k] == l;
  }

  // ---- Hierarchical quota conservation.

  /** With chains inside the depth bound, a charge reaches exactly the accounts above. */
  lemma ChargeReachesAllAbove(parents: Parents, x: nat, a: nat)
    requires AllBounded(parents) && x < |parents|
    ensures a in ChargeChain(parents, Some(x)) <==> Above(parents, x, a)
  {
    var k := DEPTH_MAX + 1;
    assert Bounded(parents, Some(x));
    if Above(parents, x, a) {
      var n: nat :| a in Chain(parents, Some(x), n);
      if n <= k {
        ChainPrefix(parents, Some(x), n, k);
      } else {
        ChainEnded(parents, Some(x), k, n);
      }
    } else {
      assert a !in Chain(parents, Some(x), DEPTH_MAX);
    }
  }

  /** The occupied slots of every CNode attached to `a` or to any descendant of `a`. */
  ghost function SlotsBelow(s: State, a: nat): (r: set<Loc>)
    ensures forall l :: l in r <==>
              Occupied(s.cnodes, l) && s.cnodes[l.cnode].account.Some? &&
              Above(s.parents, s.cnodes[l.cnode].account.value, a)
  {
    set c, i | 0 <= c < |s.cnodes| && 0 <= i < |s.cnodes[c].slots| && Occupied(s.cnodes, Loc(c, i)) &&
               s.cnodes[c].account.Some? && Above(s.parents, s.cnodes[c].account.value, a) :: Loc(c, i)
  }

  /** Every occupied slot below `a` is at most DEPTH_MAX accounts away from it. */
  ghost predicate WithinReach(s: State, a: nat) {
    forall l :: l in SlotsBelow(s, a) ==> Reaches(s.cnodes, s.parents, l, a)
  }

  lemma BoundedWithinReach(s: State, a: nat)
    requires Shaped(s) && AllBounded(s.parents)
    ensures WithinReach(s, a)
  {
    forall l | l in SlotsBelow(s, a)
      ensures Reaches(s.cnodes, s.parents, l, a)
    {
      ChargeReachesAllAbove(s.parents, s.cnodes[l.cnode].account.value, a);
    }
  }

  lemma SubsetSize<T>(part: set<T>, all: set<T>)
    requires part <= all
    ensures |part| <= |all| && (|part| == |all| <==> part == all)
  {
    assert all == part + (all - part);
  }

  lemma ChargedIsBelow(s: State, a: nat)
    requires Shaped(s)
    ensures ChargedSet(s.cnodes, s.parents, a) <= SlotsBelow(s, a)
  {
    forall l | l in ChargedSet(s.cnodes, s.parents, a)
      ensures l in SlotsBelow(s, a)
    {
      assert Above(s.parents, s.cnodes[l.cnode].account.value, a);
    }
  }

  /**
   In every reachable state each account's `u32Used` is within its limit and counts occupied slots in CNodes
   attached to it or below it. It counts all of them exactly when none is further below than the charge walks,
   which holds if every chain ends within the depth bound.
   */
  lemma QuotaConservation(s: State, ops: seq<Op>, a: nat)
    requires Inv(s) && AllowedRun(s, ops) && a < |Run(s, ops).used|
    ensures var t := Run(s, ops);
            && t.used[a] <= t.limits[a] && t.used[a] <= |SlotsBelow(t, a)|
            && (t.used[a] == |SlotsBelow(t, a)| <==> WithinReach(t, a))
            && (AllBounded(t.parents) ==> t.used[a] == |SlotsBelow(t, a)|)
  {
    var t := Run(s, ops);
    ChargedIsBelow(t, a);
    SubsetSize(ChargedSet(t.cnodes, t.parents, a), SlotsBelow(t, a));
    if AllBounded(t.parents) {
      BoundedWithinReach(t, a);
    }
  }

  // ---- Move.

  /** What a slot grants, apart from its generations. */
  datatype Grant = Grant(typ: nat, rights: Rights, obj: Option<nat>)

  ghost function Grants(slots: seq<Slot>): seq<Grant> {
    seq(|slots|, i requires 0 <= i < |slots| => Grant(slots[i].typ, slots[i].rights, slots[i].obj))
  }

  lemma SwapKeepsMultiset(a: seq<Grant>, b: seq<Grant>, i: nat, j: nat)
    requires |a| == |b| && i < |a| && j < |a|
    requires b[i] == a[j] && b[j] == a[i] && forall k :: 0 <= k < |a| && k != i && k != j ==> b[k] == a[k]
    ensures multiset(b) == multiset(a)
  {
    assert b == a[i := a[j]][j := a[i]];
  }

  lemma BalanceUsed(s: State, account: Option<nat>)
    requires Shaped(s) && Metered(s) && ChargesDistinct(s.parents) && InTable(s.parents, account)
    requires HasRoom(s.limits, s.used, ChargeChain(s.parents, account))
    ensures DropAll(BumpAll(s.used, ChargeChain(s.parents, account)), ChargeChain(s.parents, account)) == s.used
  {
    ChargeChainNoDup(s.parents, account);
    RefundUndoesCharge(s.limits, s.used, ChargeChain(s.parents, account));
  }

  lemma BalanceObjs(objs: seq<Obj>, o: nat)
    requires o < |objs| && objs[o].slotsLeft < U32_MAX
    ensures var up := objs[o := objs[o].(slotsLeft := Inc32(objs[o].slotsLeft))];
            up[o := up[o].(slotsLeft := Dec(up[o].slotsLeft))] == objs
  {
  }

  /** The capability moved from `src` to `dst`; balances, counts and every other slot are untouched. */
  ghost predicate NetZero(s: State, t: State, src: Loc, dst: Loc, o: nat) {
    && !Occupied(s.cnodes, dst) && Names(s.cnodes, src, o)
    && !Occupied(t.cnodes, src) && Names(t.cnodes, dst, o)
    && t.used == s.used && t.objs == s.objs
    && (forall m :: InRange(s.cnodes, m) && m != src && m != dst ==>
          InRange(t.cnodes, m) && SlotAt(t.cnodes, m) == SlotAt(s.cnodes, m))
    && o < |s.chains| == |t.chains|
    && (dst in t.chains[o] <==> src in s.chains[o] || s.poolUsed < s.poolSize)
  }

  /**
   A successful move changes where the capability sits and nothing else: every account, every
   object count and every other slot is as before, and the new slot is indexed whenever the old
   one was, even out of a full pool.
   */
  lemma MoveIsNetZero(s: State, c: nat, i: nat, g: nat)
    requires Inv(s) && Move(s, c, i, g).status == Ok
    ensures Move(s, c, i, g).ref.Some?
    ensures var r := Move(s, c, i, g);
            NetZero(s, r.state, Loc(c, i), Loc(c, r.ref.value.slot), Resolve(s, c, i, g).obj)
  {
    MoveAtomic(s, c, i, g);
    var r, v := Move(s, c, i, g), Resolve(s, c, i, g);
    AllocIsFill(s, c, v.typ, v.rights, v.obj);
    var src, dst := Loc(c, i), Loc(c, r.ref.value.slot);
    var s1 := Place(s, dst, v.typ, v.rights, v.obj);
    FillIndexed(s, dst, v.typ, v.rights, v.obj);
    BalanceUsed(s, s.cnodes[c].account);
    BalanceObjs(s.objs, v.obj);
    FreeSlotUnlisted(s, dst, v.obj);
    MoveCoverage(s, s1, src, dst, v.obj);
  }

  lemma MoveCoverage(s: State, s1: State, src: Loc, dst: Loc, o: nat)
    requires Shaped(s1) && Indexed(s1) && Pooled(s1) && Names(s1.cnodes, src, o) && o < |s1.objs|
    requires s.chains == s1.chains && s.poolUsed == s1.poolUsed && s.poolSize == s1.poolSize
    requires dst !in s.chains[o]
    ensures dst in Wire(Drop(s1, src), o, dst).chains[o] <==> src in s.chains[o] || s.poolUsed < s.poolSize
  {
    WithoutLength(s1.chains[o], src);
    LengthInSum(s1.chains, o);
  }

  lemma MoveKeepsGrants(s: State, c: nat, i: nat, g: nat)
    requires Inv(s) && Move(s, c, i, g).status == Ok
    ensures c < |s.cnodes| == |Move(s, c, i, g).state.cnodes|
    ensures multiset(Grants(Move(s, c, i, g).state.cnodes[c].slots)) == multiset(Grants(s.cnodes[c].slots))
  {
    MoveAtomic(s, c, i, g);
    var r, v := Move(s, c, i, g), Resolve(s, c, i, g);
    AllocIsFill(s, c, v.typ, v.rights, v.obj);
    var j := r.ref.value.slot;
    var before, after := s.cnodes[c].slots, r.state.cnodes[c].slots;
    assert SlotAt(s.cnodes, Loc(c, i)) == before[i] && SlotAt(s.cnodes, Loc(c, j)) == before[j];
    var moved := Slot(v.typ, v.rights, before[j].gen, s.objs[v.obj].gen, Some(v.obj));
    assert after == before[j := moved][i := Cleared(before[i])];
    SwapKeepsMultiset(Grants(before), Grants(after), i, j);
  }

  // ---- A smallest run that gets this far.

  /** One CNode of three free slots, one live object, one edge, no accounts. */
  ghost function Tiny(): State {
    State([CNode([FREE_SLOT, FREE_SLOT, FREE_SLOT], None, false)], [FreshObj()], [[]], 0, 1, [], [], [])
  }

  lemma TinyIsInitial()
    ensures Initial(Tiny()) && Inv(Tiny())
  {
    var s := Tiny();
    assert forall l :: InRange(s.cnodes, l) ==> SlotAt(s.cnodes, l) == FREE_SLOT;
    InitialInv(s);
  }

  lemma TinyInstalls()
    ensures Shaped(Tiny()) && InRange(Tiny().cnodes, Loc(0, 1))
    ensures AllocInstall(Tiny(), 0, 1, {RIGHT_GRANT}, 0) ==
            Outcome(Place(Tiny(), Loc(0, 1), 1, {RIGHT_GRANT}, 0), Ok, Some(Ref(1, 1)))
  {
    TinyIsInitial();
    assert FirstFree(Tiny().cnodes[0].slots, 1) == 1;
  }

  /** From freshly initialised tables an install can be followed by a move. */
  lemma TinyRunMoves()
    ensures Initial(Tiny()) && Inv(Tiny())
    ensures var s := AllocInstall(Tiny(), 0, 1, {RIGHT_GRANT}, 0).state;
            Inv(s) && Move(s, 0, 1, 1).status == Ok && Move(s, 0, 1, 1).ref == Some(Ref(2, 1))
  {
    TinyIsInitial();
    TinyInstalls();
    StepKeepsInv(Tiny(), OpAlloc(0, 1, {RIGHT_GRANT}, 0));
    var t := Place(Tiny(), Loc(0, 1), 1, {RIGHT_GRANT}, 0);
    assert FirstFree(t.cnodes[0].slots, 1) == 2;
  }
}
