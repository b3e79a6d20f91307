/**
 Changing accounts under charges. Attaching a CNode and re-parenting an account move no charge, so the books stay
 right exactly when every CNode that holds a slot is charged to the same accounts as before.
 */
module CapReparent {
  import opened Words
  import opened EdgePool
  import opened QuotaLedger
  import opened CapState
  import opened CapOps
  import opened CapInvariant
  import opened CapRuns
  import opened CapAccounting

  /** Every account counts the occupied slots that are charged to it. */
  ghost predicate Balanced(used: seq<nat>, cn: seq<CNode>, parents: Parents) {
    forall a :: 0 <= a < |used| ==> used[a] == |ChargedSet(cn, parents, a)|
  }

  // ---- Two charge assignments that grow or shrink account by account.

  ghost predicate SameSlotTables(cn: seq<CNode>, cn': seq<CNode>) {
    |cn'| == |cn| && forall c :: 0 <= c < |cn| ==> cn'[c].slots == cn[c].slots
  }

  /** No slot leaves `a` while another one joins it. */
  ghost predicate OneWay(cn: seq<CNode>, parents: Parents, cn': seq<CNode>, parents': Parents, a: nat) {
    forall l, m :: Occupied(cn, l) && Occupied(cn, m) ==>
      (Reaches(cn, parents, l, a) ==> Reaches(cn', parents', l, a)) ||
      (Reaches(cn', parents', m, a) ==> Reaches(cn, parents, m, a))
  }

  lemma SameOccupied(cn: seq<CNode>, cn': seq<CNode>, l: Loc)
    requires SameSlotTables(cn, cn')
    ensures Occupied(cn', l) <==> Occupied(cn, l)
  {
  }

  /** If slots only leave or only join, an account's number of slots stays the same only if its slots do. */
  lemma SameSizeSameSet(cn: seq<CNode>, parents: Parents, cn': seq<CNode>, parents': Parents, a: nat)
    requires SameSlotTables(cn, cn') && OneWay(cn, parents, cn', parents', a)
    requires |ChargedSet(cn', parents', a)| == |ChargedSet(cn, parents, a)|
    ensures ChargedSet(cn', parents', a) == ChargedSet(cn, parents, a)
  {
    var before, after := ChargedSet(cn, parents, a), ChargedSet(cn', parents', a);
    forall l
      ensures Occupied(cn', l) <==> Occupied(cn, l)
    {
      SameOccupied(cn, cn', l);
    }
    if before <= after {
      SubsetSize(before, after);
    } else {
      var l :| l in before && l !in after;
      assert forall m :: m in after ==> m in before;
      SubsetSize(after, before);
    }
  }

  lemma {:induction false} ChainInTable(parents: Parents, a: Option<nat>, n: nat, x: nat)
    requires x in Chain(parents, a, n)
    ensures x < |parents|
    decreases n
  {
    if x == a.value {
    } else {
      ChainInTable(parents, parents[a.value], n - 1, x);
    }
  }

  /** The books balance after a change that is one-way for each account exactly when no CNode in use changes
      accounts. */
  lemma BalancedIffSame(used: seq<nat>, cn: seq<CNode>, parents: Parents, cn': seq<CNode>, parents': Parents)
    requires SameSlotTables(cn, cn') && |used| == |parents| == |parents'| && Balanced(used, cn, parents)
    requires forall a :: 0 <= a < |used| ==> OneWay(cn, parents, cn', parents', a)
    ensures Balanced(used, cn', parents') <==> SameCharges(cn, parents, cn', parents')
  {
    if SameCharges(cn, parents, cn', parents') {
      forall a | 0 <= a < |used|
        ensures used[a] == |ChargedSet(cn', parents', a)|
      {
        SameChargedSet(cn, parents, cn', parents', a);
      }
    }
    if Balanced(used, cn', parents') {
      forall c, a | 0 <= c < |cn| && !EmptyCNode(cn[c])
        ensures a in ChargeChain(parents, cn[c].account) <==> a in ChargeChain(parents', cn'[c].account)
      {
        BalancedChainsSame(used, cn, parents, cn', parents', c, a);
      }
    }
  }

  lemma BalancedChainsSame(used: seq<nat>, cn: seq<CNode>, parents: Parents, cn': seq<CNode>, parents': Parents,
                           c: nat, a: nat)
    requires SameSlotTables(cn, cn') && |used| == |parents| == |parents'|
    requires Balanced(used, cn, parents) && Balanced(used, cn', parents')
    requires forall x :: 0 <= x < |used| ==> OneWay(cn, parents, cn', parents', x)
    requires c < |cn| && !EmptyCNode(cn[c])
    ensures a in ChargeChain(parents, cn[c].account) <==> a in ChargeChain(parents', cn'[c].account)
  {
    if a in ChargeChain(parents, cn[c].account) {
      ChainInTable(parents, cn[c].account, DEPTH_MAX, a);
    }
    if a in ChargeChain(parents', cn'[c].account) {
      ChainInTable(parents', cn'[c].account, DEPTH_MAX, a);
    }
    if a < |used| {
      SameSizeSameSet(cn, parents, cn', parents', a);
      var i :| 0 <= i < |cn[c].slots| && cn[c].slots[i].typ != CAP_INVALID;
      assert Loc(c, i) in ChargedSet(cn, parents, a) <==> Reaches(cn, parents, Loc(c, i), a);
      SameOccupied(cn, cn', Loc(c, i));
      assert Loc(c, i) in ChargedSet(cn', parents', a) <==> Reaches(cn', parents', Loc(c, i), a);
    }
  }

  // ---- Attaching.

  /**
   Attaching an account to a CNode, empty or not, keeps the invariant exactly when the CNode is empty or is charged
   to the same accounts as before.
   */
  lemma AttachKeepsInvIff(s: State, c: nat, account: Option<nat>)
    requires Inv(s) && c < |s.cnodes| && InTable(s.parents, account)
    ensures var cn' := Attached(s.cnodes, c, account);
            && (Inv(s.(cnodes := cn')) <==> SameCharges(s.cnodes, s.parents, cn', s.parents))
            && (SameCharges(s.cnodes, s.parents, cn', s.parents) <==>
                EmptyCNode(s.cnodes[c]) || SameAccounts(s.parents, s.cnodes[c].account, s.parents, account))
  {
    var cn' := Attached(s.cnodes, c, account);
    BalancedIffSame(s.used, s.cnodes, s.parents, cn', s.parents);
    if SameCharges(s.cnodes, s.parents, cn', s.parents) {
      AttachKeepsInv(s, c, account);
    }
  }

  // ---- Re-parenting.

  /** A chain through `q`, before and after `q` is linked elsewhere: the way to `q` stays, the rest is exchanged. */
  lemma ChainsThrough(parents: Parents, q: nat, p: Option<nat>, x: Option<nat>, n: nat) returns (i: nat, way: seq<nat>)
    requires q < |parents| && q in Chain(parents, x, n)
    ensures i < n && |way| == i + 1 && q in way
    ensures Chain(parents, x, n) == way + Chain(parents, parents[q], n - i - 1)
    ensures Chain(parents[q := p], x, n) == way + Chain(parents[q := p], p, n - i - 1)
  {
    i := FirstVisit(Chain(parents, x, n), q);
    way := Chain(parents, x, n)[..i] + [q];
    ChainRelinked(parents, q, p, x, n, i);
    ChainRelinked(parents, q, parents[q], x, n, i);
    assert parents[q := parents[q]] == parents;
  }

  /** The account at which a chain loses sight of `a` when `q` is linked elsewhere. */
  lemma LosesSight(parents: Parents, q: nat, p: Option<nat>, x: Option<nat>, n: nat, a: nat) returns (m: nat)
    requires q < |parents| && a in Chain(parents, x, n) && a !in Chain(parents[q := p], x, n)
    ensures a in Chain(parents, parents[q], m) && a !in Chain(parents[q := p], p, m)
  {
    if q !in Chain(parents, x, n) {
      ChainAvoiding(parents, q, p, x, n);
    }
    var i, way := ChainsThrough(parents, q, p, x, n);
    m := n - i - 1;
  }

  /** The account at which a chain first sees `a` when `q` is linked elsewhere. */
  lemma GainsSight(parents: Parents, q: nat, p: Option<nat>, x: Option<nat>, n: nat, a: nat) returns (m: nat)
    requires q < |parents| && a !in Chain(parents, x, n) && a in Chain(parents[q := p], x, n)
    ensures a !in Chain(parents, parents[q], m) && a in Chain(parents[q := p], p, m)
  {
    if q !in Chain(parents, x, n) {
      ChainAvoiding(parents, q, p, x, n);
    }
    var i, way := ChainsThrough(parents, q, p, x, n);
    m := n - i - 1;
  }

  /** A longer chain sees more, so no account is lost to one chain and gained by another. */
  lemma RelinkOneWay(parents: Parents, q: nat, p: Option<nat>, x: Option<nat>, y: Option<nat>, n: nat, a: nat)
    requires q < |parents|
    ensures (a in Chain(parents, x, n) ==> a in Chain(parents[q := p], x, n)) ||
            (a in Chain(parents[q := p], y, n) ==> a in Chain(parents, y, n))
  {
    if a in Chain(parents, x, n) && a !in Chain(parents[q := p], x, n) &&
       a in Chain(parents[q := p], y, n) && a !in Chain(parents, y, n) {
      var m := LosesSight(parents, q, p, x, n, a);
      var k := GainsSight(parents, q, p, y, n, a);
      if m <= k {
        ChainPrefix(parents, parents[q], m, k);
      } else {
        ChainPrefix(parents[q := p], p, k, m);
      }
    }
  }

  lemma AdoptOneWay(cn: seq<CNode>, parents: Parents, q: nat, p: Option<nat>, a: nat)
    requires q < |parents|
    ensures OneWay(cn, parents, cn, parents[q := p], a)
  {
    forall l, m | Occupied(cn, l) && Occupied(cn, m)
      ensures (Reaches(cn, parents, l, a) ==> Reaches(cn, parents[q := p], l, a)) ||
              (Reaches(cn, parents[q := p], m, a) ==> Reaches(cn, parents, m, a))
    {
      RelinkOneWay(parents, q, p, cn[l.cnode].account, cn[m.cnode].account, DEPTH_MAX, a);
    }
  }

  /**
   Linking any account elsewhere, whatever it holds and however long the chains, keeps every account equal to the
   slots charged to it exactly when every CNode in use is charged to the same accounts as before.
   */
  lemma AdoptBalancesIff(s: State, q: nat, p: Option<nat>)
    requires Inv(s) && q < |s.parents| && InTable(s.parents, p)
    ensures var parents' := SetParent(s.parents, q, p);
            Balanced(s.used, s.cnodes, parents') <==> SameCharges(s.cnodes, s.parents, s.cnodes, parents')
  {
    var parents' := SetParent(s.parents, q, p);
    if parents' != s.parents {
      forall a | 0 <= a < |s.used|
        ensures OneWay(s.cnodes, s.parents, s.cnodes, parents', a)
      {
        AdoptOneWay(s.cnodes, s.parents, q, p, a);
      }
      BalancedIffSame(s.used, s.cnodes, s.parents, s.cnodes, parents');
    }
  }

  lemma AdoptKeepsInvIff(s: State, q: nat, p: Option<nat>)
    requires Inv(s) && q < |s.parents| && InTable(s.parents, p)
    ensures var parents' := SetParent(s.parents, q, p);
            Inv(s.(parents := parents')) <==> SameCharges(s.cnodes, s.parents, s.cnodes, parents')
  {
    AdoptBalancesIff(s, q, p);
    if SameCharges(s.cnodes, s.parents, s.cnodes, SetParent(s.parents, q, p)) {
      AdoptKeepsInv(s, q, p);
    }
  }

  /** Re-parenting an account that holds no charge never moves one. */
  lemma AdoptEmpty(s: State, q: nat, p: Option<nat>)
    requires Inv(s) && q < |s.parents| && InTable(s.parents, p) && s.used[q] == 0
    ensures SameCharges(s.cnodes, s.parents, s.cnodes, SetParent(s.parents, q, p))
  {
    var parents' := SetParent(s.parents, q, p);
    forall c | 0 <= c < |s.cnodes| && !EmptyCNode(s.cnodes[c])
      ensures SameAccounts(s.parents, s.cnodes[c].account, parents', s.cnodes[c].account)
    {
      var i :| 0 <= i < |s.cnodes[c].slots| && s.cnodes[c].slots[i].typ != CAP_INVALID;
      assert Occupied(s.cnodes, Loc(c, i)) && Loc(c, i) !in ChargedSet(s.cnodes, s.parents, q);
      if parents' != s.parents {
        ChainAvoiding(s.parents, q, p, s.cnodes[c].account, DEPTH_MAX);
      }
    }
  }

  // ---- Chains inside the depth bound.

  lemma RestEnds(parents: Parents, x: Option<nat>, n: nat, way: seq<nat>, rest: Option<nat>, m: nat)
    requires |Chain(parents, x, n)| < n && Chain(parents, x, n) == way + Chain(parents, rest, m)
    requires |way| + m == n && |way| >= 1
    ensures Chain(parents, rest, n - 1) == Chain(parents, rest, m)
  {
    ChainEnded(parents, rest, m, n - 1);
  }

  /** A chain that ends before and after goes through `q` to all accounts above it. */
  lemma ThroughToTheEnd(parents: Parents, q: nat, p: Option<nat>, x: Option<nat>, n: nat) returns (way: seq<nat>)
    requires q < |parents| && q in Chain(parents, x, n)
    requires |Chain(parents, x, n)| < n && |Chain(parents[q := p], x, n)| < n
    ensures Chain(parents, x, n) == way + Chain(parents, parents[q], n - 1)
    ensures Chain(parents[q := p], x, n) == way + Chain(parents[q := p], p, n - 1)
  {
    var i;
    i, way := ChainsThrough(parents, q, p, x, n);
    RestEnds(parents, x, n, way, parents[q], n - i - 1);
    RestEnds(parents[q := p], x, n, way, p, n - i - 1);
  }

  lemma ApartInConcat(s: seq<nat>, t: seq<nat>, a: nat)
    requires NoDup(s + t)
    ensures a in s + t <==> a in s || a in t
    ensures a in t ==> a !in s
  {
    forall i, j | 0 <= i < |s| && 0 <= j < |t|
      ensures s[i] != t[j]
    {
      assert (s + t)[i] == s[i] && (s + t)[|s| + j] == t[j];
    }
  }

  lemma SameInConcat(way: seq<nat>, s: seq<nat>, t: seq<nat>, a: nat)
    requires NoDup(way + s) && NoDup(way + t)
    ensures (a in way + s <==> a in way + t) <==> (a in s <==> a in t)
  {
    ApartInConcat(way, s, a);
    ApartInConcat(way, t, a);
  }

  /** A chain through `q` keeps its accounts exactly when those above `q` stay the same. */
  lemma SameAccountsIff(parents: Parents, q: nat, p: Option<nat>, x: Option<nat>)
    requires q < |parents| && Bounded(parents, x) && Bounded(parents[q := p], x) && q in ChargeChain(parents, x)
    ensures SameAccounts(parents, x, parents[q := p], x) <==> SameAccounts(parents, parents[q], parents[q := p], p)
  {
    var way := ThroughToTheEnd(parents, q, p, x, DEPTH_MAX + 1);
    BoundedChainNoDup(parents, x);
    BoundedChainNoDup(parents[q := p], x);
    var over, over' := ChargeChain(parents, parents[q]), ChargeChain(parents[q := p], p);
    assert ChargeChain(parents, x) == way + over && ChargeChain(parents[q := p], x) == way + over';
    forall a
      ensures (a in way + over <==> a in way + over') <==> (a in over <==> a in over')
    {
      SameInConcat(way, over, over', a);
    }
  }

  lemma CNodeSameIff(parents: Parents, q: nat, p: Option<nat>, x: Option<nat>)
    requires q < |parents| && InTable(parents, x) && AllBounded(parents) && AllBounded(parents[q := p])
    ensures if q !in ChargeChain(parents, x) then SameAccounts(parents, x, parents[q := p], x)
            else SameAccounts(parents, x, parents[q := p], x) <==> SameAccounts(parents, parents[q], parents[q := p], p)
  {
    if q !in ChargeChain(parents, x) {
      ChainAvoiding(parents, q, p, x, DEPTH_MAX);
    } else {
      AccountBounded(parents, x);
      AccountBounded(parents[q := p], x);
      SameAccountsIff(parents, q, p, x);
    }
  }

  lemma AccountBounded(parents: Parents, x: Option<nat>)
    requires AllBounded(parents) && InTable(parents, x)
    ensures Bounded(parents, x)
  {
  }

  lemma RelinkBoundedIff(s: State, q: nat, p: Option<nat>)
    requires Inv(s) && q < |s.parents| && s.used[q] > 0 && AllBounded(s.parents) && AllBounded(s.parents[q := p])
    ensures SameCharges(s.cnodes, s.parents, s.cnodes, s.parents[q := p]) <==>
            SameAccounts(s.parents, s.parents[q], s.parents[q := p], p)
  {
    forall c | 0 <= c < |s.cnodes|
      ensures var x := s.cnodes[c].account;
              if q !in ChargeChain(s.parents, x) then SameAccounts(s.parents, x, s.parents[q := p], x)
              else SameAccounts(s.parents, x, s.parents[q := p], x) <==>
                   SameAccounts(s.parents, s.parents[q], s.parents[q := p], p)
    {
      CNodeSameIff(s.parents, q, p, s.cnodes[c].account);
    }
    var l :| l in ChargedSet(s.cnodes, s.parents, q);
    assert !EmptyCNode(s.cnodes[l.cnode]) && q in ChargeChain(s.parents, s.cnodes[l.cnode].account);
  }

  /** With chains inside the depth bound: the account holds no charge, or lies under the same accounts as before. */
  lemma AdoptBoundedIff(s: State, q: nat, p: Option<nat>)
    requires Inv(s) && q < |s.parents| && InTable(s.parents, p)
    requires AllBounded(s.parents) && AllBounded(SetParent(s.parents, q, p))
    ensures var parents' := SetParent(s.parents, q, p);
            SameCharges(s.cnodes, s.parents, s.cnodes, parents') <==>
            s.used[q] == 0 || SameAccounts(s.parents, s.parents[q], parents', parents'[q])
  {
    if s.used[q] == 0 {
      AdoptEmpty(s, q, p);
    } else if SetParent(s.parents, q, p) != s.parents {
      RelinkBoundedIff(s, q, p);
    }
  }

  // ---- An account whose books a link update upsets.

  /** One CNode of two slots attached to the first of two unlinked accounts, one live object. */
  ghost function Shop(): State {
    State([CNode([FREE_SLOT, FREE_SLOT], Some(0), false)], [FreshObj()], [[]], 0, 1, [1, 1], [0, 0], [None, None])
  }

  lemma ShopIsInitial()
    ensures Initial(Shop()) && Inv(Shop())
  {
    var s := Shop();
    assert forall l :: InRange(s.cnodes, l) ==> SlotAt(s.cnodes, l) == FREE_SLOT;
    RootsDistinct(s.parents);
    InitialInv(s);
  }

  lemma RootsDistinct(parents: Parents)
    requires forall a :: 0 <= a < |parents| ==> parents[a].None?
    ensures ChargesDistinct(parents)
  {
    forall a | 0 <= a < |parents|
      ensures NoDup(Chain(parents, Some(a), DEPTH_MAX))
    {
      RootChain(parents, a, DEPTH_MAX);
    }
  }

  lemma ShopInstalls()
    ensures Inv(Shop()) && Inv(AllocInstall(Shop(), 0, 1, {}, 0).state)
    ensures var s := AllocInstall(Shop(), 0, 1, {}, 0).state;
            s.parents == [None, None] && |s.cnodes| == 1 && !EmptyCNode(s.cnodes[0]) && s.cnodes[0].account == Some(0)
  {
    ShopIsInitial();
    var s := Shop();
    assert FirstFree(s.cnodes[0].slots, 1) == 1;
    RootChain(s.parents, 0, DEPTH_MAX);
    StepKeepsInv(s, OpAlloc(0, 1, {}, 0));
    assert SlotAt(AllocInstall(s, 0, 1, {}, 0).state.cnodes, Loc(0, 1)).typ == 1;
  }

  lemma LinkIsSeen(parents: Parents, q: nat, p: nat, n: nat)
    requires q < |parents| && p < |parents| && parents[q] == Some(p) && n >= 2
    ensures p in Chain(parents, Some(q), n)
  {
    assert Chain(parents, Some(p), n - 1)[0] == p;
    assert Chain(parents, Some(q), n) == [q] + Chain(parents, Some(p), n - 1);
  }

  /** Linking the charged account under the other one leaves that one a slot short. */
  lemma AdoptCanUnbalance()
    ensures Initial(Shop()) && Inv(Shop())
    ensures var s := AllocInstall(Shop(), 0, 1, {}, 0).state;
            Inv(s) && |s.parents| == 2 && !Balanced(s.used, s.cnodes, SetParent(s.parents, 0, Some(1)))
  {
    ShopIsInitial();
    ShopInstalls();
    var s := AllocInstall(Shop(), 0, 1, {}, 0).state;
    RootChain(s.parents, 0, DEPTH_MAX);
    RootChain(s.parents, 1, DEPTH_MAX);
    var linked := SetParent(s.parents, 0, Some(1));
    LinkIsSeen(linked, 0, 1, DEPTH_MAX);
    assert !SameAccounts(s.parents, s.cnodes[0].account, linked, s.cnodes[0].account);
    AdoptBalancesIff(s, 0, Some(1));
  }
}
