/**
 Hierarchical slot-quota accounts: a charge walks from an account towards its root, at most
 DEPTH_MAX nodes, and either bumps every visited account or none of them.
 An account is named by its index; `parents[a]` is the account's parent link.
 */
module QuotaLedger {
  import opened Words

  const DEPTH_MAX: nat := 8

  type Parents = seq<Option<nat>>

  ghost predicate Closed(parents: Parents) {
    forall a :: 0 <= a < |parents| && parents[a].Some? ==> parents[a].value < |parents|
  }

  ghost predicate InTable(parents: Parents, a: Option<nat>) {
    a.Some? ==> a.value < |parents|
  }

  predicate AllBelow(c: seq<nat>, n: nat) {
    forall i :: 0 <= i < |c| ==> c[i] < n
  }

  /** The first `fuel` accounts met when walking from `a` towards the root. */
  function Chain(parents: Parents, a: Option<nat>, fuel: nat): (c: seq<nat>)
    ensures |c| <= fuel && AllBelow(c, |parents|)
    decreases fuel
  {
    if fuel == 0 || a.None? || a.value >= |parents| then []
    else [a.value] + Chain(parents, parents[a.value], fuel - 1)
  }

  /** The accounts one charge against `a` touches. */
  function ChargeChain(parents: Parents, a: Option<nat>): (c: seq<nat>)
    ensures AllBelow(c, |parents|)
  {
    Chain(parents, a, DEPTH_MAX)
  }

  /** Pass 1 of a charge: every visited account has room. */
  predicate HasRoom(limits: seq<nat>, used: seq<nat>, chain: seq<nat>)
    requires |limits| == |used|
    requires AllBelow(chain, |used|)
  {
    forall i :: 0 <= i < |chain| ==> used[chain[i]] < limits[chain[i]]
  }

  lemma HasRoomCons(limits: seq<nat>, used: seq<nat>, a: nat, rest: seq<nat>)
    requires |limits| == |used| && a < |used| && AllBelow(rest, |used|)
    ensures HasRoom(limits, used, [a] + rest) <==> used[a] < limits[a] && HasRoom(limits, used, rest)
  {
    var c := [a] + rest;
    assert c[0] == a && c[1..] == rest;
    forall i | 0 <= i < |rest| && HasRoom(limits, used, c)
      ensures used[rest[i]] < limits[rest[i]]
    {
      assert c[i + 1] == rest[i];
    }
  }

  /** Pass 2 of a charge: bump every visited account, in walking order. */
  function BumpAll(used: seq<nat>, chain: seq<nat>): (r: seq<nat>)
    requires AllBelow(chain, |used|)
    ensures |r| == |used|
    decreases |chain|
  {
    if chain == [] then used
    else BumpAll(used[chain[0] := Inc32(used[chain[0]])], chain[1..])
  }

  /** A refund: decrement every visited account, stopping at zero. */
  function DropAll(used: seq<nat>, chain: seq<nat>): (r: seq<nat>)
    requires AllBelow(chain, |used|)
    ensures |r| == |used|
    decreases |chain|
  {
    if chain == [] then used
    else DropAll(used[chain[0] := Dec(used[chain[0]])], chain[1..])
  }

  // ---- A charge moves each account on a repetition-free chain by exactly one.

  lemma {:induction false} BumpAllAt(used: seq<nat>, chain: seq<nat>, a: nat)
    requires NoDup(chain) && a < |used|
    requires AllBelow(chain, |used|)
    requires forall i :: 0 <= i < |chain| ==> used[chain[i]] < U32_MAX
    ensures BumpAll(used, chain)[a] == used[a] + (if a in chain then 1 else 0)
    decreases |chain|
  {
    if chain == [] {
    } else {
      assert chain == [chain[0]] + chain[1..];
      BumpAllAt(used[chain[0] := Inc32(used[chain[0]])], chain[1..], a);
    }
  }

  lemma {:induction false} DropAllAt(used: seq<nat>, chain: seq<nat>, a: nat)
    requires NoDup(chain) && a < |used|
    requires AllBelow(chain, |used|)
    ensures DropAll(used, chain)[a] == if a in chain then Dec(used[a]) else used[a]
    decreases |chain|
  {
    if chain == [] {
    } else {
      assert chain == [chain[0]] + chain[1..];
      DropAllAt(used[chain[0] := Dec(used[chain[0]])], chain[1..], a);
    }
  }

  ghost predicate WithinLimits(limits: seq<nat>, used: seq<nat>) {
    && |limits| == |used|
    && forall a :: 0 <= a < |used| ==> used[a] <= limits[a] <= U32_MAX
  }

  /** A charge that passes pass 1 keeps every account of the table within its limit. */
  lemma ChargeKeepsLimits(limits: seq<nat>, used: seq<nat>, chain: seq<nat>)
    requires WithinLimits(limits, used) && NoDup(chain)
    requires AllBelow(chain, |used|)
    requires HasRoom(limits, used, chain)
    ensures WithinLimits(limits, BumpAll(used, chain))
  {
    forall a | 0 <= a < |used|
      ensures BumpAll(used, chain)[a] <= limits[a]
    {
      BumpAllAt(used, chain, a);
      if a in chain {
        var i :| 0 <= i < |chain| && chain[i] == a;
      }
    }
  }

  /** A refund undoes the charge of the same chain. */
  lemma RefundUndoesCharge(limits: seq<nat>, used: seq<nat>, chain: seq<nat>)
    requires WithinLimits(limits, used) && NoDup(chain)
    requires AllBelow(chain, |used|)
    requires HasRoom(limits, used, chain)
    ensures DropAll(BumpAll(used, chain), chain) == used
  {
    var bumped := BumpAll(used, chain);
    forall a | 0 <= a < |used|
      ensures DropAll(bumped, chain)[a] == used[a]
    {
      BumpAllAt(used, chain, a);
      DropAllAt(bumped, chain, a);
    }
  }

  // ---- Chains in general, which may visit an account more than once.

  function Visits(chain: seq<nat>, a: nat): (n: nat)
    ensures n <= |chain|
  {
    if chain == [] then 0 else (if chain[0] == a then 1 else 0) + Visits(chain[1..], a)
  }

  /** A charge moves an account by the number of times the chain visits it, in 32-bit arithmetic. */
  lemma {:induction false} BumpAllCount(used: seq<nat>, chain: seq<nat>, a: nat)
    requires AllBelow(chain, |used|) && a < |used| && used[a] <= U32_MAX
    ensures BumpAll(used, chain)[a] == (used[a] + Visits(chain, a)) % U32_LIMIT
    decreases |chain|
  {
    if chain == [] {
    } else {
      BumpAllCount(used[chain[0] := Inc32(used[chain[0]])], chain[1..], a);
    }
  }

  lemma {:induction false} DropAllCount(used: seq<nat>, chain: seq<nat>, a: nat)
    requires AllBelow(chain, |used|) && a < |used|
    ensures DropAll(used, chain)[a] == if Visits(chain, a) <= used[a] then used[a] - Visits(chain, a) else 0
    decreases |chain|
  {
    if chain == [] {
    } else {
      DropAllCount(used[chain[0] := Dec(used[chain[0]])], chain[1..], a);
    }
  }

  /**
   An account ends a charge above its limit exactly when the chain visits it more often than it has room for,
   as long as its counter does not wrap.
   */
  lemma {:induction false} OverLimitIff(limits: seq<nat>, used: seq<nat>, chain: seq<nat>, a: nat)
    requires WithinLimits(limits, used) && AllBelow(chain, |used|) && a < |used|
    ensures BumpAll(used, chain)[a] > limits[a] <==> (used[a] + Visits(chain, a)) % U32_LIMIT > limits[a]
    ensures used[a] + Visits(chain, a) <= U32_MAX ==>
              (BumpAll(used, chain)[a] > limits[a] <==> Visits(chain, a) > limits[a] - used[a])
  {
    BumpAllCount(used, chain, a);
    NoWrap(used[a] + Visits(chain, a));
  }

  lemma NoWrap(x: nat)
    ensures x <= U32_MAX ==> x % U32_LIMIT == x
  {
  }

  /** A refund of the same chain restores every account exactly when no counter wrapped. */
  lemma RefundUndoesChargeIff(used: seq<nat>, chain: seq<nat>)
    requires AllBelow(chain, |used|) && |chain| <= U32_MAX && forall a :: 0 <= a < |used| ==> used[a] <= U32_MAX
    ensures DropAll(BumpAll(used, chain), chain) == used <==>
            forall a :: 0 <= a < |used| ==> used[a] + Visits(chain, a) <= U32_MAX
  {
    var after := DropAll(BumpAll(used, chain), chain);
    forall a | 0 <= a < |used|
      ensures after[a] == used[a] <==> used[a] + Visits(chain, a) <= U32_MAX
    {
      BumpAllCount(used, chain, a);
      DropAllCount(BumpAll(used, chain), chain, a);
    }
  }

  // ---- Chains that end within the depth bound.

  /** Walking from `a` reaches a root after at most DEPTH_MAX accounts. */
  ghost predicate Bounded(parents: Parents, a: Option<nat>) {
    Chain(parents, a, DEPTH_MAX + 1) == Chain(parents, a, DEPTH_MAX)
  }

  ghost predicate AllBounded(parents: Parents) {
    forall a :: 0 <= a < |parents| ==> Bounded(parents, Some(a))
  }

  lemma {:induction false} ChainPrefix(parents: Parents, a: Option<nat>, n: nat, m: nat)
    requires n <= m
    ensures Chain(parents, a, n) <= Chain(parents, a, m)
    decreases n
  {
    if n == 0 || a.None? || a.value >= |parents| {
    } else {
      ChainPrefix(parents, parents[a.value], n - 1, m - 1);
    }
  }

  /** The chain from the node at position `i` is what remains of the chain. */
  lemma {:induction false} ChainSuffix(parents: Parents, a: Option<nat>, n: nat, i: nat)
    requires i < |Chain(parents, a, n)|
    ensures i < n && Chain(parents, Some(Chain(parents, a, n)[i]), n - i) == Chain(parents, a, n)[i..]
    decreases n
  {
    if i == 0 {
    } else {
      ChainSuffix(parents, parents[a.value], n - 1, i - 1);
    }
  }

  /** A chain shorter than its fuel stays the same with more fuel. */
  lemma {:induction false} ChainEnded(parents: Parents, a: Option<nat>, n: nat, m: nat)
    requires |Chain(parents, a, n)| < n <= m
    ensures Chain(parents, a, m) == Chain(parents, a, n)
    decreases n
  {
    if a.None? || a.value >= |parents| {
    } else {
      ChainEnded(parents, parents[a.value], n - 1, m - 1);
    }
  }

  lemma EndedChainNoDup(parents: Parents, a: Option<nat>, n: nat)
    requires |Chain(parents, a, n)| < n
    ensures NoDup(Chain(parents, a, n))
  {
    var c := Chain(parents, a, n);
    forall i, j | 0 <= i < j < |c|
      ensures c[i] != c[j]
    {
      ChainSuffix(parents, a, n, i);
      ChainSuffix(parents, a, n, j);
      if c[i] == c[j] {
        ChainEnded(parents, Some(c[j]), n - j, n - i);
      }
    }
  }

  /** A chain that ends within the bound visits no account twice. */
  lemma BoundedChainNoDup(parents: Parents, a: Option<nat>)
    requires Bounded(parents, a)
    ensures NoDup(ChargeChain(parents, a))
  {
    EndedChainNoDup(parents, a, DEPTH_MAX + 1);
  }

  // ---- Re-parenting.

  /** The link update of the source: refused when `q` is met within DEPTH_MAX nodes of `p`. */
  function SetParent(parents: Parents, q: nat, p: Option<nat>): (r: Parents)
    requires q < |parents|
    ensures |r| == |parents|
    ensures r == parents || r == parents[q := p]
  {
    if p.None? then parents[q := None]
    else if p.value == q then parents
    else if q in ChargeChain(parents, p) then parents
    else parents[q := p]
  }

  // ---- No link update makes a charge visit an account twice.

  ghost predicate ChainsDistinct(parents: Parents, n: nat) {
    forall a :: 0 <= a < |parents| ==> NoDup(Chain(parents, Some(a), n))
  }

  /** No charge visits an account twice. */
  ghost predicate ChargesDistinct(parents: Parents) {
    ChainsDistinct(parents, DEPTH_MAX)
  }

  lemma ChargeChainNoDup(parents: Parents, account: Option<nat>)
    requires ChargesDistinct(parents) && InTable(parents, account)
    ensures NoDup(ChargeChain(parents, account))
  {
  }

  lemma BoundedChargesDistinct(parents: Parents)
    requires AllBounded(parents)
    ensures ChargesDistinct(parents)
  {
    forall a | 0 <= a < |parents|
      ensures NoDup(ChargeChain(parents, Some(a)))
    {
      BoundedChainNoDup(parents, Some(a));
    }
  }

  lemma {:induction false} ChainAvoiding(parents: Parents, q: nat, p: Option<nat>, a: Option<nat>, n: nat)
    requires q < |parents| && q !in Chain(parents, a, n)
    ensures Chain(parents[q := p], a, n) == Chain(parents, a, n)
    decreases n
  {
    if n == 0 || a.None? || a.value >= |parents| {
    } else {
      assert Chain(parents, a, n)[0] == a.value;
      ChainAvoiding(parents, q, p, parents[a.value], n - 1);
    }
  }

  lemma TailAvoids(c: seq<nat>, x: nat, tail: seq<nat>, q: nat, i: nat)
    requires c == [x] + tail && 0 < i <= |c| && q !in c[..i]
    ensures x != q && c[..i] == [x] + tail[..i - 1] && q !in tail[..i - 1]
  {
    assert c[..i] == [x] + tail[..i - 1];
    assert c[..i][0] == x;
  }

  /** A chain through the redirected account is the old way to it and then the way from its new parent. */
  lemma {:induction false} ChainRelinked(parents: Parents, q: nat, p: Option<nat>, a: Option<nat>, n: nat, i: nat)
    requires q < |parents| && i < |Chain(parents, a, n)| && Chain(parents, a, n)[i] == q
    requires q !in Chain(parents, a, n)[..i]
    ensures i < n
    ensures Chain(parents[q := p], a, n) == Chain(parents, a, n)[..i] + [q] + Chain(parents[q := p], p, n - i - 1)
    decreases n
  {
    var c, parents' := Chain(parents, a, n), parents[q := p];
    if i == 0 {
      assert c[..0] + [q] == [q];
    } else {
      var x, tail := a.value, Chain(parents, parents[a.value], n - 1);
      TailAvoids(c, x, tail, q, i);
      ChainRelinked(parents, q, p, parents[x], n - 1, i - 1);
      assert Chain(parents', a, n) == [x] + Chain(parents', parents[x], n - 1);
      Regroup(x, tail[..i - 1], [q], Chain(parents', p, n - i - 1));
    }
  }

  lemma Regroup(x: nat, s: seq<nat>, t: seq<nat>, u: seq<nat>)
    ensures [x] + (s + t + u) == [x] + s + t + u
  {
  }

  /** Where a chain to `q` and the chain of `p` meet early enough, the chain of `p` meets `q` too. */
  lemma MeetingReaches(parents: Parents, q: nat, p: nat, n: nat, a: Option<nat>, i: nat, j: nat, k: nat)
    requires j <= i < |Chain(parents, a, n)| && Chain(parents, a, n)[i] == q
    requires k + i + 1 < n && k < |Chain(parents, Some(p), n)|
    requires Chain(parents, a, n)[j] == Chain(parents, Some(p), n)[k]
    ensures q in Chain(parents, Some(p), n)
  {
    var c, d := Chain(parents, a, n), Chain(parents, Some(p), n);
    ChainSuffix(parents, a, n, j);
    ChainSuffix(parents, Some(p), n, k);
    assert c[j..][i - j] == q;
    ReachesWithin(parents, Some(c[j]), n - j, n - k, i - j);
    assert d[k..][i - j] == q;
    assert d[k + (i - j)] == q;
  }

  lemma ReachesWithin(parents: Parents, a: Option<nat>, n: nat, m: nat, i: nat)
    requires i < |Chain(parents, a, n)| && i < m
    ensures i < |Chain(parents, a, m)| && Chain(parents, a, m)[i] == Chain(parents, a, n)[i]
  {
    if n <= m {
      ChainPrefix(parents, a, n, m);
    } else {
      ChainPrefix(parents, a, m, n);
      if |Chain(parents, a, m)| < m {
        ChainEnded(parents, a, m, n);
      }
    }
  }

  /** The first visit of `q` on a chain. */
  lemma {:induction false} FirstVisit(c: seq<nat>, q: nat) returns (i: nat)
    requires q in c
    ensures i < |c| && c[i] == q && q !in c[..i]
    decreases |c|
  {
    if c[0] == q {
      i := 0;
    } else {
      var k := FirstVisit(c[1..], q);
      i := k + 1;
      assert c[..i] == [c[0]] + c[1..][..k];
    }
  }

  lemma ConcatNoDup(s: seq<nat>, t: seq<nat>)
    requires NoDup(s) && NoDup(t)
    requires forall j, k :: 0 <= j < |s| && 0 <= k < |t| ==> s[j] != t[k]
    ensures NoDup(s + t)
  {
  }

  lemma PrefixNoDup(s: seq<nat>, t: seq<nat>)
    requires s <= t && NoDup(t)
    ensures NoDup(s)
  {
  }

  /** The way from the new parent is as it was. */
  lemma NewWay(parents: Parents, q: nat, p: nat, n: nat, m: nat)
    requires q < |parents| && q !in Chain(parents, Some(p), n) && m <= n
    ensures Chain(parents[q := Some(p)], Some(p), m) <= Chain(parents, Some(p), n)
  {
    ChainAvoiding(parents, q, Some(p), Some(p), n);
    ChainPrefix(parents[q := Some(p)], Some(p), m, n);
  }

  lemma RelinkedChainDistinct(parents: Parents, q: nat, p: nat, n: nat, a: nat, i: nat)
    requires q < |parents| && p < |parents| && i < |Chain(parents, Some(a), n)| && Chain(parents, Some(a), n)[i] == q
    requires NoDup(Chain(parents, Some(a), n)) && NoDup(Chain(parents, Some(p), n)) && q !in Chain(parents, Some(p), n)
    requires q !in Chain(parents, Some(a), n)[..i]
    ensures NoDup(Chain(parents[q := Some(p)], Some(a), n))
  {
    var c, d := Chain(parents, Some(a), n), Chain(parents, Some(p), n);
    ChainRelinked(parents, q, Some(p), Some(a), n, i);
    var way, rest := c[..i] + [q], Chain(parents[q := Some(p)], Some(p), n - i - 1);
    NewWay(parents, q, p, n, n - i - 1);
    PrefixNoDup(rest, d);
    assert way == c[..i + 1];
    PrefixNoDup(way, c);
    forall j, k | 0 <= j < |way| && 0 <= k < |rest|
      ensures way[j] != rest[k]
    {
      assert way[j] == c[j] && rest[k] == d[k];
      if c[j] == d[k] {
        MeetingReaches(parents, q, p, n, Some(a), i, j, k);
      }
    }
    ConcatNoDup(way, rest);
  }

  lemma RelinkKeepsDistinct(parents: Parents, q: nat, p: nat, n: nat)
    requires q < |parents| && p < |parents| && ChainsDistinct(parents, n) && q !in Chain(parents, Some(p), n)
    ensures ChainsDistinct(parents[q := Some(p)], n)
  {
    forall a | 0 <= a < |parents|
      ensures NoDup(Chain(parents[q := Some(p)], Some(a), n))
    {
      var c := Chain(parents, Some(a), n);
      if q !in c {
        ChainAvoiding(parents, q, Some(p), Some(a), n);
      } else {
        var i := FirstVisit(c, q);
        RelinkedChainDistinct(parents, q, p, n, a, i);
      }
    }
  }

  lemma UnlinkKeepsDistinct(parents: Parents, q: nat, n: nat)
    requires q < |parents| && ChainsDistinct(parents, n)
    ensures ChainsDistinct(parents[q := None], n)
  {
    forall a | 0 <= a < |parents|
      ensures NoDup(Chain(parents[q := None], Some(a), n))
    {
      var c := Chain(parents, Some(a), n);
      if q !in c {
        ChainAvoiding(parents, q, None, Some(a), n);
      } else {
        var i := FirstVisit(c, q);
        ChainRelinked(parents, q, None, Some(a), n, i);
      }
    }
  }

  /** The link update keeps every charge chain free of repetition, even where it closes a cycle. */
  lemma SetParentKeepsDistinct(parents: Parents, q: nat, p: Option<nat>)
    requires q < |parents| && InTable(parents, p) && ChargesDistinct(parents)
    ensures ChargesDistinct(SetParent(parents, q, p))
  {
    if p.None? {
      UnlinkKeepsDistinct(parents, q, DEPTH_MAX);
    } else if q !in ChargeChain(parents, p) && p.value != q {
      RelinkKeepsDistinct(parents, q, p.value, DEPTH_MAX);
    }
  }

  datatype Relink = Relink(q: nat, p: Option<nat>)

  ghost predicate LinksInTable(links: seq<Relink>, n: nat) {
    forall i :: 0 <= i < |links| ==> links[i].q < n && (links[i].p.Some? ==> links[i].p.value < n)
  }

  /** The parents after a sequence of link updates. */
  ghost function LinkAll(parents: Parents, links: seq<Relink>): (r: Parents)
    requires LinksInTable(links, |parents|)
    ensures |r| == |parents|
  {
    if links == [] then parents
    else
      var n := |links| - 1;
      SetParent(LinkAll(parents, links[..n]), links[n].q, links[n].p)
  }

  /** However separate accounts are linked up, no charge ever visits an account twice. */
  lemma {:induction false} LinkedChainsDistinct(n: nat, links: seq<Relink>)
    requires LinksInTable(links, n)
    ensures ChargesDistinct(LinkAll(seq(n, _ => None), links))
    decreases |links|
  {
    var roots: Parents := seq(n, _ => None);
    if links == [] {
      forall a | 0 <= a < n
        ensures NoDup(Chain(roots, Some(a), DEPTH_MAX))
      {
        RootChain(roots, a, DEPTH_MAX);
      }
    } else {
      var k := |links| - 1;
      LinkedChainsDistinct(n, links[..k]);
      SetParentKeepsDistinct(LinkAll(roots, links[..k]), links[k].q, links[k].p);
    }
  }

  lemma RootChain(parents: Parents, a: nat, n: nat)
    requires a < |parents| && parents[a].None?
    ensures |Chain(parents, Some(a), n)| <= 1
  {
    if n == 0 {
    } else {
      assert Chain(parents, parents[a], n - 1) == [];
    }
  }

  ghost predicate RankedBy(parents: Parents, rank: seq<nat>) {
    && |rank| == |parents|
    && forall a :: 0 <= a < |parents| && parents[a].Some? && parents[a].value < |parents| ==>
         rank[parents[a].value] < rank[a]
  }

  /** No account is its own ancestor: some rank falls along every parent link. */
  ghost predicate Acyclic(parents: Parents) {
    exists rank :: RankedBy(parents, rank)
  }

  /** `x` is `a` or lies above it, however far. */
  ghost predicate Above(parents: Parents, a: nat, x: nat) {
    exists n: nat :: x in Chain(parents, Some(a), n)
  }

  lemma {:induction false} RankFallsAlongChain(parents: Parents, rank: seq<nat>, a: nat, n: nat, x: nat)
    requires RankedBy(parents, rank)
    requires a < |parents| && x in Chain(parents, Some(a), n)
    ensures rank[x] <= rank[a]
    decreases n
  {
    if x == a {
    } else {
      RankFallsAlongChain(parents, rank, parents[a].value, n - 1, x);
    }
  }

  /** Redirecting `q` does not disturb the walk up to the first visit of `q`. */
  lemma {:induction false} WalkToRedirected(parents: Parents, q: nat, p: Option<nat>, a: Option<nat>, n: nat)
    requires q < |parents| && q in Chain(parents, a, n)
    ensures q in Chain(parents[q := p], a, n)
    decreases n
  {
    if a.value == q {
    } else {
      WalkToRedirected(parents, q, p, parents[a.value], n - 1);
    }
  }

  lemma AboveThroughParent(parents: Parents, a: nat, x: nat)
    requires a < |parents| && parents[a].Some? && parents[a].value < |parents|
    requires a != x
    ensures Above(parents, a, x) <==> Above(parents, parents[a].value, x)
  {
    var b := parents[a].value;
    if Above(parents, a, x) {
      var n: nat :| x in Chain(parents, Some(a), n);
      assert x in Chain(parents, Some(b), n - 1);
    }
    if Above(parents, b, x) {
      var n: nat :| x in Chain(parents, Some(b), n);
      assert x in Chain(parents, Some(a), n + 1);
    }
  }

  lemma NewLinkStaysAcyclic(parents: Parents, q: nat, p: nat)
    requires Closed(parents) && Acyclic(parents) && q < |parents| && p < |parents|
    requires !Above(parents, p, q)
    ensures Acyclic(parents[q := Some(p)])
  {
    var rank :| RankedBy(parents, rank);
    var lifted := seq(|parents|, (x: nat) requires x < |rank| && p < |rank| =>
      if Above(parents, x, q) then rank[x] + rank[p] + 1 else rank[x]);
    var parents' := parents[q := Some(p)];
    assert q in Chain(parents, Some(q), 1);
    forall a | 0 <= a < |parents| && parents'[a].Some? && parents'[a].value < |parents|
      ensures lifted[parents'[a].value] < lifted[a]
    {
      if a != q {
        AboveThroughParent(parents, a, q);
      }
    }
    assert RankedBy(parents', lifted);
  }

  lemma ClosedCycleIsCyclic(parents: Parents, q: nat, p: nat)
    requires q < |parents| && p < |parents| && Above(parents, p, q)
    ensures !Acyclic(parents[q := Some(p)])
  {
    var parents' := parents[q := Some(p)];
    var n: nat :| q in Chain(parents, Some(p), n);
    WalkToRedirected(parents, q, Some(p), Some(p), n);
    if Acyclic(parents') {
      var rank :| RankedBy(parents', rank);
      assert parents'[q] == Some(p) && rank[p] < rank[q];
      RankFallsAlongChain(parents', rank, p, n, q);
    }
  }

  /**
   Re-parenting keeps the account graph acyclic exactly when `q` is not hidden above `p`
   beyond the first DEPTH_MAX nodes, which is as far as the source looks.
   */
  lemma SetParentAcyclicIff(parents: Parents, q: nat, p: nat)
    requires Closed(parents) && Acyclic(parents) && q < |parents| && p < |parents|
    ensures Acyclic(SetParent(parents, q, Some(p))) <==>
            (Above(parents, p, q) ==> q in ChargeChain(parents, Some(p)))
  {
    assert Chain(parents, Some(p), DEPTH_MAX)[0] == p;
    if q in ChargeChain(parents, Some(p)) {
      assert Chain(parents, Some(p), DEPTH_MAX) == ChargeChain(parents, Some(p));
    } else {
      if Above(parents, p, q) {
        ClosedCycleIsCyclic(parents, q, p);
      } else {
        NewLinkStaysAcyclic(parents, q, p);
      }
    }
  }

  /** A caller who knows that the new parent's chain ends within the bound is safe. */
  lemma SetParentAcyclicWhenBounded(parents: Parents, q: nat, p: nat)
    requires Closed(parents) && Acyclic(parents) && q < |parents| && p < |parents|
    requires Bounded(parents, Some(p))
    ensures Acyclic(SetParent(parents, q, Some(p)))
  {
    if Above(parents, p, q) {
      var n: nat :| q in Chain(parents, Some(p), n);
      var k := DEPTH_MAX + 1;
      if n <= k {
        ChainPrefix(parents, Some(p), n, k);
      } else {
        ChainEnded(parents, Some(p), k, n);
      }
      assert q in Chain(parents, Some(p), k);
    }
    SetParentAcyclicIff(parents, q, p);
  }

  /** `n` accounts in a line: account 0 the leaf, account n - 1 the root. */
  ghost function Line(n: nat): Parents {
    seq(n, i => if i + 1 < n then Some(i + 1) else None)
  }

  lemma {:induction false} LineReaches(n: nat, a: nat, k: nat, x: nat)
    requires a < n && a <= x < n
    ensures x in Chain(Line(n), Some(a), k) <==> x < a + k
    decreases k
  {
    if k == 0 {
    } else {
      assert Chain(Line(n), Some(a), k) == [a] + Chain(Line(n), Line(n)[a], k - 1);
      if a < x {
        LineReaches(n, a + 1, k - 1, x);
      }
    }
  }

  lemma LineAcyclic(n: nat)
    ensures Closed(Line(n)) && Acyclic(Line(n))
  {
    assert RankedBy(Line(n), seq(n, i requires 0 <= i < n => n - 1 - i));
  }

  lemma LineHidesRoot(n: nat, depth: nat)
    requires depth < n
    ensures n - 1 !in Chain(Line(n), Some(0), depth) && Above(Line(n), 0, n - 1)
  {
    LineReaches(n, 0, n, n - 1);
    LineReaches(n, 0, depth, n - 1);
  }

  /** The bound is tight: linking the root of a long line under its leaf closes a cycle. */
  lemma SetParentCanCloseCycle(n: nat)
    requires DEPTH_MAX < n
    ensures Closed(Line(n)) && Acyclic(Line(n))
    ensures !Acyclic(SetParent(Line(n), n - 1, Some(0)))
  {
    LineAcyclic(n);
    LineHidesRoot(n, DEPTH_MAX);
    SetParentAcyclicIff(Line(n), n - 1, 0);
  }

  // ---- The tables updated in place.

  class Ledger {
    const limits: array<nat>
    const used: array<nat>
    const parents: array<Option<nat>>

    ghost predicate Valid()
      reads parents
    {
      && limits.Length == used.Length == parents.Length
      && limits != used
      && Closed(parents[..])
    }

    constructor (limitTable: array<nat>, usedTable: array<nat>, parentTable: array<Option<nat>>)
      requires limitTable.Length == usedTable.Length == parentTable.Length
      requires limitTable != usedTable && Closed(parentTable[..])
      ensures Valid() && limits == limitTable && used == usedTable && parents == parentTable
    {
      limits, used, parents := limitTable, usedTable, parentTable;
    }

    /** `gj_cap_quota_slot_charge`: check the whole chain, then commit the whole chain. */
    method Charge(account: Option<nat>) returns (ok: bool)
      requires Valid() && InTable(parents[..], account)
      modifies used
      ensures ok == HasRoom(limits[..], old(used[..]), ChargeChain(parents[..], account))
      ensures used[..] == if ok then BumpAll(old(used[..]), ChargeChain(parents[..], account))
                          else old(used[..])
    {
      ok := CheckRoom(account);
      if ok {
        Commit(account);
      }
    }

    /** Pass 1 of the charge. */
    method CheckRoom(account: Option<nat>) returns (ok: bool)
      requires Valid() && InTable(parents[..], account)
      ensures ok == HasRoom(limits[..], used[..], ChargeChain(parents[..], account))
    {
      ghost var ps := parents[..];
      var walk, depth := account, 0;
      while walk.Some? && depth < DEPTH_MAX
        invariant depth <= DEPTH_MAX && InTable(ps, walk)
        invariant HasRoom(limits[..], used[..], ChargeChain(ps, account)) <==>
                  HasRoom(limits[..], used[..], Chain(ps, walk, DEPTH_MAX - depth))
      {
        ghost var rest := Chain(ps, ps[walk.value], DEPTH_MAX - depth - 1);
        HasRoomCons(limits[..], used[..], walk.value, rest);
        if used[walk.value] >= limits[walk.value] {
          return false;
        }
        walk, depth := parents[walk.value], depth + 1;
      }
      ok := true;
    }

    /** Pass 2 of the charge. */
    method Commit(account: Option<nat>)
      requires Valid() && InTable(parents[..], account)
      modifies used
      ensures used[..] == BumpAll(old(used[..]), ChargeChain(parents[..], account))
    {
      ghost var ps := parents[..];
      var walk, depth := account, 0;
      while walk.Some? && depth < DEPTH_MAX
        invariant depth <= DEPTH_MAX && InTable(ps, walk)
        invariant BumpAll(used[..], Chain(ps, walk, DEPTH_MAX - depth)) ==
                  BumpAll(old(used[..]), ChargeChain(ps, account))
      {
        ghost var before, rest := used[..], Chain(ps, walk, DEPTH_MAX - depth);
        used[walk.value] := Inc32(used[walk.value]);
        assert used[..] == before[walk.value := Inc32(before[walk.value])];
        walk, depth := parents[walk.value], depth + 1;
        assert rest[1..] == Chain(ps, walk, DEPTH_MAX - depth);
      }
    }

    /** `gj_cap_quota_slot_refund`. */
    method Refund(account: Option<nat>)
      requires Valid() && InTable(parents[..], account)
      modifies used
      ensures used[..] == DropAll(old(used[..]), ChargeChain(parents[..], account))
    {
      ghost var ps := parents[..];
      var walk, depth := account, 0;
      while walk.Some? && depth < DEPTH_MAX
        invariant depth <= DEPTH_MAX && InTable(ps, walk)
        invariant DropAll(used[..], Chain(ps, walk, DEPTH_MAX - depth)) ==
                  DropAll(old(used[..]), ChargeChain(ps, account))
      {
        ghost var before, rest := used[..], Chain(ps, walk, DEPTH_MAX - depth);
        used[walk.value] := Dec(used[walk.value]);
        assert used[..] == before[walk.value := Dec(before[walk.value])];
        walk, depth := parents[walk.value], depth + 1;
        assert rest[1..] == Chain(ps, walk, DEPTH_MAX - depth);
      }
    }

    /** `gj_cap_quota_set_parent`. */
    method Reparent(q: nat, p: Option<nat>)
      requires Valid() && q < parents.Length && InTable(parents[..], p)
      modifies parents
      ensures Valid() && parents[..] == SetParent(old(parents[..]), q, p)
    {
      if p.None? {
        parents[q] := None;
      } else if p.value != q {
        var hit := OnChain(q, p);
        if !hit {
          parents[q] := p;
        }
      }
    }

    /** The cycle guard of the link update: is `q` among the first DEPTH_MAX nodes from `p`? */
    method OnChain(q: nat, p: Option<nat>) returns (hit: bool)
      requires Valid() && InTable(parents[..], p)
      ensures hit == (q in ChargeChain(parents[..], p))
    {
      ghost var ps := parents[..];
      var walk, depth := p, 0;
      while walk.Some? && depth < DEPTH_MAX
        invariant depth <= DEPTH_MAX && InTable(ps, walk)
        invariant q in ChargeChain(ps, p) <==> q in Chain(ps, walk, DEPTH_MAX - depth)
      {
        if walk.value == q {
          return true;
        }
        walk, depth := parents[walk.value], depth + 1;
      }
      hit := false;
    }
  }
}
