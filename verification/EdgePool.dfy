/**
 The derivation index: one singly linked list of edges per object, threaded through a fixed
 pool of nodes with a used flag each. A pool node is named by its index.
 */
module EdgePool {
  import opened Words

  /** One slot of one CNode. */
  datatype Loc = Loc(cnode: nat, slot: nat)

  datatype Edge = Edge(next: Option<nat>, target: Option<Loc>)

  const FREE_EDGE := Edge(None, None)

  // ---- Value-level helpers.

  function CountTrue(s: seq<bool>): (n: nat)
    ensures n <= |s|
  {
    if s == [] then 0 else (if s[|s| - 1] then 1 else 0) + CountTrue(s[..|s| - 1])
  }

  lemma {:induction false} CountTrueUpdate(s: seq<bool>, k: nat, b: bool)
    requires k < |s|
    ensures CountTrue(s[k := b]) == CountTrue(s) - (if s[k] then 1 else 0) + (if b then 1 else 0)
  {
    var n := |s| - 1;
    if k == n {
      assert s[k := b][..n] == s[..n];
    } else {
      assert s[k := b][..n] == s[..n][k := b];
      CountTrueUpdate(s[..n], k, b);
    }
  }

  lemma {:induction false} CountTrueFull(s: seq<bool>)
    ensures CountTrue(s) == |s| <==> forall k :: 0 <= k < |s| ==> s[k]
  {
    if s == [] {
    } else {
      CountTrueFull(s[..|s| - 1]);
    }
  }

  function SumLen<T>(lists: seq<seq<T>>): nat {
    if lists == [] then 0 else |lists[|lists| - 1]| + SumLen(lists[..|lists| - 1])
  }

  lemma {:induction false} SumLenUpdate<T>(lists: seq<seq<T>>, o: nat, l: seq<T>)
    requires o < |lists|
    ensures SumLen(lists[o := l]) == SumLen(lists) - |lists[o]| + |l|
  {
    var n := |lists| - 1;
    if o == n {
      assert lists[o := l][..n] == lists[..n];
    } else {
      assert lists[o := l][..n] == lists[..n][o := l];
      SumLenUpdate(lists[..n], o, l);
    }
  }

  lemma {:induction false} SumLenSame<S, T>(a: seq<seq<S>>, b: seq<seq<T>>)
    requires |a| == |b|
    requires forall i :: 0 <= i < |a| ==> |a[i]| == |b[i]|
    ensures SumLen(a) == SumLen(b)
  {
    if a == [] {
    } else {
      SumLenSame(a[..|a| - 1], b[..|b| - 1]);
    }
  }

  /** `chain` without the edges that name `loc`. */
  function Without(chain: seq<Loc>, loc: Loc): (r: seq<Loc>)
    ensures |r| <= |chain|
    ensures forall l :: l in r <==> l in chain && l != loc
  {
    if chain == [] then []
    else
      var rest := Without(chain[1..], loc);
      assert chain == [chain[0]] + chain[1..];
      if chain[0] == loc then rest else [chain[0]] + rest
  }

  /** A location that names no edge is removed for free; one that does costs exactly one edge. */
  lemma {:induction false} WithoutLength(chain: seq<Loc>, loc: Loc)
    requires NoDup(chain)
    ensures |Without(chain, loc)| == |chain| - (if loc in chain then 1 else 0)
  {
    if chain == [] {
    } else {
      assert chain == [chain[0]] + chain[1..];
      WithoutLength(chain[1..], loc);
    }
  }

  lemma {:induction false} WithoutAbsent(chain: seq<Loc>, loc: Loc)
    requires loc !in chain
    ensures Without(chain, loc) == chain
  {
    if chain == [] {
    } else {
      WithoutAbsent(chain[1..], loc);
      assert chain == [chain[0]] + chain[1..];
    }
  }

  /** Removing the one edge that names a location is removing the location. */
  lemma {:induction false} WithoutIsRemoveAt(chain: seq<Loc>, p: nat)
    requires NoDup(chain) && p < |chain|
    ensures Without(chain, chain[p]) == RemoveAt(chain, p)
  {
    var tail := chain[1..];
    assert forall k :: 0 <= k < |tail| ==> tail[k] == chain[k + 1];
    if p == 0 {
      WithoutAbsent(tail, chain[0]);
    } else {
      WithoutIsRemoveAt(tail, p - 1);
      assert RemoveAt(chain, p) == [chain[0]] + RemoveAt(tail, p - 1);
    }
  }

  lemma {:induction false} WithoutNoDup(chain: seq<Loc>, loc: Loc)
    requires NoDup(chain)
    ensures NoDup(Without(chain, loc))
  {
    if chain == [] {
    } else {
      var tail := chain[1..];
      assert forall i :: 0 <= i < |tail| ==> tail[i] == chain[i + 1];
      WithoutNoDup(tail, loc);
      var rest := Without(tail, loc);
      forall i | 0 <= i < |rest|
        ensures rest[i] != chain[0]
      {
        assert rest[i] in tail;
      }
    }
  }

  /** A repetition-free list has as many locations as edges. */
  lemma {:induction false} DistinctCount(ls: seq<Loc>)
    requires NoDup(ls)
    ensures |set l | l in ls| == |ls|
  {
    if ls == [] {
    } else {
      var tail := ls[1..];
      assert forall k :: 0 <= k < |tail| ==> tail[k] == ls[k + 1];
      DistinctCount(tail);
      assert (set l | l in ls) == (set l | l in tail) + {ls[0]};
      assert ls[0] !in tail;
    }
  }

  /** The node after position `i` of a list. */
  ghost function Successor(list: seq<nat>, i: nat): Option<nat> {
    if i + 1 < |list| then Some(list[i + 1]) else None
  }

  ghost function First(list: seq<nat>): Option<nat> {
    if list == [] then None else Some(list[0])
  }

  /** The list at `head` runs through exactly the nodes `list`, and names the locations `chain`. */
  ghost predicate Threaded(edges: seq<Edge>, head: Option<nat>, list: seq<nat>, chain: seq<Loc>) {
    && |chain| == |list|
    && (forall i :: 0 <= i < |list| ==> list[i] < |edges|)
    && head == First(list)
    && (forall i {:trigger edges[list[i]]} :: 0 <= i < |list| ==> edges[list[i]].next == Successor(list, i))
    && (forall i {:trigger edges[list[i]]} :: 0 <= i < |list| ==> edges[list[i]].target == Some(chain[i]))
  }

  /** Every node is free, on exactly one list (its owner's), or the one loose node. */
  ghost predicate Partitioned(used: seq<bool>, lists: seq<seq<nat>>, owner: seq<Option<nat>>, loose: Option<nat>)
  {
    && |used| == |owner|
    && (forall o :: 0 <= o < |lists| ==> NoDup(lists[o]))
    && (forall o, i :: 0 <= o < |lists| && 0 <= i < |lists[o]| ==>
          lists[o][i] < |owner| && owner[lists[o][i]] == Some(o))
    && (forall k :: 0 <= k < |owner| && owner[k].Some? ==>
          owner[k].value < |lists| && k in lists[owner[k].value])
    && (forall k :: 0 <= k < |owner| ==> (used[k] <==> owner[k].Some? || loose == Some(k)))
    && (loose.Some? ==> loose.value < |owner| && owner[loose.value].None?)
  }

  ghost predicate AllThreaded(edges: seq<Edge>, heads: seq<Option<nat>>, lists: seq<seq<nat>>, chains: seq<seq<Loc>>)
  {
    && |lists| == |heads| == |chains|
    && forall o :: 0 <= o < |lists| ==> Threaded(edges, heads[o], lists[o], chains[o])
  }

  /** The whole pool as values; `loose` names the node that is checked out but not listed yet. */
  ghost predicate Good(edges: seq<Edge>, used: seq<bool>, heads: seq<Option<nat>>, lists: seq<seq<nat>>,
                       owner: seq<Option<nat>>, chains: seq<seq<Loc>>, usedCount: nat, loose: Option<nat>)
  {
    && |edges| == |used|
    && AllThreaded(edges, heads, lists, chains)
    && Partitioned(used, lists, owner, loose)
    && usedCount == CountTrue(used)
    && usedCount == SumLen(chains) + (if loose.Some? then 1 else 0)
  }

  function RemoveAt<T>(s: seq<T>, p: nat): (r: seq<T>)
    requires p < |s|
    ensures |r| == |s| - 1
  {
    s[..p] + s[p + 1..]
  }

  ghost function Predecessor(list: seq<nat>, p: nat): Option<nat>
    requires p <= |list|
  {
    if p == 0 then None else Some(list[p - 1])
  }

  ghost function SplicedHeads(edges: seq<Edge>, heads: seq<Option<nat>>, list: seq<nat>, o: nat,
                              p: nat): seq<Option<nat>>
    requires o < |heads| && p < |list| && list[p] < |edges|
  {
    if p == 0 then heads[o := edges[list[p]].next] else heads
  }

  ghost function SplicedEdges(edges: seq<Edge>, list: seq<nat>, p: nat): (r: seq<Edge>)
    requires p < |list| && forall i :: 0 <= i < |list| ==> list[i] < |edges|
    ensures |r| == |edges|
  {
    var e := list[p];
    var relinked := if p == 0 then edges
                    else edges[list[p - 1] := edges[list[p - 1]].(next := edges[e].next)];
    relinked[e := FREE_EDGE]
  }

  /** Where an unlink walk stands: nodes kept and ahead, and the locations they name. */
  datatype Walk = Walk(kept: seq<nat>, rest: seq<nat>, done: seq<Loc>, left: seq<Loc>)

  ghost predicate Halfway(lists: seq<seq<nat>>, chains: seq<seq<Loc>>, chains0: seq<seq<Loc>>,
                          o: nat, loc: Loc, w: Walk)
  {
    && o < |lists| && o < |chains0|
    && lists[o] == w.kept + w.rest && |w.kept| == |w.done| && |w.rest| == |w.left|
    && chains == chains0[o := w.done + w.left]
    && w.done + Without(w.left, loc) == Without(chains0[o], loc)
  }

  lemma WalkStart(lists: seq<seq<nat>>, chains: seq<seq<Loc>>, o: nat, loc: Loc)
    requires o < |lists| == |chains| && |lists[o]| == |chains[o]|
    ensures Halfway(lists, chains, chains, o, loc, Walk([], lists[o], [], chains[o]))
  {
    assert [] + lists[o] == lists[o] && [] + chains[o] == chains[o];
    assert [] + Without(chains[o], loc) == Without(chains[o], loc);
  }

  lemma WalkKeep(lists: seq<seq<nat>>, chains: seq<seq<Loc>>, chains0: seq<seq<Loc>>, o: nat, loc: Loc, w: Walk)
    requires Halfway(lists, chains, chains0, o, loc, w) && w.rest != [] && w.left[0] != loc
    ensures Halfway(lists, chains, chains0, o, loc,
                    Walk(w.kept + [w.rest[0]], w.rest[1..], w.done + [w.left[0]], w.left[1..]))
  {
    assert w.kept + [w.rest[0]] + w.rest[1..] == w.kept + w.rest;
    assert w.done + [w.left[0]] + w.left[1..] == w.done + w.left;
    assert w.done + [w.left[0]] + Without(w.left[1..], loc) == w.done + Without(w.left, loc);
  }

  lemma WalkDrop(lists: seq<seq<nat>>, chains: seq<seq<Loc>>, chains0: seq<seq<Loc>>, o: nat, loc: Loc, w: Walk)
    requires Halfway(lists, chains, chains0, o, loc, w) && w.rest != [] && w.left[0] == loc
    ensures Halfway(lists[o := RemoveAt(lists[o], |w.kept|)], chains[o := RemoveAt(chains[o], |w.kept|)],
                    chains0, o, loc, Walk(w.kept, w.rest[1..], w.done, w.left[1..]))
  {
    assert RemoveAt(w.kept + w.rest, |w.kept|) == w.kept + w.rest[1..];
    assert RemoveAt(w.done + w.left, |w.done|) == w.done + w.left[1..];
  }

  /** The node at position `i` leads to the next one. */
  lemma ThreadStep(edges: seq<Edge>, head: Option<nat>, list: seq<nat>, chain: seq<Loc>, i: nat)
    requires Threaded(edges, head, list, chain) && i < |list|
    ensures list[i] < |edges| && edges[list[i]].next == if i + 1 < |list| then Some(list[i + 1]) else None
  {
  }

  lemma SamePosition(list: seq<nat>, p: nat, q: nat)
    requires NoDup(list) && p < |list| && q < |list| && list[p] == list[q]
    ensures p == q
  {
  }

  class Pool {
    const edges: array<Edge>
    const used: array<bool>
    const heads: array<Option<nat>>
    var usedCount: nat
    /** Per object, the pool indices on its list in walking order. */
    ghost var lists: seq<seq<nat>>
    /** Per pool node, the object whose list it is on. */
    ghost var owner: seq<Option<nat>>
    /** The index as values: per object, the locations its list names in walking order. */
    ghost var chains: seq<seq<Loc>>

    /** Well-formed, except that node `loose` is checked out but on no list yet. */
    ghost predicate ValidBut(loose: Option<nat>)
      reads this, edges, used, heads
    {
      Good(edges[..], used[..], heads[..], lists, owner, chains, usedCount, loose)
    }

    ghost predicate Valid()
      reads this, edges, used, heads
    {
      ValidBut(None)
    }

    constructor (capacity: nat, objects: nat)
      ensures Valid() && edges.Length == capacity && heads.Length == objects
      ensures usedCount == 0 && chains == seq(objects, _ => [])
      ensures fresh(edges) && fresh(used) && fresh(heads)
    {
      edges := new Edge[capacity](_ => FREE_EDGE);
      used := new bool[capacity](_ => false);
      heads := new Option<nat>[objects](_ => None);
      usedCount := 0;
      lists := seq(objects, _ => []);
      owner := seq(capacity, _ => None);
      chains := seq(objects, _ => []);
      new;
      CountTrueNone(used[..]);
      SumLenNone(chains);
    }

    method FindFree() returns (i: nat)
      requires usedCount == CountTrue(used[..])
      ensures i < used.Length <==> usedCount < used.Length
      ensures i < used.Length ==> !used[i]
    {
      CountTrueFull(used[..]);
      i := 0;
      while i < used.Length && used[i]
        invariant 0 <= i <= used.Length
        invariant forall k :: 0 <= k < i ==> used[k]
      {
        i := i + 1;
      }
    }

    /** `cdt_edge_alloc`: check out the first unused node; a miss exactly when all are in use. */
    method Alloc() returns (e: Option<nat>)
      requires Valid()
      modifies this`usedCount, edges, used
      ensures ValidBut(e)
      ensures e.Some? <==> old(usedCount) < edges.Length
      ensures usedCount == old(usedCount) + (if e.Some? then 1 else 0)
    {
      var i := FindFree();
      if i >= used.Length {
        return None;
      }
      GoodAlloc(edges[..], used[..], heads[..], lists, owner, chains, usedCount, i);
      ghost var u, es := used[..], edges[..];
      used[i] := true;
      edges[i] := FREE_EDGE;
      usedCount := usedCount + 1;
      assert used[..] == u[i := true] && edges[..] == es[i := FREE_EDGE];
      e := Some(i);
    }

    /**
     `gj_cdt_edge_link`: push at the head, unless the scan finds the edge on this list already. A node just checked
     out is never found BUSY; what pushing a node of another list does is `LinkJoins`.
     */
    method Link(o: nat, e: nat, loc: Loc) returns (busy: bool)
      requires o < heads.Length && e < edges.Length && (ValidBut(Some(e)) || Valid())
      modifies this`lists, this`owner, this`chains, edges, heads
      ensures busy <==> old(e in lists[o])
      ensures busy ==> edges[..] == old(edges[..]) && heads[..] == old(heads[..]) && Valid() && chains == old(chains)
      ensures !busy ==> edges[..] == old(edges[..][e := Edge(heads[o], Some(loc))])
      ensures !busy ==> heads[..] == old(heads[..][o := Some(e)])
      ensures old(ValidBut(Some(e))) ==> !busy && Valid() && chains == old(chains)[o := [loc] + old(chains)[o]]
    {
      busy := OnList(o, e);
      if !busy {
        Push(o, e, loc);
      }
    }

    method Push(o: nat, e: nat, loc: Loc)
      requires o < heads.Length && e < edges.Length
      modifies this`lists, this`owner, this`chains, edges, heads
      ensures edges[..] == old(edges[..][e := Edge(heads[o], Some(loc))])
      ensures heads[..] == old(heads[..][o := Some(e)])
      ensures old(ValidBut(Some(e))) ==> Valid() && chains == old(chains)[o := [loc] + old(chains)[o]]
    {
      ghost var es, hs := edges[..], heads[..];
      if ValidBut(Some(e)) {
        GoodLink(es, used[..], hs, lists, owner, chains, usedCount, e, o, loc);
        lists := lists[o := [e] + lists[o]];
        owner := owner[e := Some(o)];
        chains := chains[o := [loc] + chains[o]];
      }
      edges[e] := Edge(heads[o], Some(loc));
      heads[o] := Some(e);
      assert edges[..] == es[e := Edge(hs[o], Some(loc))] && heads[..] == hs[o := Some(e)];
    }

    /** The double-link scan of the source. */
    method OnList(o: nat, e: nat) returns (hit: bool)
      requires o < heads.Length
      requires o < |lists| && o < |chains| && Threaded(edges[..], heads[o], lists[o], chains[o])
      ensures hit <==> e in lists[o]
    {
      ghost var list, es, hd, chain, i := lists[o], edges[..], heads[o], chains[o], 0;
      var walk := heads[o];
      while walk.Some?
        invariant 0 <= i <= |list|
        invariant walk == if i < |list| then Some(list[i]) else None
        invariant forall j :: 0 <= j < i ==> list[j] != e
        decreases |list| - i
      {
        if walk.value == e {
          return true;
        }
        ThreadStep(es, hd, list, chain, i);
        walk := edges[walk.value].next;
        i := i + 1;
      }
      hit := false;
    }

    /** `gj_cdt_edge_unlink`: splice the node out of the list and hand it back to the pool. */
    method Unlink(o: nat, e: nat) returns (ghost p: nat)
      requires Valid() && o < heads.Length
      modifies this, edges, used, heads
      ensures Valid()
      ensures old(e in lists[o]) ==>
                && p < |old(lists[o])| && old(lists[o])[p] == e
                && lists == old(lists)[o := RemoveAt(old(lists[o]), p)]
                && chains == old(chains)[o := RemoveAt(old(chains[o]), p)]
                && usedCount == old(usedCount) - 1
      ensures old(e !in lists[o]) ==>
                && edges[..] == old(edges[..]) && used[..] == old(used[..]) && heads[..] == old(heads[..])
                && lists == old(lists) && chains == old(chains) && usedCount == old(usedCount)
    {
      var found, prev, at := FindPrev(o, e);
      p := at;
      if found {
        Splice(o, e, prev, at);
      }
    }

    /** Find the node and its predecessor. */
    method FindPrev(o: nat, e: nat) returns (found: bool, prev: Option<nat>, ghost p: nat)
      requires o < heads.Length
      requires o < |lists| && o < |chains| && Threaded(edges[..], heads[o], lists[o], chains[o])
      ensures found <==> e in lists[o]
      ensures found ==> p < |lists[o]| && lists[o][p] == e && prev == Predecessor(lists[o], p)
    {
      ghost var list, es, hd, chain := lists[o], edges[..], heads[o], chains[o];
      p := 0;
      var walk := heads[o];
      prev := None;
      while walk.Some?
        invariant 0 <= p <= |list|
        invariant walk == if p < |list| then Some(list[p]) else None
        invariant prev == Predecessor(list, p)
        invariant forall j :: 0 <= j < p ==> list[j] != e
        decreases |list| - p
      {
        if walk.value == e {
          return true, prev, p;
        }
        ThreadStep(es, hd, list, chain, p);
        prev := walk;
        walk := edges[walk.value].next;
        p := p + 1;
      }
      found := false;
    }

    method Splice(o: nat, e: nat, prev: Option<nat>, ghost p: nat)
      requires Valid() && o < heads.Length
      requires p < |lists[o]| && lists[o][p] == e && prev == Predecessor(lists[o], p)
      modifies this, edges, used, heads
      ensures Valid()
      ensures lists == old(lists)[o := RemoveAt(old(lists[o]), p)]
      ensures chains == old(chains)[o := RemoveAt(old(chains[o]), p)]
      ensures usedCount == old(usedCount) - 1
    {
      ghost var list := lists[o];
      GoodUnlink(edges[..], used[..], heads[..], lists, owner, chains, usedCount, o, p);
      ghost var es, hs := SplicedEdges(edges[..], list, p), SplicedHeads(edges[..], heads[..], list, o, p);
      ghost var us, n := used[..][e := false], usedCount - 1;
      lists := lists[o := RemoveAt(list, p)];
      owner := owner[e := None];
      chains := chains[o := RemoveAt(chains[o], p)];
      assert Good(es, us, hs, lists, owner, chains, n, None);
      Rewire(o, e, prev, list, p);
      assert edges[..] == es && heads[..] == hs && used[..] == us && usedCount == n;
    }

    /** The pointer surgery of the splice. */
    method Rewire(o: nat, e: nat, prev: Option<nat>, ghost list: seq<nat>, ghost p: nat)
      requires o < heads.Length && edges.Length == used.Length
      requires forall i :: 0 <= i < |list| ==> list[i] < edges.Length
      requires p < |list| && list[p] == e && prev == Predecessor(list, p)
      modifies this`usedCount, edges, used, heads
      ensures edges[..] == SplicedEdges(old(edges[..]), list, p)
      ensures heads[..] == SplicedHeads(old(edges[..]), old(heads[..]), list, o, p)
      ensures used[..] == old(used[..])[e := false]
      ensures usedCount == old(if used[e] then Dec(usedCount) else usedCount)
    {
      if prev.None? {
        heads[o] := edges[e].next;
      } else {
        edges[prev.value] := edges[prev.value].(next := edges[e].next);
      }
      Free(e);
    }

    /** `cdt_edge_free`. */
    method Free(e: nat)
      requires e < edges.Length == used.Length
      modifies this`usedCount, edges, used
      ensures edges[..] == old(edges[..])[e := FREE_EDGE] && used[..] == old(used[..])[e := false]
      ensures usedCount == old(if used[e] then Dec(usedCount) else usedCount)
    {
      if used[e] && usedCount > 0 {
        usedCount := usedCount - 1;
      }
      used[e] := false;
      edges[e] := FREE_EDGE;
    }

    /** `gj_cdt_unlink_slot`: drop every edge of the object that names this slot. */
    method UnlinkSlot(o: nat, loc: Loc)
      requires Valid() && o < heads.Length
      modifies this, edges, used, heads
      ensures Valid()
      ensures chains == old(chains)[o := Without(old(chains[o]), loc)]
      ensures usedCount == old(usedCount) - (|old(chains[o])| - |Without(old(chains[o]), loc)|)
    {
      SumLenUpdate(chains, o, Without(chains[o], loc));
      ghost var w := Walk([], lists[o], [], chains[o]);
      WalkStart(lists, chains, o, loc);
      var walk := heads[o];
      while walk.Some?
        invariant Valid() && |lists| == heads.Length
        invariant walk == First(w.rest)
        invariant Halfway(lists, chains, old(chains), o, loc, w)
        decreases |w.rest|
      {
        walk, w := Visit(o, walk.value, loc, old(chains), w);
      }
    }

    /** One step of the unlink walk: the successor is read before the node may be spliced out. */
    method Visit(o: nat, e: nat, loc: Loc, ghost chains0: seq<seq<Loc>>, ghost w: Walk)
      returns (next: Option<nat>, ghost w': Walk)
      requires Valid() && o < heads.Length
      requires First(w.rest) == Some(e) && Halfway(lists, chains, chains0, o, loc, w)
      modifies this, edges, used, heads
      ensures Valid() && |lists| == heads.Length
      ensures next == First(w'.rest) && |w'.rest| < |w.rest|
      ensures Halfway(lists, chains, chains0, o, loc, w')
    {
      ghost var at := |w.kept|;
      assert lists[o][at] == e && chains[o][at] == w.left[0] && lists[o][at + 1..] == w.rest[1..];
      ReadFacts(o, e, at);
      next := edges[e].next;
      if edges[e].target == Some(loc) {
        WalkDrop(lists, chains, chains0, o, loc, w);
        ghost var list := lists[o];
        ghost var p := Unlink(o, e);
        SamePosition(list, p, at);
        w' := Walk(w.kept, w.rest[1..], w.done, w.left[1..]);
      } else {
        WalkKeep(lists, chains, chains0, o, loc, w);
        w' := Walk(w.kept + [w.rest[0]], w.rest[1..], w.done + [w.left[0]], w.left[1..]);
      }
    }

    /** `cdt_edge_try_wire`: a pool miss leaves the index alone, otherwise the edge goes to the head. */
    method TryWire(o: nat, loc: Loc) returns (ok: bool)
      requires Valid() && o < heads.Length
      modifies this, edges, used, heads
      ensures Valid()
      ensures ok <==> old(usedCount) < edges.Length
      ensures chains == if ok then old(chains)[o := [loc] + old(chains[o])] else old(chains)
      ensures usedCount == old(usedCount) + (if ok then 1 else 0)
    {
      var e := Alloc();
      if e.None? {
        return false;
      }
      var busy := Link(o, e.value, loc);
      ok := true;
    }

    /** The list head is the first node, and there is none exactly when no slot is listed. */
    lemma HeadFacts(o: nat)
      requires Valid() && o < heads.Length
      ensures heads[o] == First(lists[o]) && |chains[o]| == |lists[o]|
    {
      assert Threaded(edges[..], heads[o], lists[o], chains[o]);
    }

    /** What the node at position `p` of an object's list holds: the slot it names, and its successor. */
    lemma ReadFacts(o: nat, e: nat, p: nat)
      requires Valid() && o < heads.Length && p < |lists[o]| && lists[o][p] == e
      ensures p < |chains[o]| == |lists[o]| && usedCount > 0
      ensures e < edges.Length && edges[e].target == Some(chains[o][p]) && edges[e].next == First(lists[o][p + 1..])
    {
      LengthInSum(chains, o);
      assert Threaded(edges[..], heads[o], lists[o], chains[o]);
      assert edges[e].next == Successor(lists[o], p);
    }

    /** Unlink the node at position `p`. */
    method UnlinkAt(o: nat, e: nat, ghost p: nat)
      requires Valid() && o < heads.Length && p < |lists[o]| && lists[o][p] == e
      modifies this, edges, used, heads
      ensures Valid() && |chains[o]| == |lists[o]| && p < |old(chains[o])|
      ensures lists == old(lists)[o := RemoveAt(old(lists[o]), p)]
      ensures chains == old(chains)[o := RemoveAt(old(chains[o]), p)]
      ensures usedCount == old(usedCount) - 1
    {
      assert Threaded(edges[..], heads[o], lists[o], chains[o]);
      assert NoDup(lists[o]);
      ghost var q := Unlink(o, e);
      assert Threaded(edges[..], heads[o], lists[o], chains[o]);
    }

    /** `cdt_edge_chain_depth`: the guard at the pool size never cuts the count short. */
    method Depth(o: nat) returns (d: nat)
      requires Valid() && o < heads.Length
      ensures d == |chains[o]|
    {
      ghost var list := lists[o];
      assert Threaded(edges[..], heads[o], list, chains[o]);
      LengthInSum(chains, o);
      var walk := heads[o];
      d := 0;
      while walk.Some? && d < edges.Length
        invariant 0 <= d <= |list|
        invariant walk == if d < |list| then Some(list[d]) else None
        decreases |list| - d
      {
        assert edges[list[d]].next == Successor(list, d);
        walk := edges[walk.value].next;
        d := d + 1;
      }
    }
  }

  lemma {:induction false} LengthInSum<T>(lists: seq<seq<T>>, o: nat)
    requires o < |lists|
    ensures |lists[o]| <= SumLen(lists)
  {
    if o == |lists| - 1 {
    } else {
      LengthInSum(lists[..|lists| - 1], o);
    }
  }

  // ---- What one rewrite of the pool does to its lists.

  lemma GoodAlloc(edges: seq<Edge>, used: seq<bool>, heads: seq<Option<nat>>, lists: seq<seq<nat>>,
                  owner: seq<Option<nat>>, chains: seq<seq<Loc>>, usedCount: nat, k: nat)
    requires Good(edges, used, heads, lists, owner, chains, usedCount, None)
    requires k < |used| && !used[k]
    ensures Good(edges[k := FREE_EDGE], used[k := true], heads, lists, owner, chains, usedCount + 1, Some(k))
  {
    CountTrueUpdate(used, k, true);
    PartitionedAlloc(used, lists, owner, k);
    UnlistedNodeFree(edges, heads, lists, chains, owner, k, FREE_EDGE);
  }

  lemma GoodLink(edges: seq<Edge>, used: seq<bool>, heads: seq<Option<nat>>, lists: seq<seq<nat>>,
                 owner: seq<Option<nat>>, chains: seq<seq<Loc>>, usedCount: nat, k: nat, o: nat, loc: Loc)
    requires Good(edges, used, heads, lists, owner, chains, usedCount, Some(k)) && o < |heads|
    ensures Good(edges[k := Edge(heads[o], Some(loc))], used, heads[o := Some(k)], lists[o := [k] + lists[o]],
                 owner[k := Some(o)], chains[o := [loc] + chains[o]], usedCount, None)
  {
    PartitionedLink(used, lists, owner, k, o);
    AllThreadedLink(edges, heads, lists, chains, owner, k, o, loc);
    SumLenUpdate(chains, o, [loc] + chains[o]);
  }

  /**
   Linking a node that is on another object's list joins the two lists: that object keeps its nodes up to this one,
   goes on with all nodes of the list linked to, and loses the rest of its own.
   */
  lemma LinkJoins(edges: seq<Edge>, used: seq<bool>, heads: seq<Option<nat>>, lists: seq<seq<nat>>,
                  owner: seq<Option<nat>>, chains: seq<seq<Loc>>, usedCount: nat, o: nat, q: nat, k: nat, loc: Loc)
    requires Good(edges, used, heads, lists, owner, chains, usedCount, None)
    requires o < |heads| && q < |heads| && o != q && k < |lists[q]|
    ensures var e := lists[q][k];
            var edges', heads' := edges[e := Edge(heads[o], Some(loc))], heads[o := Some(e)];
            && Threaded(edges', heads'[o], [e] + lists[o], [loc] + chains[o])
            && Threaded(edges', heads'[q], lists[q][..k] + ([e] + lists[o]), chains[q][..k] + ([loc] + chains[o]))
  {
    var e := lists[q][k];
    assert owner[e] == Some(q);
    var edges' := edges[e := Edge(heads[o], Some(loc))];
    assert Threaded(edges, heads[o], lists[o], chains[o]) && Threaded(edges, heads[q], lists[q], chains[q]);
    assert Threaded(edges', heads[o], lists[o], chains[o]);
    ThreadedPush(edges', heads[o], lists[o], chains[o], e, loc);
    ThreadedJoin(edges, edges', heads[q], lists[q], chains[q], k, [e] + lists[o], [loc] + chains[o]);
  }

  /** Two lists that meet in one node, after that node was rewritten. */
  lemma ThreadedJoin(edges: seq<Edge>, edges': seq<Edge>, head: Option<nat>, list: seq<nat>, chain: seq<Loc>, k: nat,
                     tail: seq<nat>, ends: seq<Loc>)
    requires Threaded(edges, head, list, chain) && NoDup(list) && k < |list| && |edges'| == |edges|
    requires forall x :: 0 <= x < |edges| && x != list[k] ==> edges'[x] == edges[x]
    requires tail != [] && tail[0] == list[k] && Threaded(edges', Some(list[k]), tail, ends)
    ensures Threaded(edges', head, list[..k] + tail, chain[..k] + ends)
  {
    var list', chain' := list[..k] + tail, chain[..k] + ends;
    forall i | 0 <= i < |list'|
      ensures list'[i] < |edges'| && edges'[list'[i]].target == Some(chain'[i])
      ensures edges'[list'[i]].next == Successor(list', i)
    {
      if i < k {
        assert list'[i] == list[i] != list[k] && chain'[i] == chain[i] && edges'[list[i]] == edges[list[i]];
        assert list'[i + 1] == list[i + 1];
      } else {
        assert list'[i] == tail[i - k] && chain'[i] == ends[i - k];
        assert Successor(list', i) == Successor(tail, i - k);
      }
    }
  }

  lemma PartitionedAlloc(used: seq<bool>, lists: seq<seq<nat>>, owner: seq<Option<nat>>, k: nat)
    requires Partitioned(used, lists, owner, None)
    requires k < |used| && !used[k]
    ensures Partitioned(used[k := true], lists, owner, Some(k))
  {
  }

  lemma PartitionedLink(used: seq<bool>, lists: seq<seq<nat>>, owner: seq<Option<nat>>, k: nat, o: nat)
    requires Partitioned(used, lists, owner, Some(k)) && o < |lists|
    ensures Partitioned(used, lists[o := [k] + lists[o]], owner[k := Some(o)], None)
  {
    var lists', owner' := lists[o := [k] + lists[o]], owner[k := Some(o)];
    forall o', i | 0 <= o' < |lists'| && 0 <= i < |lists'[o']|
      ensures lists'[o'][i] < |owner| && owner'[lists'[o'][i]] == Some(o')
    {
      if o' == o && i > 0 {
        assert lists'[o'][i] == lists[o][i - 1];
      }
    }
    forall j | 0 <= j < |owner'| && owner'[j].Some?
      ensures owner'[j].value < |lists'| && j in lists'[owner'[j].value]
    {
      if owner'[j].value == o && j != k {
        var i :| 0 <= i < |lists[o]| && lists[o][i] == j;
        assert lists'[o][i + 1] == j;
      }
    }
  }

  lemma GoodUnlink(edges: seq<Edge>, used: seq<bool>, heads: seq<Option<nat>>, lists: seq<seq<nat>>,
                   owner: seq<Option<nat>>, chains: seq<seq<Loc>>, usedCount: nat, o: nat, p: nat)
    requires Good(edges, used, heads, lists, owner, chains, usedCount, None)
    requires o < |heads| && p < |lists[o]|
    ensures used[lists[o][p]] && usedCount > 0
    ensures Good(SplicedEdges(edges, lists[o], p), used[lists[o][p] := false],
                 SplicedHeads(edges, heads, lists[o], o, p), lists[o := RemoveAt(lists[o], p)],
                 owner[lists[o][p] := None], chains[o := RemoveAt(chains[o], p)], usedCount - 1, None)
  {
    var k := lists[o][p];
    assert Threaded(edges, heads[o], lists[o], chains[o]);
    CountTrueUpdate(used, k, false);
    SumLenUpdate(chains, o, RemoveAt(chains[o], p));
    PartitionedUnlink(used, lists, owner, o, p);
    AllThreadedUnlink(edges, heads, lists, chains, owner, o, p);
  }

  lemma PartitionedUnlink(used: seq<bool>, lists: seq<seq<nat>>, owner: seq<Option<nat>>, o: nat, p: nat)
    requires Partitioned(used, lists, owner, None) && o < |lists| && p < |lists[o]|
    ensures Partitioned(used[lists[o][p] := false], lists[o := RemoveAt(lists[o], p)],
                        owner[lists[o][p] := None], None)
  {
    var k, list' := lists[o][p], RemoveAt(lists[o], p);
    var lists', owner' := lists[o := list'], owner[k := None];
    assert forall i :: 0 <= i < |list'| ==> list'[i] == lists[o][if i < p then i else i + 1];
    forall j | 0 <= j < |owner'| && owner'[j].Some?
      ensures owner'[j].value < |lists'| && j in lists'[owner'[j].value]
    {
      if owner'[j].value == o {
        var i :| 0 <= i < |lists[o]| && lists[o][i] == j;
        assert list'[if i < p then i else i - 1] == j;
      }
    }
  }

  lemma AllThreadedUnlink(edges: seq<Edge>, heads: seq<Option<nat>>, lists: seq<seq<nat>>,
                          chains: seq<seq<Loc>>, owner: seq<Option<nat>>, o: nat, p: nat)
    requires AllThreaded(edges, heads, lists, chains)
    requires o < |lists| && p < |lists[o]| && |edges| == |owner| && NoDup(lists[o])
    requires forall o, i :: 0 <= o < |lists| && 0 <= i < |lists[o]| ==>
               lists[o][i] < |owner| && owner[lists[o][i]] == Some(o)
    ensures Threaded(edges, heads[o], lists[o], chains[o])
    ensures AllThreaded(SplicedEdges(edges, lists[o], p), SplicedHeads(edges, heads, lists[o], o, p),
                        lists[o := RemoveAt(lists[o], p)], chains[o := RemoveAt(chains[o], p)])
  {
    ThreadedRemove(edges, heads, lists[o], chains[o], o, p);
    OthersThreaded(edges, heads, lists, chains, owner, o, p);
  }

  /** The lists the node is not on run as before. */
  lemma OthersThreaded(edges: seq<Edge>, heads: seq<Option<nat>>, lists: seq<seq<nat>>,
                       chains: seq<seq<Loc>>, owner: seq<Option<nat>>, o: nat, p: nat)
    requires AllThreaded(edges, heads, lists, chains)
    requires o < |lists| && p < |lists[o]| && |edges| == |owner|
    requires forall o, i :: 0 <= o < |lists| && 0 <= i < |lists[o]| ==>
               lists[o][i] < |owner| && owner[lists[o][i]] == Some(o)
    ensures forall x :: 0 <= x < |lists| && x != o ==>
              Threaded(SplicedEdges(edges, lists[o], p), heads[x], lists[x], chains[x])
  {
    forall x | 0 <= x < |lists| && x != o
      ensures Threaded(SplicedEdges(edges, lists[o], p), heads[x], lists[x], chains[x])
    {
      ThreadedElsewhere(edges, heads[x], lists[x], chains[x], lists[o], p);
    }
  }

  lemma ThreadedElsewhere(edges: seq<Edge>, head: Option<nat>, list: seq<nat>, chain: seq<Loc>,
                          other: seq<nat>, p: nat)
    requires Threaded(edges, head, list, chain)
    requires p < |other| && forall i :: 0 <= i < |other| ==> other[i] < |edges|
    requires forall i, j :: 0 <= i < |list| && 0 <= j < |other| ==> list[i] != other[j]
    ensures Threaded(SplicedEdges(edges, other, p), head, list, chain)
  {
  }

  lemma ThreadedRemove(edges: seq<Edge>, heads: seq<Option<nat>>, list: seq<nat>, chain: seq<Loc>, o: nat, p: nat)
    requires o < |heads| && Threaded(edges, heads[o], list, chain) && NoDup(list) && p < |list|
    ensures Threaded(SplicedEdges(edges, list, p), SplicedHeads(edges, heads, list, o, p)[o],
                     RemoveAt(list, p), RemoveAt(chain, p))
  {
    var edges', list', chain' := SplicedEdges(edges, list, p), RemoveAt(list, p), RemoveAt(chain, p);
    forall i | 0 <= i < |list'|
      ensures list'[i] < |edges'| && edges'[list'[i]].target == Some(chain'[i])
      ensures edges'[list'[i]].next == Successor(list', i)
    {
      var j := if i < p then i else i + 1;
      assert list'[i] == list[j] && chain'[i] == chain[j];
      assert list[j] != list[p];
      if i == p - 1 {
        assert edges'[list'[i]].next == Successor(list, p);
      } else {
        assert Successor(list', i) == Successor(list, j);
      }
    }
  }

  /** Rewriting a node that no list runs through leaves every list as it was. */
  lemma UnlistedNodeFree(edges: seq<Edge>, heads: seq<Option<nat>>, lists: seq<seq<nat>>,
                         chains: seq<seq<Loc>>, owner: seq<Option<nat>>, k: nat, e: Edge)
    requires AllThreaded(edges, heads, lists, chains)
    requires k < |edges| == |owner| && owner[k].None?
    requires forall o, i :: 0 <= o < |lists| && 0 <= i < |lists[o]| ==>
               lists[o][i] < |owner| && owner[lists[o][i]] == Some(o)
    ensures AllThreaded(edges[k := e], heads, lists, chains)
  {
  }

  lemma AllThreadedLink(edges: seq<Edge>, heads: seq<Option<nat>>, lists: seq<seq<nat>>,
                        chains: seq<seq<Loc>>, owner: seq<Option<nat>>, k: nat, o: nat, loc: Loc)
    requires AllThreaded(edges, heads, lists, chains)
    requires o < |lists| && k < |edges| == |owner| && owner[k].None?
    requires forall o, i :: 0 <= o < |lists| && 0 <= i < |lists[o]| ==>
               lists[o][i] < |owner| && owner[lists[o][i]] == Some(o)
    ensures AllThreaded(edges[k := Edge(heads[o], Some(loc))], heads[o := Some(k)],
                        lists[o := [k] + lists[o]], chains[o := [loc] + chains[o]])
  {
    var edges' := edges[k := Edge(heads[o], Some(loc))];
    UnlistedNodeFree(edges, heads, lists, chains, owner, k, edges'[k]);
    ThreadedPush(edges', heads[o], lists[o], chains[o], k, loc);
  }

  lemma ThreadedPush(edges: seq<Edge>, head: Option<nat>, list: seq<nat>, chain: seq<Loc>, k: nat, loc: Loc)
    requires Threaded(edges, head, list, chain)
    requires k < |edges| && edges[k] == Edge(head, Some(loc))
    ensures Threaded(edges, Some(k), [k] + list, [loc] + chain)
  {
    var list', chain' := [k] + list, [loc] + chain;
    forall i | 0 <= i < |list'|
      ensures list'[i] < |edges| && edges[list'[i]].target == Some(chain'[i])
      ensures edges[list'[i]].next == Successor(list', i)
    {
      if i > 0 {
        assert list'[i] == list[i - 1] && chain'[i] == chain[i - 1];
        assert Successor(list', i) == Successor(list, i - 1);
      }
    }
  }

  lemma {:induction false} CountTrueNone(s: seq<bool>)
    requires forall k :: 0 <= k < |s| ==> !s[k]
    ensures CountTrue(s) == 0
  {
    if s == [] {
    } else {
      CountTrueNone(s[..|s| - 1]);
    }
  }

  lemma {:induction false} SumLenNone<T>(lists: seq<seq<T>>)
    requires forall o :: 0 <= o < |lists| ==> lists[o] == []
    ensures SumLen(lists) == 0
  {
    if lists == [] {
    } else {
      SumLenNone(lists[..|lists| - 1]);
    }
  }
}
