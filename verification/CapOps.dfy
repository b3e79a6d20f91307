/**
 The public operations on the capability space, as functions of the whole state. Each returns
 the new state, the status, and on success the handle of the slot it filled.
 */
module CapOps {
  import opened Words
  import opened EdgePool
  import opened QuotaLedger
  import opened CapState

  datatype Ref = Ref(slot: nat, gen: nat)

  datatype Outcome = Outcome(state: State, status: Status, ref: Option<Ref>)

  datatype Resolved = Resolved(status: Status, typ: nat, rights: Rights, obj: nat)

  function Failed(s: State, status: Status): Outcome {
    Outcome(s, status, None)
  }

  function NotResolved(status: Status): Resolved {
    Resolved(status, CAP_INVALID, {}, 0)
  }

  /** The live check on every use: LIVE and the generation captured at install. */
  function CheckLive(obj: Obj, expected: nat): (st: Status)
    ensures st == Ok <==> obj.life.Live? && obj.gen == expected
  {
    if !obj.life.Live? then ErrDead
    else if obj.gen != expected then ErrStale
    else Ok
  }

  /** Resolve handle (slot `i`, generation `g`) against CNode `c`. */
  function Resolve(s: State, c: nat, i: nat, g: nat): (r: Resolved)
    requires Shaped(s)
    ensures r.status == Ok ==>
              && Names(s.cnodes, Loc(c, i), r.obj) && r.obj < |s.objs| && s.objs[r.obj].life.Live?
              && SlotAt(s.cnodes, Loc(c, i)).gen == g && SlotAt(s.cnodes, Loc(c, i)).objGen == s.objs[r.obj].gen
              && r.typ == SlotAt(s.cnodes, Loc(c, i)).typ && r.rights == SlotAt(s.cnodes, Loc(c, i)).rights
  {
    if c >= |s.cnodes| || |s.cnodes[c].slots| == 0 || g == 0 || i >= |s.cnodes[c].slots| then NotResolved(ErrInval)
    else
      var slot := s.cnodes[c].slots[i];
      assert SlotAt(s.cnodes, Loc(c, i)) == slot;
      if slot.typ == CAP_INVALID then NotResolved(ErrNoEnt)
      else if slot.gen != g then NotResolved(ErrStale)
      else if slot.obj.None? then NotResolved(ErrStale)
      else
        var st := CheckLive(s.objs[slot.obj.value], slot.objGen);
        if st != Ok then NotResolved(st) else Resolved(Ok, slot.typ, slot.rights, slot.obj.value)
  }

  /** The checks of an install, in the order the source makes them. The quota charge comes last. */
  function InstallStatus(s: State, c: nat, i: nat, typ: nat, o: nat): (st: Status)
    requires Shaped(s)
    ensures st == Ok ==> InRange(s.cnodes, Loc(c, i)) && o < |s.objs|
  {
    if c >= |s.cnodes| || o >= |s.objs| then ErrInval
    else if |s.cnodes[c].slots| == 0 || i >= |s.cnodes[c].slots| then ErrInval
    else if typ == CAP_INVALID then ErrInval
    else if !s.objs[o].life.Live? then ErrDead
    else if s.objs[o].gen == 0 then ErrInval
    else if i == SLOT_ROOT_META && typ != CAP_ROOT_META then ErrPerm
    else if i != SLOT_ROOT_META && typ == CAP_ROOT_META then ErrPerm
    else if s.cnodes[c].slots[i].typ != CAP_INVALID then ErrBusy
    else if s.objs[o].slotsLeft == U32_MAX then ErrQuota
    else if !HasRoom(s.limits, s.used, ChargeChain(s.parents, s.cnodes[c].account)) then ErrQuota
    else Ok
  }

  function Install(s: State, c: nat, i: nat, typ: nat, rights: Rights, o: nat): Outcome
    requires Shaped(s)
  {
    var st := InstallStatus(s, c, i, typ, o);
    if st != Ok then Failed(s, st)
    else Outcome(Place(s, Loc(c, i), typ, rights, o), Ok, Some(Ref(i, s.cnodes[c].slots[i].gen)))
  }

  /** The first free slot at or after `from`, or the table length. */
  function FirstFree(slots: seq<Slot>, from: nat): (i: nat)
    requires from <= |slots|
    ensures from <= i <= |slots|
    ensures i < |slots| ==> slots[i].typ == CAP_INVALID
    ensures forall j :: from <= j < i ==> slots[j].typ != CAP_INVALID
    decreases |slots| - from
  {
    if from == |slots| || slots[from].typ == CAP_INVALID then from else FirstFree(slots, from + 1)
  }

  function AllocInstall(s: State, c: nat, typ: nat, rights: Rights, o: nat): Outcome
    requires Shaped(s)
  {
    if c >= |s.cnodes| || o >= |s.objs| || |s.cnodes[c].slots| == 0 || typ == CAP_INVALID then Failed(s, ErrInval)
    else if typ == CAP_ROOT_META then Install(s, c, SLOT_ROOT_META, typ, rights, o)
    else
      var i := FirstFree(s.cnodes[c].slots, 1);
      if i == |s.cnodes[c].slots| then Failed(s, ErrQuota) else Install(s, c, i, typ, rights, o)
  }

  /** Allocate in `c`, then try to wire a derivation edge for the new slot. */
  function DeriveInto(s: State, c: nat, typ: nat, rights: Rights, o: nat): Outcome
    requires Shaped(s)
  {
    var r := AllocInstall(s, c, typ, rights, o);
    if r.status != Ok then r
    else r.(state := Wire(r.state, o, Loc(c, r.ref.value.slot)))
  }

  /** A null destination CNode means the source's own. */
  function MintTarget(c: nat, dst: Option<nat>): nat {
    if dst.None? then c else dst.value
  }

  /** A copy that asks for no rights in particular asks for all of them. */
  function CopyMask(held: Rights, rights: Rights): Rights {
    if rights != {} then rights else held
  }

  function Mint(s: State, c: nat, i: nat, g: nat, rights: Rights, dst: Option<nat>): Outcome
    requires Shaped(s)
  {
    var r := Resolve(s, c, i, g);
    if r.status != Ok then Failed(s, r.status)
    else if RIGHT_MINT !in r.rights then Failed(s, ErrPerm)
    else if r.rights * rights == {} then Failed(s, ErrPerm)
    else DeriveInto(s, MintTarget(c, dst), r.typ, r.rights * rights, r.obj)
  }

  function Copy(s: State, c: nat, i: nat, g: nat, rights: Rights): Outcome
    requires Shaped(s)
  {
    var r := Resolve(s, c, i, g);
    if r.status != Ok then Failed(s, r.status)
    else if RIGHT_GRANT !in r.rights then Failed(s, ErrPerm)
    else DeriveInto(s, c, r.typ, r.rights * CopyMask(r.rights, rights), r.obj)
  }

  function Move(s: State, c: nat, i: nat, g: nat): Outcome
    requires Shaped(s)
  {
    var r := Resolve(s, c, i, g);
    if r.status != Ok then Failed(s, r.status)
    else if RIGHT_GRANT !in r.rights then Failed(s, ErrPerm)
    else if i == SLOT_ROOT_META then Failed(s, ErrPerm)
    else
      var a := AllocInstall(s, c, r.typ, r.rights, r.obj);
      if a.status != Ok then a
      else
        PlaceShaped(s, Loc(c, a.ref.value.slot), r.typ, r.rights, r.obj);
        a.(state := Wire(Drop(a.state, Loc(c, i)), r.obj, Loc(c, a.ref.value.slot)))
  }

  function Delete(s: State, c: nat, i: nat, g: nat): Outcome
    requires Shaped(s)
  {
    var r := Resolve(s, c, i, g);
    if r.status != Ok then Failed(s, r.status)
    else if i == SLOT_ROOT_META then Failed(s, ErrPerm)
    else if RIGHT_DESTROY !in r.rights && RIGHT_GRANT !in r.rights then Failed(s, ErrPerm)
    else Outcome(Drop(s, Loc(c, i)), Ok, None)
  }

  // ---- A failed operation changes nothing: the quota charge is the last step that can fail.

  lemma AllocAtomic(s: State, c: nat, typ: nat, rights: Rights, o: nat)
    requires Shaped(s)
    ensures AllocInstall(s, c, typ, rights, o).status != Ok ==> AllocInstall(s, c, typ, rights, o).state == s
  {
  }

  lemma MintAtomic(s: State, c: nat, i: nat, g: nat, rights: Rights, dst: Option<nat>)
    requires Shaped(s)
    ensures var r, v := Mint(s, c, i, g, rights, dst), Resolve(s, c, i, g);
            if r.status == Ok
            then v.status == Ok && RIGHT_MINT in v.rights && v.rights * rights != {} &&
                 r == DeriveInto(s, MintTarget(c, dst), v.typ, v.rights * rights, v.obj)
            else r.state == s
  {
    var v := Resolve(s, c, i, g);
    AllocAtomic(s, MintTarget(c, dst), v.typ, v.rights * rights, v.obj);
  }

  lemma CopyAtomic(s: State, c: nat, i: nat, g: nat, rights: Rights)
    requires Shaped(s)
    ensures var r, v := Copy(s, c, i, g, rights), Resolve(s, c, i, g);
            if r.status == Ok
            then v.status == Ok && RIGHT_GRANT in v.rights &&
                 r == DeriveInto(s, c, v.typ, v.rights * CopyMask(v.rights, rights), v.obj)
            else r.state == s
  {
    var v := Resolve(s, c, i, g);
    AllocAtomic(s, c, v.typ, v.rights * CopyMask(v.rights, rights), v.obj);
  }

  lemma MoveAtomic(s: State, c: nat, i: nat, g: nat)
    requires Shaped(s)
    ensures var r, v := Move(s, c, i, g), Resolve(s, c, i, g);
            var a := AllocInstall(s, c, v.typ, v.rights, v.obj);
            if r.status == Ok
            then && v.status == Ok && RIGHT_GRANT in v.rights && i != SLOT_ROOT_META && a.status == Ok
                 && a.ref.Some? && r.ref == a.ref && InRange(s.cnodes, Loc(c, a.ref.value.slot))
                 && Shaped(a.state) && Names(a.state.cnodes, Loc(c, i), v.obj)
                 && r.state == Wire(Drop(a.state, Loc(c, i)), v.obj, Loc(c, a.ref.value.slot))
            else r.state == s
  {
    var v := Resolve(s, c, i, g);
    AllocAtomic(s, c, v.typ, v.rights, v.obj);
    var a := AllocInstall(s, c, v.typ, v.rights, v.obj);
    if v.status == Ok && a.status == Ok {
      PlaceShaped(s, Loc(c, a.ref.value.slot), v.typ, v.rights, v.obj);
    }
  }

  lemma DeleteAtomic(s: State, c: nat, i: nat, g: nat)
    requires Shaped(s)
    ensures var r, v := Delete(s, c, i, g), Resolve(s, c, i, g);
            if r.status == Ok
            then && v.status == Ok && i != SLOT_ROOT_META && (RIGHT_DESTROY in v.rights || RIGHT_GRANT in v.rights)
                 && Names(s.cnodes, Loc(c, i), v.obj) && r.state == Drop(s, Loc(c, i))
            else r.state == s
  {
  }

  // ---- Clearing many slots.

  ghost predicate AllOccupied(cn: seq<CNode>, ls: seq<Loc>) {
    forall k :: 0 <= k < |ls| ==> Occupied(cn, ls[k])
  }

  /** Drop the slots of `ls` one after the other. */
  function DropEach(s: State, ls: seq<Loc>): (r: State)
    requires Shaped(s) && NoDup(ls) && AllOccupied(s.cnodes, ls)
    ensures Shaped(r)
    decreases |ls|
  {
    if ls == [] then s
    else
      DropShaped(s, ls[0]);
      assert AllOccupied(Drop(s, ls[0]).cnodes, ls[1..]) by {
        assert forall k :: 0 <= k < |ls[1..]| ==> ls[1..][k] == ls[k + 1];
      }
      DropEach(Drop(s, ls[0]), ls[1..])
  }

  /** One step of the sequence: drop the first slot, then the rest. */
  lemma DropEachStep(s: State, ls: seq<Loc>)
    requires Shaped(s) && NoDup(ls) && AllOccupied(s.cnodes, ls) && ls != []
    ensures Shaped(Drop(s, ls[0])) && NoDup(ls[1..]) && AllOccupied(Drop(s, ls[0]).cnodes, ls[1..])
    ensures DropEach(s, ls) == DropEach(Drop(s, ls[0]), ls[1..])
  {
    DropShaped(s, ls[0]);
    assert forall k :: 0 <= k < |ls[1..]| ==> ls[1..][k] == ls[k + 1];
  }

  /** The slots of CNode `c` at or after `from` that name `o`, lowest first. */
  function Matching(cn: seq<CNode>, c: nat, o: nat, from: nat): (ls: seq<Loc>)
    requires c < |cn| && from <= |cn[c].slots|
    ensures forall k :: 0 <= k < |ls| ==> Names(cn, ls[k], o)
    decreases |cn[c].slots| - from
  {
    if from == |cn[c].slots| then []
    else
      var rest := Matching(cn, c, o, from + 1);
      if Names(cn, Loc(c, from), o) then [Loc(c, from)] + rest else rest
  }

  /** `ls` lists slots of CNode `c` from `from` on that name `o`, in ascending order and completely. */
  ghost predicate ListsMatches(ls: seq<Loc>, cn: seq<CNode>, c: nat, o: nat, from: nat) {
    && (forall k :: 0 <= k < |ls| ==> ls[k].cnode == c && from <= ls[k].slot && Names(cn, ls[k], o))
    && (forall j, k :: 0 <= j < k < |ls| ==> ls[j].slot < ls[k].slot)
    && (forall l: Loc :: l.cnode == c && from <= l.slot && Names(cn, l, o) ==> l in ls)
  }

  lemma {:induction false} MatchingSpec(cn: seq<CNode>, c: nat, o: nat, from: nat)
    requires c < |cn| && from <= |cn[c].slots|
    ensures ListsMatches(Matching(cn, c, o, from), cn, c, o, from)
    decreases |cn[c].slots| - from
  {
    if from == |cn[c].slots| {
    } else {
      MatchingSpec(cn, c, o, from + 1);
      var rest := Matching(cn, c, o, from + 1);
      if Names(cn, Loc(c, from), o) {
        ListsMatchesHit(rest, cn, c, o, from, [Loc(c, from)] + rest);
      } else {
        ListsMatchesMiss(rest, cn, c, o, from);
      }
    }
  }

  lemma ListsMatchesMiss(rest: seq<Loc>, cn: seq<CNode>, c: nat, o: nat, from: nat)
    requires ListsMatches(rest, cn, c, o, from + 1) && !Names(cn, Loc(c, from), o)
    ensures ListsMatches(rest, cn, c, o, from)
  {
    forall l: Loc | l.cnode == c && from <= l.slot && Names(cn, l, o)
      ensures l in rest
    {
      assert l != Loc(c, from);
    }
  }

  lemma ListsMatchesHit(rest: seq<Loc>, cn: seq<CNode>, c: nat, o: nat, from: nat, ls: seq<Loc>)
    requires ListsMatches(rest, cn, c, o, from + 1) && Names(cn, Loc(c, from), o) && ls == [Loc(c, from)] + rest
    ensures ListsMatches(ls, cn, c, o, from)
  {
    assert ls[0] == Loc(c, from);
    forall k | 0 < k < |ls|
      ensures ls[k] == rest[k - 1] && ls[k].cnode == c && from < ls[k].slot && Names(cn, ls[k], o)
    {
    }
    forall j, k | 0 <= j < k < |ls|
      ensures ls[j].slot < ls[k].slot
    {
      if j > 0 {
        assert rest[j - 1].slot < rest[k - 1].slot;
      }
    }
    forall l: Loc | l.cnode == c && from <= l.slot && Names(cn, l, o)
      ensures l in ls
    {
      if l != ls[0] {
        assert l in rest;
      }
    }
  }

  /** The first `max` slots of CNode `c` at or after `from` that name `o`. */
  function ScanTargets(s: State, c: nat, o: nat, from: nat, max: nat): (ls: seq<Loc>)
    requires c < |s.cnodes| && from <= |s.cnodes[c].slots|
    ensures NoDup(ls) && AllOccupied(s.cnodes, ls)
  {
    TakeMatching(s.cnodes, c, o, from, max);
    Take(Matching(s.cnodes, c, o, from), max)
  }

  lemma TakeMatching(cn: seq<CNode>, c: nat, o: nat, from: nat, max: nat)
    requires c < |cn| && from <= |cn[c].slots|
    ensures NoDup(Take(Matching(cn, c, o, from), max)) && AllOccupied(cn, Take(Matching(cn, c, o, from), max))
  {
    var ms := Matching(cn, c, o, from);
    var ls := Take(ms, max);
    assert ListsMatches(ms, cn, c, o, from) by {
      MatchingSpec(cn, c, o, from);
    }
    forall i, j | 0 <= i < j < |ls|
      ensures ls[i] != ls[j]
    {
      assert ms[i].slot < ms[j].slot;
    }
    forall k | 0 <= k < |ls|
      ensures Occupied(cn, ls[k])
    {
      assert Names(cn, ms[k], o);
    }
  }

  /** The slots one bounded invalidate of `o` in CNode `c` clears. */
  function InvalidateTargets(s: State, c: nat, o: nat, max: nat): (ls: seq<Loc>)
    requires Shaped(s)
    ensures NoDup(ls) && AllOccupied(s.cnodes, ls)
  {
    if c >= |s.cnodes| || o >= |s.objs| || s.cnodes[c].locked then [] else ScanTargets(s, c, o, 0, max)
  }

  function Invalidate(s: State, c: nat, o: nat, max: nat): State
    requires Shaped(s)
  {
    DropEach(s, InvalidateTargets(s, c, o, max))
  }

  // ---- Walking the derivation index of a dead object.

  /** Every list is repetition-free and every edge names an occupied slot holding its object. */
  ghost predicate Indexed(s: State) {
    && |s.chains| == |s.objs|
    && (forall o :: 0 <= o < |s.chains| ==> NoDup(s.chains[o]))
    && forall o, k :: 0 <= o < |s.chains| && 0 <= k < |s.chains[o]| ==> Names(s.cnodes, s.chains[o][k], o)
  }

  /** The bound on edge visits in one walk, computed in 32-bit arithmetic. */
  function VisitCap(max: nat): nat {
    (max * 4 + 8) % U32_LIMIT
  }

  /** How many retries follow the first pass of a walk. */
  const SOFT_RETRY_MAX: nat := 3

  /** The lock words of the CNodes. */
  function Locks(cn: seq<CNode>): seq<bool> {
    seq(|cn|, c requires 0 <= c < |cn| => cn[c].locked)
  }

  /**
   Whether the try-lock at visit `k` of a walk succeeds. `locks` are the lock words that stay set
   during the whole walk, and `held[k]` are the CNodes other processors hold just at visit `k`, so
   that any history of answers is some `held`.
   */
  predicate Granted(locks: seq<bool>, held: seq<set<nat>>, k: nat, l: Loc) {
    !(l.cnode < |locks| && locks[l.cnode]) && !(k < |held| && l.cnode in held[k])
  }

  /** What a walk did to a list: the edges it cleared, those it left, and the visits made so far. */
  datatype Tour = Tour(cleared: seq<Loc>, left: seq<Loc>, visits: nat)

  /** One pass over `chain`, which clears an edge if its CNode's lock can be taken at that visit. */
  function Pass(locks: seq<bool>, held: seq<set<nat>>, chain: seq<Loc>, max: nat, k: nat, cap: nat): (t: Tour)
    ensures |t.cleared| + |t.left| == |chain| && |t.cleared| <= max
    ensures k <= t.visits && (k <= cap ==> t.visits <= cap)
    decreases |chain|
  {
    if chain == [] || max == 0 || k >= cap then Tour([], chain, k)
    else if Granted(locks, held, k, chain[0]) then
      var t := Pass(locks, held, chain[1..], max - 1, k + 1, cap);
      t.(cleared := [chain[0]] + t.cleared)
    else
      var t := Pass(locks, held, chain[1..], max, k + 1, cap);
      t.(left := [chain[0]] + t.left)
  }

  /** At most `n` passes, each but the first a retry because the one before it met a busy CNode. */
  function Passes(locks: seq<bool>, held: seq<set<nat>>, chain: seq<Loc>, max: nat, k: nat, cap: nat, n: nat): (t: Tour)
    ensures |t.cleared| + |t.left| == |chain| && |t.cleared| <= max
    ensures k <= t.visits && (k <= cap ==> t.visits <= cap)
    decreases n
  {
    if n == 0 || max == 0 || k >= cap then Tour([], chain, k)
    else
      var p := Pass(locks, held, chain, max, k, cap);
      if p.visits - k == |p.cleared| then p
      else
        var q := Passes(locks, held, p.left, max - |p.cleared|, p.visits, cap, n - 1);
        Tour(p.cleared + q.cleared, q.left, q.visits)
  }

  /** A tour splits its list: every edge was either cleared or left, once. */
  ghost predicate Splits(chain: seq<Loc>, t: Tour) {
    && NoDup(t.cleared) && NoDup(t.left)
    && (forall l :: l in t.cleared ==> l !in t.left)
    && forall l :: l in chain <==> l in t.cleared || l in t.left
  }

  lemma {:induction false} PassSplits(locks: seq<bool>, held: seq<set<nat>>, chain: seq<Loc>, max: nat, k: nat,
                                      cap: nat)
    requires NoDup(chain)
    ensures Splits(chain, Pass(locks, held, chain, max, k, cap))
    decreases |chain|
  {
    if chain == [] || max == 0 || k >= cap {
    } else {
      var tail := chain[1..];
      assert forall j :: 0 <= j < |tail| ==> tail[j] == chain[j + 1];
      assert chain[0] !in tail && forall l :: l in chain <==> l == chain[0] || l in tail;
      if Granted(locks, held, k, chain[0]) {
        PassSplits(locks, held, tail, max - 1, k + 1, cap);
        ConsSplits(chain[0], tail, Pass(locks, held, tail, max - 1, k + 1, cap), true);
      } else {
        PassSplits(locks, held, tail, max, k + 1, cap);
        ConsSplits(chain[0], tail, Pass(locks, held, tail, max, k + 1, cap), false);
      }
    }
  }

  lemma ConsSplits(l: Loc, tail: seq<Loc>, t: Tour, clears: bool)
    requires l !in tail && Splits(tail, t)
    ensures var t' := if clears then t.(cleared := [l] + t.cleared) else t.(left := [l] + t.left);
            Splits([l] + tail, t')
  {
  }

  lemma {:induction false} PassesSplit(locks: seq<bool>, held: seq<set<nat>>, chain: seq<Loc>, max: nat, k: nat,
                                       cap: nat, n: nat)
    requires NoDup(chain)
    ensures Splits(chain, Passes(locks, held, chain, max, k, cap, n))
    decreases n
  {
    if n == 0 || max == 0 || k >= cap {
    } else {
      PassSplits(locks, held, chain, max, k, cap);
      var p := Pass(locks, held, chain, max, k, cap);
      PassesSplit(locks, held, p.left, max - |p.cleared|, p.visits, cap, n - 1);
      SplitAgain(chain, p, Passes(locks, held, p.left, max - |p.cleared|, p.visits, cap, n - 1));
    }
  }

  lemma SplitAgain(chain: seq<Loc>, p: Tour, q: Tour)
    requires Splits(chain, p) && Splits(p.left, q)
    ensures Splits(chain, Tour(p.cleared + q.cleared, q.left, q.visits))
  {
    assert forall j :: 0 <= j < |q.cleared| ==> q.cleared[j] in p.left;
  }

  /** The edges of `o` a walk clears. */
  function WalkTargets(s: State, o: nat, max: nat, held: seq<set<nat>>): (ls: seq<Loc>)
    requires Indexed(s)
    ensures NoDup(ls)
    ensures forall k :: 0 <= k < |ls| ==> Names(s.cnodes, ls[k], o) && o < |s.chains| && ls[k] in s.chains[o]
  {
    if o >= |s.objs| then []
    else
      PassesSplit(Locks(s.cnodes), held, s.chains[o], max, 0, VisitCap(max), SOFT_RETRY_MAX + 1);
      var ls := Passes(Locks(s.cnodes), held, s.chains[o], max, 0, VisitCap(max), SOFT_RETRY_MAX + 1).cleared;
      assert forall k :: 0 <= k < |ls| ==> ls[k] in s.chains[o];
      ls
  }

  function WalkIndex(s: State, o: nat, max: nat, held: seq<set<nat>>): State
    requires Shaped(s) && Indexed(s)
  {
    DropEach(s, WalkTargets(s, o, max, held))
  }

  // ---- Object lifetime.

  /** Phase C may free the header: dead, no slot names it, no edge, no reference, no pin. */
  predicate ReclaimReady(s: State, o: nat, refs: nat, pins: nat) {
    && o < |s.objs| && o < |s.chains|
    && s.objs[o].life.Dead?
    && s.objs[o].slotsLeft == 0
    && s.chains[o] == []
    && refs == 0
    && pins == 0
  }

  function FreshObj(): Obj {
    Obj(Live, 1, 0)
  }

  // ---- Structural well-formedness is kept.

  lemma PlaceShaped(s: State, l: Loc, typ: nat, rights: Rights, o: nat)
    requires Shaped(s) && InRange(s.cnodes, l) && o < |s.objs| && typ != CAP_INVALID
    ensures Shaped(Place(s, l, typ, rights, o))
  {
  }

  lemma WireShaped(s: State, o: nat, l: Loc)
    requires Shaped(s) && o < |s.objs|
    ensures Shaped(Wire(s, o, l))
  {
  }

  lemma DropShaped(s: State, l: Loc)
    requires Shaped(s) && Occupied(s.cnodes, l)
    ensures Shaped(Drop(s, l))
  {
  }
}
