/** Revocation driven in place: Phase A, and the deferred tick over the queue. */
module RevokeDriver {
  import opened Words
  import opened CapState
  import opened CapOps
  import opened CapWalk
  import opened CapInvariant
  import opened CapKernel
  import opened RevokeQueue

  /** A queue entry: nothing to walk, no longer dead, or a dead object with edges. */
  datatype Kind = Waiting(note: bool) | Stale | Walkable(o: nat)

  /** The CNodes other processors hold at each visit of an entry's first and second walk. */
  datatype Rivals = Rivals(first: seq<set<nat>>, second: seq<set<nat>>)

  const NOBODY: Rivals := Rivals([], [])

  /** Nobody else takes locks during the tick. */
  predicate Quiet(held: seq<Rivals>) {
    forall k :: 0 <= k < |held| ==> held[k] == NOBODY
  }

  class Revoker {
    const kernel: Kernel
    const ents: array<Option<nat>>
    var len: nat
    var cursor: nat

    constructor (k: Kernel)
      requires k.Valid()
      ensures kernel == k && fresh(ents) && len == 0 && cursor == 0
      ensures Linked() && QueueOk(Q())
    {
      kernel := k;
      ents := new Option<nat>[Q_MAX](_ => None);
      len := 0;
      cursor := 0;
    }

    ghost function Q(): Queue
      reads this, ents
    {
      Queue(ents[..], len, cursor)
    }

    ghost predicate Linked() {
      && ents != kernel.ledger.parents
      && ents as object !in kernel.Tables() && this as object !in kernel.Tables()
    }

    /** The queue and the capability space are well-formed. */
    ghost predicate Valid()
      reads this, ents
      reads kernel.cnodes, set c | c in kernel.cnodes :: c.slots
      reads kernel.objs, kernel.pool, kernel.pool.edges, kernel.pool.used, kernel.pool.heads
      reads kernel.ledger.limits, kernel.ledger.used, kernel.ledger.parents
    {
      Linked() && kernel.Valid() && Inv(kernel.Abs()) && QueueOk(Q())
    }

    ghost function View(): Sys
      reads this, ents
      reads kernel.cnodes, set c | c in kernel.cnodes :: c.slots
      reads kernel.objs, kernel.pool, kernel.ledger.limits, kernel.ledger.used, kernel.ledger.parents
    {
      Sys(kernel.Abs(), Q())
    }

    // ---- The queue.

    /** `revoke_q_push`. */
    method Enqueue(o: nat) returns (ok: bool)
      requires Linked() && QueueOk(Q())
      modifies this`len, ents
      ensures QueueOk(Q()) && (Q(), ok) == Push(old(Q()), o)
    {
      PushOk(Q(), o);
      var i, free := 0, ents.Length;
      while i < ents.Length
        invariant 0 <= i <= ents.Length
        invariant forall j :: 0 <= j < i ==> ents[j] != Some(o)
        invariant free == if FirstInactive(ents[..], 0) < i then FirstInactive(ents[..], 0) else ents.Length
      {
        if ents[i].Some? {
          if ents[i].value == o {
            return true;
          }
        } else if free == ents.Length {
          free := i;
        }
        i := i + 1;
      }
      if free >= ents.Length {
        return false;
      }
      ents[free] := Some(o);
      if free >= len {
        len := free + 1;
      }
      ok := true;
    }

    /** `revoke_q_drop`. */
    method Dequeue(i: nat)
      requires Linked() && QueueOk(Q()) && i < Q_MAX
      modifies this`len, ents
      ensures QueueOk(Q()) && Q() == Remove(old(Q()), i)
    {
      RemoveOk(Q(), i);
      ents[i] := None;
      len := TrimmedLength();
    }

    /** The published length without trailing empty entries. */
    method TrimmedLength() returns (n: nat)
      requires len <= ents.Length
      ensures n == Trim(ents[..], len)
    {
      ghost var es := ents[..];
      n := len;
      while n > 0 && ents[n - 1].None?
        invariant 0 <= n <= len && Trim(es, len) == Trim(es, n)
      {
        n := n - 1;
      }
    }

    /** `gj_obj_reclaim`: only a dead header without slots, edges, references or pins; its queue entry is dropped. */
    method Reclaim(o: nat, refs: nat, pins: nat) returns (st: Status)
      requires Valid()
      modifies this`len, ents
      ensures Valid() && kernel.Abs() == old(kernel.Abs())
      ensures st == if o >= kernel.objs.Length then ErrInval
                    else if ReclaimReady(kernel.Abs(), o, refs, pins) then Ok else ErrBusy
      ensures Q() == if st == Ok then Purge(old(Q()), o) else old(Q())
    {
      if o >= kernel.objs.Length {
        return ErrInval;
      }
      kernel.pool.HeadFacts(o);
      var head := kernel.pool.heads[o];
      if !kernel.objs[o].life.Dead? || kernel.objs[o].slotsLeft != 0 || head.Some? || refs != 0 || pins != 0 {
        return ErrBusy;
      }
      DropEntriesOf(o);
      st := Ok;
    }

    /** The loop over all entries; an object has one at most. */
    method DropEntriesOf(o: nat)
      requires Linked() && QueueOk(Q())
      modifies this`len, ents
      ensures QueueOk(Q()) && Q() == Purge(old(Q()), o)
    {
      ghost var q := Q();
      ghost var at := EntryOf(q.ents, o, 0);
      PurgeOk(q, o);
      for i := 0 to Q_MAX
        invariant QueueOk(Q())
        invariant Q() == if at < i then Purge(q, o) else q
      {
        if ents[i] == Some(o) {
          assert i == at;
          Dequeue(i);
        }
      }
    }

    // ---- Phase A.

    /** `gj_obj_revoke_begin`: DEAD and the generation bump come before any deferrable work. */
    method Revoke(o: nat) returns (st: Status)
      requires Valid()
      modifies this`len, ents, kernel.objs
      ensures Valid()
      ensures st == Begin(old(View()), o).1 && Q() == Begin(old(View()), o).0.queue
      ensures kernel.Abs() == Begin(old(View()), o).0.caps
    {
      if o >= kernel.objs.Length {
        return ErrInval;
      }
      if !kernel.objs[o].life.Live? {
        return ErrDead;
      }
      KilledIsEffects(kernel.Abs(), o);
      Kill(o);
      var ok := EnqueueDead(o);
      st := if ok then Ok else ErrAgain;
    }

    method EnqueueDead(o: nat) returns (ok: bool)
      requires Valid()
      modifies this`len, ents
      ensures Valid() && kernel.Abs() == old(kernel.Abs()) && (Q(), ok) == Push(old(Q()), o)
    {
      ok := Enqueue(o);
    }

    method Kill(o: nat)
      requires Valid() && o < kernel.objs.Length && Inv(Killed(kernel.Abs(), o))
      modifies kernel.objs
      ensures Valid() && Q() == old(Q()) && kernel.Abs() == Killed(old(kernel.Abs()), o)
    {
      ghost var s := kernel.Abs();
      kernel.WriteObj(o, kernel.objs[o].(life := Revoking));
      kernel.WriteObj(o, kernel.objs[o].(life := Dead, gen := Inc32(kernel.objs[o].gen)));
      KilledInTwo(s.objs, o);
    }

    // ---- The deferred tick.

    method WalkObject(o: nat, budget: nat, held: seq<set<nat>>) returns (n: nat)
      requires Valid() && o < kernel.objs.Length
      modifies kernel.Tables(), kernel.cnodes
      ensures kernel.Valid() && Q() == old(Q())
      ensures kernel.Abs() == WalkIndex(old(kernel.Abs()), o, budget, held)
      ensures n == |WalkTargets(old(kernel.Abs()), o, budget, held)|
    {
      n := kernel.WalkBatch(o, budget, held);
    }

    /** One batch over the index of a queued object. */
    method Batch(o: nat, budget: nat, held: seq<set<nat>>) returns (n: nat)
      requires Valid() && o < kernel.objs.Length
      modifies kernel.Tables(), kernel.cnodes
      ensures Valid() && Q() == old(Q())
      ensures n <= budget && Walked(old(kernel.Abs()), kernel.Abs(), o, budget, held, n)
      ensures Cleaned(old(kernel.Abs()), kernel.Abs(), o, budget, n, held == [])
    {
      ghost var s := kernel.Abs();
      n := WalkObject(o, budget, held);
      WalkCleans(s, kernel.Abs(), o, budget, held, n);
    }

    /** A batch, and one more if edges and budget are left. */
    method BatchTwice(o: nat, budget: nat, h1: seq<set<nat>>, h2: seq<set<nat>>)
      returns (sum: nat, ghost t: State, ghost n: nat, ghost rest: nat, ghost m: nat)
      requires Valid() && o < kernel.objs.Length
      modifies kernel.Tables(), kernel.cnodes
      ensures Valid() && Q() == old(Q()) && sum == n + m
      ensures WalkedTwice(old(kernel.Abs()), t, kernel.Abs(), o, budget, n, rest, m, h1, h2)
      ensures Cleaned(old(kernel.Abs()), kernel.Abs(), o, budget, sum, h1 == [])
    {
      ghost var s := kernel.Abs();
      sum := Batch(o, budget, h1);
      var left := budget - sum;
      t, n, rest, m := kernel.Abs(), sum, left, 0;
      HasEdges(o);
      if kernel.pool.heads[o].Some? && left > 0 {
        sum, m := BatchAgain(o, budget, sum, left, h2, s, h1 == []);
        FirstAndSecond(s, t, kernel.Abs(), o, budget, n, rest, m, h1, h2);
      } else {
        FirstOnly(s, t, o, budget, n, rest, h1, h2);
      }
    }

    lemma HasEdges(o: nat)
      requires Valid() && o < kernel.objs.Length
      ensures o < kernel.pool.heads.Length && o < |kernel.Abs().chains|
      ensures kernel.pool.heads[o].Some? <==> kernel.Abs().chains[o] != []
    {
      kernel.pool.HeadFacts(o);
    }

    method BatchAgain(o: nat, budget: nat, n: nat, rest: nat, held: seq<set<nat>>, ghost s: State,
                      ghost quiet: bool) returns (sum: nat, more: nat)
      requires Valid() && o < kernel.objs.Length && n + rest == budget && rest > 0
      requires Cleaned(s, kernel.Abs(), o, budget, n, quiet)
      modifies kernel.Tables(), kernel.cnodes
      ensures Valid() && Q() == old(Q()) && sum == n + more
      ensures Walked(old(kernel.Abs()), kernel.Abs(), o, rest, held, more)
      ensures Cleaned(s, kernel.Abs(), o, budget, sum, quiet)
    {
      ghost var t := kernel.Abs();
      more := Batch(o, rest, held);
      sum := n + more;
      CleanedTwice(s, t, kernel.Abs(), o, budget, n, rest, more, sum, quiet, held == []);
    }

    method WalkEntry(i: nat, limit: nat, o: nat, budget: nat, h1: seq<set<nat>>, h2: seq<set<nat>>) returns (n: nat)
      requires Valid() && i < limit <= Q_MAX && ents[i] == Some(o) && Ready(View(), i)
      modifies this, ents, kernel.Tables(), kernel.cnodes
      ensures Valid() && cursor == NextEntry(i, limit)
      ensures Visited(old(View()), View(), i, budget, n, h1 == [])
      ensures QueueAfter(old(Q()), Q(), i, limit, false, true)
    {
      ghost var sys := View();
      ghost var t, first, rest, second;
      n, t, first, rest, second := BatchTwice(o, budget, h1, h2);
      SetCursor(NextEntry(i, limit));
      CleanedVisited(sys, kernel.Abs(), Q(), i, budget, n, h1 == []);
    }

    method SetCursor(c: nat)
      requires Valid()
      modifies this`cursor
      ensures Valid() && kernel.Abs() == old(kernel.Abs()) && Q() == old(Q()).(cursor := c)
    {
      cursor := c;
    }

    method DropEntry(i: nat, ghost limit: nat, ghost budget: nat, ghost quiet: bool)
      requires Valid() && i < Q_MAX && ents[i].Some?
      requires ents[i].value < kernel.objs.Length ==> !kernel.objs[ents[i].value].life.Dead?
      modifies this, ents
      ensures Valid()
      ensures Visited(old(View()), View(), i, budget, 0, quiet)
      ensures QueueAfter(old(Q()), Q(), i, limit, true, false)
    {
      ghost var sys := View();
      RemovalVisited(sys, i, budget, quiet);
      Dequeue(i);
      assert View() == Sys(sys.caps, Remove(sys.queue, i));
    }

    method NoteEntry(i: nat, limit: nat, note: bool, ghost budget: nat, ghost quiet: bool)
      requires Valid() && i < limit <= Q_MAX && !Ready(View(), i)
      modifies this`cursor
      ensures Valid()
      ensures Visited(old(View()), View(), i, budget, 0, quiet)
      ensures QueueAfter(old(Q()), Q(), i, limit, false, note)
    {
      SameEntriesVisited(View(), Q().(cursor := if note then NextEntry(i, limit) else cursor), i, budget, quiet);
      if note {
        cursor := NextEntry(i, limit);
      }
    }

    /** What kind of entry the scan has met. */
    method Classify(i: nat) returns (kind: Kind)
      requires Valid() && i < Q_MAX
      ensures kind.Waiting? ==> !Ready(View(), i) && !RevokeQueue.Stale(View(), i)
      ensures kind.Waiting? ==> (kind.note <==> Lagging(View(), i))
      ensures kind.Stale? <==> RevokeQueue.Stale(View(), i)
      ensures kind.Walkable? ==> ents[i] == Some(kind.o) && Ready(View(), i) && Lagging(View(), i)
    {
      if ents[i].None? {
        return Kind.Waiting(false);
      }
      var o := ents[i].value;
      if o >= kernel.objs.Length || !kernel.objs[o].life.Dead? {
        return Kind.Stale;
      }
      kernel.pool.HeadFacts(o);
      EdgesAreCounted(kernel.Abs(), o);
      var head := kernel.pool.heads[o];
      kind := if head.Some? then Walkable(o) else Kind.Waiting(kernel.objs[o].slotsLeft > 0);
    }

    /** One entry of the round-robin scan. */
    method VisitEntry(i: nat, limit: nat, budget: nat, h1: seq<set<nat>>, h2: seq<set<nat>>) returns (n: nat)
      requires Valid() && i < limit <= Q_MAX
      modifies this, ents, kernel.Tables(), kernel.cnodes
      ensures Valid() && (n > 0 ==> cursor == NextEntry(i, limit))
      ensures Visited(old(View()), View(), i, budget, n, h1 == [])
      ensures QueueAfter(old(Q()), Q(), i, limit, old(RevokeQueue.Stale(View(), i)), old(Lagging(View(), i)))
    {
      n := 0;
      var kind := Classify(i);
      if kind.Walkable? {
        n := WalkEntry(i, limit, kind.o, budget, h1, h2);
      } else {
        PassEntry(i, limit, kind, budget, h1 == []);
      }
    }

    /** An entry without edges is kept, and noted if slots are left; a stale one is dropped. */
    method PassEntry(i: nat, limit: nat, kind: Kind, ghost budget: nat, ghost quiet: bool)
      requires Valid() && i < limit <= Q_MAX && !kind.Walkable?
      requires kind.Waiting? ==> !Ready(View(), i) && !RevokeQueue.Stale(View(), i)
      requires kind.Waiting? ==> (kind.note <==> Lagging(View(), i))
      requires kind.Stale? ==> RevokeQueue.Stale(View(), i)
      modifies this, ents
      ensures Valid() && Visited(old(View()), View(), i, budget, 0, quiet)
      ensures QueueAfter(old(Q()), Q(), i, limit, old(RevokeQueue.Stale(View(), i)), old(Lagging(View(), i)))
    {
      if kind.Stale? {
        DropEntry(i, limit, budget, quiet);
      } else {
        NoteEntry(i, limit, kind.note, budget, quiet);
      }
    }

    /**
     `gj_revoke_process_deferred`: round-robin from the cursor, within a budget of cleared slots. `held` lists for
     the first and the second walk of each entry scanned the CNodes other processors hold at each visit. Whatever
     they hold, the tick loses no work and leaves unqueued objects alone, and it clears something only if some
     queued dead object has an edge in an unlocked CNode within the visit bound; if nobody competes, whenever one has.
     */
    method Process(max: nat, held: seq<Rivals>) returns (cleared: nat, ghost scanned: nat)
      requires Valid()
      modifies this, ents, kernel.Tables(), kernel.cnodes
      ensures Valid()
      ensures Improves(old(View()), View(), cleared) && SomeEntries(old(View()), View()) && cleared <= max
      ensures cleared >= 1 ==> max >= 1 && AnyDue(old(View()), max)
      ensures Quiet(held) && max >= 1 && AnyDue(old(View()), max) ==> cleared >= 1
      ensures max >= 1 && old(len) > 0 ==> TickDone(old(View()), View(), max, cleared, scanned, Quiet(held))
      ensures max >= 1 && old(len) > 0 ==> Sifted(old(View()), Q(), old(cursor % len), scanned, old(len))
    {
      var limit := len;
      cleared, scanned := 0, 0;
      if max == 0 || limit == 0 {
        return;
      }
      ghost var sys := View();
      var start := cursor % limit;
      ghost var last;
      cleared, scanned, last := Scan(limit, start, max, held);
      TickIsDone(sys, View(), start, max, cleared, scanned, last, Quiet(held));
    }

    /** After `scanned` visits, the last one of entry `last`, `cleared` slots are gone. */
    ghost predicate Scanning(sys: Sys, start: nat, scanned: nat, limit: nat, max: nat, cleared: nat, last: nat,
                             quiet: bool)
      reads this, ents
      reads kernel.cnodes, set c | c in kernel.cnodes :: c.slots
      reads kernel.objs, kernel.pool, kernel.pool.edges, kernel.pool.used, kernel.pool.heads
      reads kernel.ledger.limits, kernel.ledger.used, kernel.ledger.parents
    {
      && Valid() && scanned <= limit && start < limit
      && Ticking(sys, View(), start, scanned, limit, max, cleared, quiet)
      && Sifted(sys, Q(), start, scanned, limit)
      && (if scanned == 0 then cleared == 0 else last == Rotate(start, scanned - 1, limit))
      && (cleared == max && scanned > 0 ==> cursor == NextEntry(last, limit) && LostEdge(sys, View(), last))
    }

    /** The loop of the tick. */
    method Scan(limit: nat, start: nat, max: nat, held: seq<Rivals>) returns (cleared: nat, scanned: nat,
                ghost last: nat)
      requires Valid() && start < limit == len && max >= 1
      modifies this, ents, kernel.Tables(), kernel.cnodes
      ensures Scanning(old(View()), start, scanned, limit, max, cleared, last, Quiet(held))
      ensures scanned > 0 && (scanned == limit || cleared == max)
    {
      ghost var sys, quiet := View(), Quiet(held);
      TickingStarts(sys, start, limit, max, quiet);
      scanned, cleared, last := 0, 0, start;
      while scanned < limit && cleared < max
        invariant Scanning(sys, start, scanned, limit, max, cleared, last, quiet)
        invariant scanned == 0 ==> cleared == 0
      {
        var rivals := if scanned < |held| then held[scanned] else NOBODY;
        scanned, cleared, last := ScanStep(sys, start, scanned, limit, max, cleared, last, rivals, quiet);
      }
    }

    method ScanStep(ghost sys: Sys, start: nat, scanned: nat, limit: nat, max: nat, cleared: nat, ghost last: nat,
                    rivals: Rivals, ghost quiet: bool)
      returns (scanned': nat, cleared': nat, ghost last': nat)
      requires Scanning(sys, start, scanned, limit, max, cleared, last, quiet) && QueueOk(sys.queue)
      requires start < limit <= Q_MAX && scanned < limit && cleared < max && (quiet ==> rivals == NOBODY)
      modifies this, ents, kernel.Tables(), kernel.cnodes
      ensures scanned' == scanned + 1 && Scanning(sys, start, scanned', limit, max, cleared', last', quiet)
    {
      ghost var t := View();
      var i, budget := Rotate(start, scanned, limit), max - cleared;
      scanned', last' := scanned + 1, i;
      var n := VisitEntry(i, limit, budget, rivals.first, rivals.second);
      cleared' := cleared + n;
      LoudVisited(t, View(), i, budget, n, rivals.first == [], quiet);
      TickingStep(sys, t, View(), start, scanned, limit, max, cleared, n, i, budget, scanned', cleared', quiet);
      SiftedStep(sys, t, Q(), start, scanned, limit, i, scanned');
    }

    /**
     The timer redrives the tick. As many ticks as there are edges in use leave nothing that a tick could clear;
     with no work lost and the locks free, every dead object is then without an edge.
     */
    method Redrive(max: nat, ticks: nat)
      requires Valid() && max >= 1
      modifies this, ents, kernel.Tables(), kernel.cnodes
      ensures Valid() && Lost(View()) <= old(Lost(View())) && SameLocks(old(kernel.Abs()), kernel.Abs())
      ensures ticks >= old(kernel.Abs()).poolUsed ==> !AnyDue(View(), max)
      ensures ticks >= old(kernel.Abs()).poolUsed && max <= 0x3fff_fffd ==>
                (old(Lost(View())) == {} && AllLocksFree(old(kernel.Abs())) ==> Drained(kernel.Abs()))
    {
      ghost var before := kernel.Abs().poolUsed;
      var t := 0;
      while t < ticks
        invariant Valid() && t <= ticks
        invariant Lost(View()) <= old(Lost(View())) && SameLocks(old(kernel.Abs()), kernel.Abs())
        invariant !AnyDue(View(), max) || kernel.Abs().poolUsed + t <= before
      {
        RedriveOnce(max);
        t := t + 1;
      }
      if ticks >= before {
        if kernel.Abs().poolUsed == 0 {
          NoEdgesNothingDue(View(), max);
        }
        if old(Lost(View())) == {} && AllLocksFree(kernel.Abs()) && max <= 0x3fff_fffd {
          NothingLeft(View(), max);
        }
      }
    }

    method RedriveOnce(max: nat)
      requires Valid() && max >= 1
      modifies this, ents, kernel.Tables(), kernel.cnodes
      ensures Valid() && Lost(View()) <= old(Lost(View())) && SameLocks(old(kernel.Abs()), kernel.Abs())
      ensures old(AnyDue(View(), max)) ==> kernel.Abs().poolUsed < old(kernel.Abs().poolUsed)
      ensures old(!AnyDue(View(), max)) ==> !AnyDue(View(), max)
    {
      ghost var sys := View();
      ghost var scanned;
      var cleared;
      cleared, scanned := Process(max, []);
      if !AnyDue(sys, max) {
        NothingDueStays(sys, View(), max);
      }
    }
  }
}
