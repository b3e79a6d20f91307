/**
 Ticks over time. Any operations may come between two ticks: a queued object is served within as many ticks as the
 queue holds entries, provided no tick finds the cursor beyond the published length, and ticks that find the locks
 free drain the system.
 */
module RevokeFairness {
  import opened Words
  import opened CapInvariant
  import opened RevokeQueue

  /** One tick without competition, with the systems before and after it. */
  datatype Turn = Turn(pre: Sys, post: Sys, max: nat, cleared: nat, scanned: nat)

  ghost predicate TurnDone(t: Turn) {
    && QueueOk(t.pre.queue) && t.max <= 0x3fff_fffd
    && TickDone(t.pre, t.post, t.max, t.cleared, t.scanned, true)
  }

  /** The list of `o` has become shorter. */
  ghost predicate Shorter(s: Sys, t: Sys, o: nat) {
    o < |s.caps.chains| && o < |t.caps.chains| && |t.caps.chains[o]| < |s.caps.chains[o]|
  }

  // ---- One tick.

  /** How many entries of a ring of `cap` lie between the cursor `c` and entry `i`, at most. */
  function Away(c: nat, i: nat, cap: nat): nat
    requires c < cap
  {
    if c <= i then i - c else cap - c + i
  }

  /** Where entry `i` stands in a round that starts at `start`. */
  function Offset(start: nat, i: nat, limit: nat): (k: nat)
    requires start < limit && i < limit
    ensures k < limit && Rotate(start, k, limit) == i
  {
    if i >= start then i - start else i + limit - start
  }

  /** A round that stops short of entry `i` leaves the cursor closer to it. */
  lemma CloserCursor(start: nat, scanned: nat, limit: nat, i: nat, cap: nat)
    requires start < limit <= cap && i < limit && 0 < scanned <= Offset(start, i, limit)
    ensures NextEntry(Rotate(start, scanned - 1, limit), limit) < limit
    ensures Away(NextEntry(Rotate(start, scanned - 1, limit), limit), i, cap) < Away(start, i, cap)
  {
  }

  /** A tick serves entry `i` if it is due, or leaves its list alone and the cursor closer to it. */
  lemma TickServes(t: Turn, i: nat, o: nat, start: nat, cap: nat)
    requires TurnDone(t) && i < Q_MAX && t.pre.queue.ents[i] == Some(o) && Due(t.pre, i, 1)
    requires t.pre.queue.len <= cap && start == t.pre.queue.cursor % t.pre.queue.len
    ensures start < t.pre.queue.len && i < t.pre.queue.len
    ensures Shorter(t.pre, t.post, o) ||
            (&& t.post.queue.cursor < t.pre.queue.len && Away(t.post.queue.cursor, i, cap) < Away(start, i, cap)
             && o < |t.pre.caps.chains| == |t.post.caps.chains| && t.post.caps.chains[o] == t.pre.caps.chains[o])
  {
    var limit := t.pre.queue.len;
    var k := Offset(start, i, limit);
    if k < t.scanned {
      assert WorkedOff(t.pre, t.post, Rotate(start, k, limit));
    } else {
      assert Waiting(t.pre, t.post, Rotate(start, k, limit));
      CloserCursor(start, t.scanned, limit, i, cap);
    }
  }

  // ---- Many ticks.

  /** Ticks one after the other, with anything in between that leaves the cursor alone. */
  ghost predicate Turns(ts: seq<Turn>) {
    && (forall k :: 0 <= k < |ts| ==> TurnDone(ts[k]))
    && (forall k :: 0 < k < |ts| ==> ts[k].pre.queue.cursor == ts[k - 1].post.queue.cursor)
  }

  /** At every tick entry `i` holds `o`, is due, and the queue is no longer than `cap`. */
  ghost predicate AlwaysDue(ts: seq<Turn>, i: nat, o: nat, cap: nat) {
    forall k :: 0 <= k < |ts| ==>
      && i < |ts[k].pre.queue.ents| && ts[k].pre.queue.ents[i] == Some(o) && Due(ts[k].pre, i, 1)
      && ts[k].pre.queue.len <= cap
  }

  /** No tick but the first finds the cursor beyond the published length. */
  ghost predicate CursorInRange(ts: seq<Turn>) {
    forall k :: 0 < k < |ts| ==> ts[k].pre.queue.cursor < ts[k].pre.queue.len
  }

  lemma {:induction false} Approach(ts: seq<Turn>, i: nat, o: nat, cap: nat, n: nat)
    requires Turns(ts) && AlwaysDue(ts, i, o, cap) && CursorInRange(ts) && 0 < n <= |ts| && i < Q_MAX
    requires forall k :: 0 <= k < n ==> !Shorter(ts[k].pre, ts[k].post, o)
    ensures var c := ts[n - 1].post.queue.cursor; c < cap && Away(c, i, cap) + n < cap
    decreases n
  {
    var t := ts[n - 1];
    var limit := t.pre.queue.len;
    var start := t.pre.queue.cursor % limit;
    TickServes(t, i, o, start, cap);
    if n == 1 {
    } else {
      Approach(ts, i, o, cap, n - 1);
      SmallMod(t.pre.queue.cursor, limit);
      assert t.pre.queue.cursor == ts[n - 1 - 1].post.queue.cursor;
    }
  }

  /**
   Round-robin fairness, whatever happens between the ticks: of as many ticks as the queue ever holds entries, one
   clears an edge of a queued object that is due at each of them, unless a tick finds the cursor beyond the
   published length.
   */
  lemma TicksAreFair(ts: seq<Turn>, i: nat, o: nat, cap: nat)
    requires Turns(ts) && AlwaysDue(ts, i, o, cap) && CursorInRange(ts) && i < Q_MAX && 0 < cap <= |ts|
    ensures exists k :: 0 <= k < |ts| && Shorter(ts[k].pre, ts[k].post, o)
  {
    if forall k :: 0 <= k < |ts| ==> !Shorter(ts[k].pre, ts[k].post, o) {
      Approach(ts, i, o, cap, |ts|);
    }
  }

  // ---- Ticks in a row.

  ghost predicate InARow(ts: seq<Turn>) {
    && (forall k :: 0 <= k < |ts| ==> TurnDone(ts[k]))
    && (forall k :: 0 < k < |ts| ==> ts[k].pre == ts[k - 1].post)
  }

  /** The same queue, lives and locks, and no list has grown. */
  ghost predicate Steady(a: Sys, t: Sys) {
    && t.queue.ents == a.queue.ents && t.queue.len == a.queue.len
    && SameLives(a.caps, t.caps) && SameLocks(a.caps, t.caps)
    && |t.caps.chains| == |a.caps.chains|
    && (forall x :: 0 <= x < |a.caps.chains| ==> |t.caps.chains[x]| <= |a.caps.chains[x]|)
  }

  lemma TickSteady(a: Sys, t: Turn)
    requires Steady(a, t.pre) && AllQueuedDead(a) && TurnDone(t)
    ensures Steady(a, t.post)
  {
    assert AllQueuedDead(t.pre);
  }

  /** Steady, and the list of `o` is shorter, or as it was with entry `i` due as before and the cursor in range. */
  ghost predicate Served(a: Sys, t: Sys, i: nat, o: nat, first: bool) {
    && Steady(a, t)
    && (Shorter(a, t, o) ||
        (o < |a.caps.chains| && t.caps.chains[o] == a.caps.chains[o] && (first || t.queue.cursor < t.queue.len)))
  }

  lemma StillDue(a: Sys, t: Sys, i: nat, o: nat)
    requires Steady(a, t) && i < |a.queue.ents| && a.queue.ents[i] == Some(o) && Due(a, i, 1)
    requires t.caps.chains[o] == a.caps.chains[o]
    ensures Due(t, i, 1)
  {
    WorkableSame(a.caps, t.caps, o, 1);
  }

  lemma ServedStep(a: Sys, t: Turn, i: nat, o: nat, first: bool)
    requires Served(a, t.pre, i, o, first) && AllQueuedDead(a) && TurnDone(t)
    requires i < Q_MAX == |a.queue.ents| && a.queue.ents[i] == Some(o) && Due(a, i, 1)
    ensures Served(a, t.post, i, o, false)
  {
    TickSteady(a, t);
    if !Shorter(a, t.pre, o) {
      StillDue(a, t.pre, i, o);
      TickServes(t, i, o, t.pre.queue.cursor % t.pre.queue.len, t.pre.queue.len);
    }
  }

  lemma {:induction false} RowServes(ts: seq<Turn>, i: nat, o: nat, n: nat)
    requires InARow(ts) && n < |ts| && AllQueuedDead(ts[0].pre)
    requires i < Q_MAX && ts[0].pre.queue.ents[i] == Some(o) && Due(ts[0].pre, i, 1)
    ensures Served(ts[0].pre, ts[n].pre, i, o, n == 0) && Served(ts[0].pre, ts[n].post, i, o, false)
    decreases n
  {
    if n == 0 {
    } else {
      RowServes(ts, i, o, n - 1);
      assert ts[n].pre == ts[n - 1].post;
    }
    ServedStep(ts[0].pre, ts[n], i, o, n == 0);
  }

  /** With nothing in between, as many ticks as the queue is long clear edges of every object that is due at first. */
  lemma TicksInARowAreFair(ts: seq<Turn>, i: nat, o: nat)
    requires InARow(ts) && ts != [] && AllQueuedDead(ts[0].pre) && |ts| >= ts[0].pre.queue.len
    requires i < Q_MAX && ts[0].pre.queue.ents[i] == Some(o) && Due(ts[0].pre, i, 1)
    ensures Shorter(ts[0].pre, ts[|ts| - 1].post, o)
  {
    var a, cap := ts[0].pre, ts[0].pre.queue.len;
    RowServes(ts, i, o, |ts| - 1);
    if !Shorter(a, ts[|ts| - 1].post, o) {
      forall k | 0 <= k < |ts|
        ensures Steady(a, ts[k].pre) && ts[k].pre.caps.chains[o] == a.caps.chains[o] && Due(ts[k].pre, i, 1)
        ensures k > 0 ==> ts[k].pre.queue.cursor < ts[k].pre.queue.len
        ensures !Shorter(ts[k].pre, ts[k].post, o)
      {
        NeverShorter(ts, i, o, k, |ts| - 1);
      }
      TicksAreFair(ts, i, o, cap);
    }
  }

  /** In a row of ticks that leaves the list as long as it was, no tick shortens it and the entry stays due. */
  lemma NeverShorter(ts: seq<Turn>, i: nat, o: nat, k: nat, last: nat)
    requires InARow(ts) && k <= last < |ts| && AllQueuedDead(ts[0].pre)
    requires i < Q_MAX && ts[0].pre.queue.ents[i] == Some(o) && Due(ts[0].pre, i, 1)
    requires !Shorter(ts[0].pre, ts[last].post, o)
    ensures Steady(ts[0].pre, ts[k].pre) && ts[k].pre.caps.chains[o] == ts[0].pre.caps.chains[o] && Due(ts[k].pre, i, 1)
    ensures k > 0 ==> ts[k].pre.queue.cursor < ts[k].pre.queue.len
    ensures !Shorter(ts[k].pre, ts[k].post, o)
  {
    RowServes(ts, i, o, k);
    RowShrinks(ts, o, k, last);
    StillDue(ts[0].pre, ts[k].pre, i, o);
  }

  lemma {:induction false} RowShrinks(ts: seq<Turn>, o: nat, k: nat, last: nat)
    requires InARow(ts) && k <= last < |ts| && o < |ts[k].pre.caps.chains|
    ensures o < |ts[k].post.caps.chains| == |ts[k].pre.caps.chains| == |ts[last].post.caps.chains|
    ensures |ts[last].post.caps.chains[o]| <= |ts[k].post.caps.chains[o]| <= |ts[k].pre.caps.chains[o]|
    decreases last - k
  {
    assert Improves(ts[k].pre, ts[k].post, ts[k].cleared);
    if k == last {
    } else {
      assert ts[k + 1].pre == ts[k + 1 - 1].post;
      RowShrinks(ts, o, k + 1, last);
    }
  }

  // ---- Draining.

  /** A tick that finds the locks free and no work lost, and clears something if anything is due. */
  ghost predicate FreeTurn(t: Turn) {
    && Inv(t.pre.caps) && AllLocksFree(t.pre.caps) && Lost(t.pre) == {} && 1 <= t.max <= 0x3fff_fffd
    && Improves(t.pre, t.post, t.cleared) && (AnyDue(t.pre, t.max) ==> t.cleared >= 1)
  }

  lemma FreeTurnProgress(t: Turn)
    requires FreeTurn(t)
    ensures Drained(t.pre.caps) || t.post.caps.poolUsed < t.pre.caps.poolUsed
  {
    if !AnyDue(t.pre, t.max) {
      NothingLeft(t.pre, t.max);
    }
  }

  lemma {:induction false} FreeTurnsShrink(ts: seq<Turn>, n: nat)
    requires (forall k :: 0 <= k < |ts| ==> FreeTurn(ts[k]) && !Drained(ts[k].pre.caps)) && n < |ts|
    requires forall k :: 0 < k < |ts| ==> ts[k].pre.caps.poolUsed <= ts[k - 1].post.caps.poolUsed
    ensures ts[n].post.caps.poolUsed + n < ts[0].pre.caps.poolUsed
    decreases n
  {
    FreeTurnProgress(ts[n]);
    if n == 0 {
    } else {
      FreeTurnsShrink(ts, n - 1);
      assert ts[n].pre.caps.poolUsed <= ts[n - 1].post.caps.poolUsed;
    }
  }

  /**
   Ticks that find the locks free, one more of them than there are edges in use, meet a system whose dead objects
   have no edge left, whatever happens between them that wires no edge and loses no work: locks taken and released,
   ticks that found locks held, revokes that found room.
   */
  lemma FreeTicksDrain(ts: seq<Turn>)
    requires ts != [] && (forall k :: 0 <= k < |ts| ==> FreeTurn(ts[k])) && |ts| > ts[0].pre.caps.poolUsed
    requires forall k :: 0 < k < |ts| ==> ts[k].pre.caps.poolUsed <= ts[k - 1].post.caps.poolUsed
    ensures exists k :: 0 <= k < |ts| && Drained(ts[k].pre.caps)
  {
    if forall k :: 0 <= k < |ts| ==> !Drained(ts[k].pre.caps) {
      FreeTurnsShrink(ts, |ts| - 1);
    }
  }
}
