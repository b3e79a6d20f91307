/**
 What a caller of revoke and reclaim sees: which answer stands for what, what happens to the header, and where the
 object goes in the queue of 64 entries.
 */
module RevokeAnswers {
  import opened Words
  import opened CapState
  import opened CapOps
  import opened CapInvariant
  import opened RevokeQueue

  /** The object is dead under the next generation; nothing else about any object, and no slot, changed. */
  ghost predicate Dies(s: State, t: State, o: nat) {
    && o < |s.objs| && t == s.(objs := t.objs) && |t.objs| == |s.objs|
    && (forall x :: 0 <= x < |s.objs| && x != o ==> t.objs[x] == s.objs[x])
    && t.objs[o].life == Dead && t.objs[o].slotsLeft == s.objs[o].slotsLeft
    && t.objs[o].gen == if s.objs[o].gen >= 0xffff_ffff then 0 else s.objs[o].gen + 1
  }

  /** The object takes the lowest free entry, and the published length covers it. */
  ghost predicate Joins(q: Queue, r: Queue, o: nat, i: nat) {
    && i < |q.ents| == |r.ents| && q.ents[i].None? && (forall j :: 0 <= j < i ==> q.ents[j].Some?)
    && (forall j :: 0 <= j < |q.ents| ==> r.ents[j] == if j == i then Some(o) else q.ents[j])
    && r.cursor == q.cursor && r.len == if i < q.len then q.len else i + 1
  }

  ghost predicate InQueue(q: Queue, o: nat) {
    exists i :: 0 <= i < |q.ents| && q.ents[i] == Some(o)
  }

  /** Every answer of a revoke, and what it left behind. */
  lemma BeginAnswers(sys: Sys, o: nat)
    requires QueueOk(sys.queue)
    ensures var r := Begin(sys, o);
            && (o >= |sys.caps.objs| ==> r == (sys, ErrInval))
            && (o < |sys.caps.objs| && sys.caps.objs[o].life != Live ==> r == (sys, ErrDead))
            && (o < |sys.caps.objs| && sys.caps.objs[o].life == Live ==>
                  && Dies(sys.caps, r.0.caps, o)
                  && (InQueue(sys.queue, o) ==> r.1 == Ok && r.0.queue == sys.queue)
                  && (!InQueue(sys.queue, o) ==>
                        if forall i :: 0 <= i < 64 ==> sys.queue.ents[i].Some?
                        then r.1 == ErrAgain && r.0.queue == sys.queue
                        else r.1 == Ok && exists i: nat :: Joins(sys.queue, r.0.queue, o, i)))
  {
    if o < |sys.caps.objs| && sys.caps.objs[o].life == Live && !InQueue(sys.queue, o) {
      var i := FirstInactive(sys.queue.ents, 0);
      if i < |sys.queue.ents| {
        assert Joins(sys.queue, Begin(sys, o).0.queue, o, i);
      }
    }
  }

  /** A header may be freed exactly when the object is dead, nothing names it, and no edge, reference or pin is left. */
  lemma ReclaimAnswers(s: State, o: nat, refs: nat, pins: nat)
    requires Inv(s)
    ensures ReclaimReady(s, o, refs, pins) <==>
            && o < |s.objs| && s.objs[o].life == Dead && refs == 0 && pins == 0
            && (forall l :: !Names(s.cnodes, l, o)) && |s.chains[o]| == 0
  {
    if o < |s.objs| {
      var named := NamedSet(s.cnodes, o);
      assert s.objs[o].slotsLeft == |named|;
      if forall l :: !Names(s.cnodes, l, o) {
        assert named == {};
      } else {
        var l :| Names(s.cnodes, l, o);
        assert l in named;
      }
    }
  }

  /** Reclaiming takes every entry of the object off the queue, and the published length ends at one in use. */
  lemma PurgeAnswers(q: Queue, o: nat)
    requires QueueOk(q)
    ensures var r := Purge(q, o);
            && |r.ents| == |q.ents| && r.cursor == q.cursor
            && (forall i :: 0 <= i < |q.ents| ==> r.ents[i] == if q.ents[i] == Some(o) then None else q.ents[i])
            && (if InQueue(q, o) then r.len <= q.len && (r.len == 0 || r.ents[r.len - 1].Some?) else r.len == q.len)
  {
    PurgeOk(q, o);
  }
}
