/** Which rows each background task changes, column by column, whatever rows it picks. */
module Sweeps {
  import opened Tables
  import opened Folds
  import opened Cells
  import opened Gateway

  /** No worker holds the row: it has no owner, or its lease has run out. */
  ghost predicate Free(s: Sys, id: Id)
  {
    id in s.db.queue && (s.db.queue[id].owner == None || s.db.queue[id].nextAttemptAt <= s.now)
  }

  ghost predicate StillWaiting(s: Sys, id: Id) { id in s.db.messages && s.db.messages[id].status == Accepted }

  // ---------------------------------------------------------------------------
  // Expiry

  /** What expiry leaves of a message, its row and its refund. */
  ghost predicate AfterExpiry(s: Sys, t: Sys, ids: seq<Id>, id: Id)
  {
    if id in ids && Free(s, id) && s.db.queue[id].expiresAt <= s.now && StillWaiting(s, id) then
      var m := s.db.messages[id];
      && Lookup(t.db.messages, id) ==
         Some(m.(status := Expired, reason := Some(TtlPassed), completedAt := Some(s.now), updatedAt := s.now,
                 slaBreached := m.slaBreached || m.service == Express))
      && id !in t.db.queue
      && Lookup(t.db.txs, RefundOf(id)) ==
         (if RefundOf(id) in s.db.txs then Lookup(s.db.txs, RefundOf(id)) else Some(Tx(m.customer, m.cost, s.now)))
    else CellOf(t.db, id) == CellOf(s.db, id)
  }

  /** Exactly the accepted messages past their time to live that no worker holds are expired and refunded. */
  lemma {:induction false} ExpiryEnds(cfg: Config, s: Sys, ids: seq<Id>, id: Id)
    ensures AfterExpiry(s, Next(cfg, s, Expire(ids)), ids, id)
  {
    if ids != [] {
      var init, x := ids[..|ids| - 1], ids[|ids| - 1];
      ExpiryEnds(cfg, s, init, id);
      ExpiryKeepsClock(s, init);
      assert ids == init + [x];
      ExpireAt(s, Fold(ExpireRow(), s, init), init, x, id);
    }
  }

  lemma {:induction false} ExpiryKeepsClock(s: Sys, ids: seq<Id>)
    ensures Fold(ExpireRow(), s, ids).now == s.now
  {
    if ids != [] {
      ExpiryKeepsClock(s, ids[..|ids| - 1]);
    }
  }

  lemma ExpireAt(s: Sys, t: Sys, ids: seq<Id>, x: Id, id: Id)
    requires AfterExpiry(s, t, ids, id) && t.now == s.now
    ensures AfterExpiry(s, ExpireRow()(t, x), ids + [x], id)
  {
    assert CellOf(t.db, id).row == Lookup(t.db.queue, id) && CellOf(t.db, id).msg == Lookup(t.db.messages, id);
    assert CellOf(s.db, id).row == Lookup(s.db.queue, id) && CellOf(s.db, id).msg == Lookup(s.db.messages, id);
    assert CellOf(t.db, id).refund == Lookup(t.db.txs, RefundOf(id));
  }

  // ---------------------------------------------------------------------------
  // SLA flags

  ghost predicate AfterFlagging(cfg: Config, s: Sys, t: Sys, ids: seq<Id>, id: Id)
  {
    Lookup(t.db.messages, id) ==
    if && id in ids && id in s.db.queue && s.db.queue[id].lane == ExpressLane && StillWaiting(s, id)
       && !s.db.messages[id].slaBreached && s.now - s.db.messages[id].acceptedAt > cfg.slaMs * MILLISECOND
    then Some(s.db.messages[id].(slaBreached := true, updatedAt := s.now))
    else Lookup(s.db.messages, id)
  }

  /** Exactly the waiting Express messages beyond the SLA that are not flagged yet are flagged, and nothing else changes. */
  lemma {:induction false} FlaggingMarks(cfg: Config, s: Sys, ids: seq<Id>)
    ensures var t := Next(cfg, s, FlagSLA(ids));
            t == s.(db := s.db.(messages := t.db.messages)) && forall id: Id :: AfterFlagging(cfg, s, t, ids, id)
  {
    if ids != [] {
      var init, x := ids[..|ids| - 1], ids[|ids| - 1];
      FlaggingMarks(cfg, s, init);
      var t := Fold(FlagRow(cfg), s, init);
      assert ids == init + [x];
      forall id: Id ensures AfterFlagging(cfg, s, FlagRow(cfg)(t, x), ids, id) {
        assert AfterFlagging(cfg, s, t, init, id);
      }
    }
  }

  // ---------------------------------------------------------------------------
  // Orphaned rows

  ghost predicate AfterRemoval(s: Sys, t: Sys, ids: seq<Id>, id: Id)
  {
    Lookup(t.db.queue, id) ==
    if id in ids && Free(s, id) && id in s.db.messages && s.db.messages[id].status != Accepted then None
    else Lookup(s.db.queue, id)
  }

  /** Exactly the rows of finished messages that no worker holds are removed, and nothing else changes. */
  lemma {:induction false} OrphansAreRemoved(cfg: Config, s: Sys, ids: seq<Id>)
    ensures var t := Next(cfg, s, RemoveOrphans(ids));
            t == s.(db := s.db.(queue := t.db.queue)) && forall id: Id :: AfterRemoval(s, t, ids, id)
  {
    if ids != [] {
      var init, x := ids[..|ids| - 1], ids[|ids| - 1];
      OrphansAreRemoved(cfg, s, init);
      var t := Fold(OrphanRow(), s, init);
      assert ids == init + [x];
      forall id: Id ensures AfterRemoval(s, OrphanRow()(t, x), ids, id) {
        assert AfterRemoval(s, t, init, id);
      }
    }
  }

  // ---------------------------------------------------------------------------
  // Removed lanes

  ghost predicate AfterReassigning(s: Sys, t: Sys, lanes: nat, laneHash: Id -> nat, ids: seq<Id>, id: Id)
    requires lanes > 0
  {
    Lookup(t.db.queue, id) ==
    if && id in ids && id in s.db.queue && id in s.db.messages
       && s.db.queue[id].lane.NormalLane? && s.db.queue[id].lane.index >= lanes
    then Some(s.db.queue[id].(lane := NormalLane(laneHash(s.db.messages[id].customer) % lanes)))
    else Lookup(s.db.queue, id)
  }

  /** Exactly the rows in removed normal lanes move, each to the lane of its customer, and keep everything else. */
  lemma {:induction false} StrandedRowsMove(cfg: Config, s: Sys, lanes: nat, laneHash: Id -> nat, ids: seq<Id>)
    requires lanes > 0
    ensures var t := Next(cfg, s, ReassignLanes(lanes, laneHash, ids));
            && t == s.(db := s.db.(queue := t.db.queue))
            && forall id: Id :: AfterReassigning(s, t, lanes, laneHash, ids, id)
  {
    if ids != [] {
      var init, x := ids[..|ids| - 1], ids[|ids| - 1];
      StrandedRowsMove(cfg, s, lanes, laneHash, init);
      var t := Fold(ReassignRow(lanes, laneHash), s, init);
      assert ids == init + [x];
      forall id: Id ensures AfterReassigning(s, ReassignRow(lanes, laneHash)(t, x), lanes, laneHash, ids, id) {
        assert AfterReassigning(s, t, lanes, laneHash, init, id);
      }
    }
  }
}
