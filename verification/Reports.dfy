/** Delivery reports applied in batches (internal/dlr/apply.go). */
module Reports {
  import opened Tables
  import opened Folds
  import opened Billing
  import Sorting

  /** `status` is Delivered or Undelivered; the callback handler refuses any other. */
  datatype Report = Report(message: Id, provider: string, providerRef: string, status: Status)

  datatype Label = Applied | Duplicate | IgnoredTerminal | Unknown

  predicate WellFormed(r: Report) { r.status.Delivered? || r.status.Undelivered? }

  predicate Movable(messages: map<Id, Message>, id: Id)
  {
    id in messages && (messages[id].status.Accepted? || messages[id].status.Sent?)
  }

  function ReportedMessage(m: Message, now: Time, r: Report): Message
  {
    m.(status := r.status,
       completedAt := Some(now),
       provider := Coalesce(m.provider, Some(r.provider)),
       providerRef := Coalesce(m.providerRef, Some(r.providerRef)),
       updatedAt := now)
  }

  /** One report on its own: the message's new row. */
  function ReportOne(ms: map<Id, Message>, now: Time, r: Report): map<Id, Message>
  {
    if Movable(ms, r.message) then ms[r.message := ReportedMessage(ms[r.message], now, r)] else ms
  }

  /** One report on its own: its label. */
  function LabelOne(ms: map<Id, Message>, r: Report): Label
  {
    if r.message !in ms then Unknown
    else if Movable(ms, r.message) then Applied
    else if ms[r.message].status == r.status then Duplicate
    else IgnoredTerminal
  }

  function Reporting(now: Time): (map<Id, Message>, Report) -> map<Id, Message>
  {
    (ms: map<Id, Message>, r: Report) => ReportOne(ms, now, r)
  }

  /** Reports applied one at a time, in order. */
  function ReportAll(ms: map<Id, Message>, now: Time, rs: seq<Report>): map<Id, Message>
  {
    Fold(Reporting(now), ms, rs)
  }

  /** The label of report i when the reports are applied one at a time. */
  function LabelInTurn(ms: map<Id, Message>, now: Time, rs: seq<Report>, i: nat): Label
    requires i < |rs|
  {
    LabelOne(ReportAll(ms, now, rs[..i]), rs[i])
  }

  // ---------------------------------------------------------------------------
  // The first report of a message decides it

  predicate Mentioned(rs: seq<Report>, id: Id) { exists i :: 0 <= i < |rs| && rs[i].message == id }

  function First(rs: seq<Report>, id: Id): (f: nat)
    requires Mentioned(rs, id)
    ensures f < |rs| && rs[f].message == id
    ensures forall j | 0 <= j < f :: rs[j].message != id
  {
    if rs[0].message == id then 0 else First(rs[1..], id) + 1
  }

  lemma FirstOfPrefix(rs: seq<Report>, k: nat, id: Id)
    requires k <= |rs| && Mentioned(rs[..k], id)
    ensures Mentioned(rs, id) && First(rs[..k], id) == First(rs, id)
  {
    var i :| 0 <= i < |rs[..k]| && rs[..k][i].message == id;
    assert rs[i].message == id;
    var a, b := First(rs[..k], id), First(rs, id);
    assert rs[..k][a] == rs[a];
    assert b < k ==> rs[..k][b] == rs[b];
  }

  lemma {:induction false} ReportAllAt(ms: map<Id, Message>, now: Time, rs: seq<Report>, id: Id)
    requires forall r | r in rs :: WellFormed(r)
    ensures Lookup(ReportAll(ms, now, rs), id) ==
            if Movable(ms, id) && Mentioned(rs, id) then Some(ReportedMessage(ms[id], now, rs[First(rs, id)]))
            else Lookup(ms, id)
  {
    if rs != [] {
      var n := |rs| - 1;
      var init, r := rs[..n], rs[n];
      ReportAllAt(ms, now, init, id);
      if Mentioned(init, id) {
        FirstOfPrefix(rs, n, id);
        assert WellFormed(rs[First(rs, id)]);
      } else {
        assert forall j | 0 <= j < n :: init[j] == rs[j];
      }
    }
  }

  // ---------------------------------------------------------------------------
  // A batch

  /** Report i repeats a report that this batch has already applied. */
  predicate Repeats(ms: map<Id, Message>, rs: seq<Report>, i: nat)
    requires i < |rs|
  {
    Movable(ms, rs[i].message) && Mentioned(rs[..i], rs[i].message)
  }

  /** The label a batch gives: as one at a time, except that a repetition is a duplicate even if it disagrees. */
  function LabelInBatch(ms: map<Id, Message>, now: Time, rs: seq<Report>, i: nat): Label
    requires i < |rs|
  {
    if Repeats(ms, rs, i) then Duplicate else LabelInTurn(ms, now, rs, i)
  }

  /** What applying the reports in turn would answer, in terms of the tables before the batch. */
  lemma LabelInTurnIs(ms: map<Id, Message>, now: Time, rs: seq<Report>, i: nat)
    requires i < |rs| && forall r | r in rs :: WellFormed(r)
    ensures LabelInTurn(ms, now, rs, i) ==
            if rs[i].message !in ms then Unknown
            else if !Movable(ms, rs[i].message) then
              (if ms[rs[i].message].status == rs[i].status then Duplicate else IgnoredTerminal)
            else if !Mentioned(rs[..i], rs[i].message) then Applied
            else if rs[First(rs, rs[i].message)].status == rs[i].status then Duplicate
            else IgnoredTerminal
  {
    var id := rs[i].message;
    ReportAllAt(ms, now, rs[..i], id);
    assert Lookup(ReportAll(ms, now, rs[..i]), id).None? <==> id !in ReportAll(ms, now, rs[..i]);
    if Mentioned(rs[..i], id) {
      FirstOfPrefix(rs, i, id);
      assert rs[..i][First(rs, id)] == rs[First(rs, id)];
      assert WellFormed(rs[First(rs, id)]);
    }
  }

  /**
   Exactly when batching changes a label: the message was applied in this batch
   by an earlier report that says otherwise. The batch then answers Duplicate
   where one at a time would answer IgnoredTerminal.
   */
  lemma BatchLabelDiffers(ms: map<Id, Message>, now: Time, rs: seq<Report>, i: nat)
    requires i < |rs| && forall r | r in rs :: WellFormed(r)
    ensures LabelInBatch(ms, now, rs, i) != LabelInTurn(ms, now, rs, i) <==>
            Movable(ms, rs[i].message) && exists j :: 0 <= j < i && rs[j].message == rs[i].message
                                                     && rs[First(rs, rs[i].message)].status != rs[i].status
    ensures LabelInBatch(ms, now, rs, i) != LabelInTurn(ms, now, rs, i) ==>
              LabelInBatch(ms, now, rs, i) == Duplicate && LabelInTurn(ms, now, rs, i) == IgnoredTerminal
  {
    LabelInTurnIs(ms, now, rs, i);
    if j :| 0 <= j < i && rs[j].message == rs[i].message {
      assert rs[..i][j].message == rs[i].message;
    }
    if Mentioned(rs[..i], rs[i].message) {
      var j :| 0 <= j < |rs[..i]| && rs[..i][j].message == rs[i].message;
      assert rs[j].message == rs[i].message;
    }
  }

  /** Every changed message has exactly one Applied report, its first; every Applied report changed its message. */
  lemma OneAppliedPerChange(ms: map<Id, Message>, now: Time, rs: seq<Report>, i: nat)
    requires i < |rs| && forall r | r in rs :: WellFormed(r)
    ensures LabelInBatch(ms, now, rs, i) == Applied <==>
            Movable(ms, rs[i].message) && i == First(rs, rs[i].message)
    ensures LabelInBatch(ms, now, rs, i) == Applied ==>
              Lookup(ReportAll(ms, now, rs), rs[i].message) == Some(ReportedMessage(ms[rs[i].message], now, rs[i]))
  {
    var id := rs[i].message;
    LabelInTurnIs(ms, now, rs, i);
    ReportAllAt(ms, now, rs, id);
    if Mentioned(rs[..i], id) {
      FirstOfPrefix(rs, i, id);
    } else {
      assert forall j | 0 <= j < i :: rs[..i][j] == rs[j];
    }
  }

  /** A message is changed by the batch iff some report of it is labelled Applied. */
  lemma ChangedIffApplied(ms: map<Id, Message>, now: Time, rs: seq<Report>, id: Id)
    requires forall r | r in rs :: WellFormed(r)
    ensures Lookup(ReportAll(ms, now, rs), id) != Lookup(ms, id) <==>
            exists i :: 0 <= i < |rs| && rs[i].message == id && LabelInBatch(ms, now, rs, i) == Applied
  {
    ReportAllAt(ms, now, rs, id);
    if Mentioned(rs, id) {
      var f := First(rs, id);
      OneAppliedPerChange(ms, now, rs, f);
      assert WellFormed(rs[f]);
    }
    forall i | 0 <= i < |rs| && rs[i].message == id && LabelInBatch(ms, now, rs, i) == Applied
      ensures Lookup(ReportAll(ms, now, rs), id) != Lookup(ms, id)
    {
      OneAppliedPerChange(ms, now, rs, i);
      assert WellFormed(rs[i]);
    }
  }

  // ---------------------------------------------------------------------------
  // The transaction

  function MessageOf(r: Report): Id { r.message }

  /** `unique` holds the first report of every message that `rs` mentions, in any order. */
  ghost predicate Firsts(rs: seq<Report>, unique: seq<Report>)
  {
    && DistinctBy(MessageOf, unique)
    && (forall r | r in unique :: Mentioned(rs, r.message) && r == rs[First(rs, r.message)])
    && (forall id | Mentioned(rs, id) :: rs[First(rs, id)] in unique)
  }

  lemma FirstsDecide(ms: map<Id, Message>, now: Time, rs: seq<Report>, unique: seq<Report>)
    requires (forall r | r in rs :: WellFormed(r)) && Firsts(rs, unique)
    ensures ReportAll(ms, now, unique) == ReportAll(ms, now, rs)
  {
    forall r | r in unique ensures WellFormed(r) {
      assert rs[First(rs, r.message)] in rs;
    }
    forall id ensures Lookup(ReportAll(ms, now, unique), id) == Lookup(ReportAll(ms, now, rs), id) {
      ReportAllAt(ms, now, unique, id);
      ReportAllAt(ms, now, rs, id);
      if Mentioned(rs, id) {
        var k :| 0 <= k < |unique| && unique[k] == rs[First(rs, id)];
        assert unique[k].message == id;
        assert unique[First(unique, id)] in unique;
      } else {
        assert forall k | 0 <= k < |unique| :: unique[k] in unique;
      }
    }
    SameLookups(ReportAll(ms, now, unique), ReportAll(ms, now, rs));
  }

  method FirstOfEach(reports: seq<Report>) returns (first: map<Id, nat>, unique: seq<Report>)
    ensures forall id :: id in first <==> Mentioned(reports, id)
    ensures forall id | id in first :: first[id] == First(reports, id)
    ensures Firsts(reports, unique)
  {
    first, unique := map[], [];
    for i := 0 to |reports|
      invariant FirstIndices(reports[..i], first) && Firsts(reports[..i], unique)
    {
      IndicesNext(reports, i, first);
      FirstsNext(reports, i, unique);
      if reports[i].message !in first {
        first := first[reports[i].message := i];
        unique := unique + [reports[i]];
      }
    }
    assert reports[..|reports|] == reports;
  }

  /** The first index of every message mentioned. */
  ghost predicate FirstIndices(rs: seq<Report>, first: map<Id, nat>)
  {
    (forall id :: id in first <==> Mentioned(rs, id)) && (forall id | id in first :: first[id] == First(rs, id))
  }

  lemma IndicesNext(rs: seq<Report>, i: nat, first: map<Id, nat>)
    requires i < |rs| && FirstIndices(rs[..i], first)
    ensures FirstIndices(rs[..i + 1], if rs[i].message in first then first else first[rs[i].message := i])
  {
    MentionedNext(rs, i);
  }

  lemma FirstsNext(rs: seq<Report>, i: nat, unique: seq<Report>)
    requires i < |rs| && Firsts(rs[..i], unique)
    ensures Firsts(rs[..i + 1], if Mentioned(rs[..i], rs[i].message) then unique else unique + [rs[i]])
  {
    var before, upTo := rs[..i], rs[..i + 1];
    MentionedNext(rs, i);
    if Mentioned(before, rs[i].message) {
      forall r | r in unique ensures Mentioned(upTo, r.message) && r == upTo[First(upTo, r.message)] {
        assert Mentioned(before, r.message);
      }
      forall id | Mentioned(upTo, id) ensures upTo[First(upTo, id)] in unique {
        assert Mentioned(before, id);
      }
    } else {
      NewFirst(before, upTo, rs[i], unique);
    }
  }

  lemma NewFirst(before: seq<Report>, upTo: seq<Report>, r: Report, unique: seq<Report>)
    requires Firsts(before, unique) && !Mentioned(before, r.message)
    requires forall id :: Mentioned(upTo, id) <==> Mentioned(before, id) || id == r.message
    requires forall id | Mentioned(before, id) :: upTo[First(upTo, id)] == before[First(before, id)]
    requires upTo[First(upTo, r.message)] == r
    ensures Firsts(upTo, unique + [r])
  {
    var all := unique + [r];
    forall x, y | 0 <= x < y < |all| ensures MessageOf(all[x]) != MessageOf(all[y]) {
      assert unique[x] in unique;
    }
    forall q | q in all ensures Mentioned(upTo, q.message) && q == upTo[First(upTo, q.message)] {
      if q in unique {
        assert Mentioned(before, q.message);
      }
    }
    forall id | Mentioned(upTo, id) ensures upTo[First(upTo, id)] in all {
      if id != r.message {
        assert before[First(before, id)] in unique;
      }
    }
  }

  lemma MentionedNext(rs: seq<Report>, i: nat)
    requires i < |rs|
    ensures forall id :: Mentioned(rs[..i + 1], id) <==> Mentioned(rs[..i], id) || id == rs[i].message
    ensures forall id | Mentioned(rs[..i], id) ::
              First(rs[..i + 1], id) == First(rs[..i], id) && rs[..i + 1][First(rs[..i], id)] == rs[..i][First(rs[..i], id)]
    ensures !Mentioned(rs[..i], rs[i].message) ==> First(rs[..i + 1], rs[i].message) == i
  {
    assert rs[..i + 1][..i] == rs[..i];
    assert rs[..i + 1][i] == rs[i];
    forall id ensures Mentioned(rs[..i + 1], id) <==> Mentioned(rs[..i], id) || id == rs[i].message {
      if Mentioned(rs[..i], id) {
        FirstOfPrefix(rs[..i + 1], i, id);
      }
      if Mentioned(rs[..i + 1], id) && id != rs[i].message {
        var k :| 0 <= k < |rs[..i + 1]| && rs[..i + 1][k].message == id;
        assert rs[..i][k].message == id;
      }
    }
    forall id | Mentioned(rs[..i], id)
      ensures First(rs[..i + 1], id) == First(rs[..i], id)
      ensures rs[..i + 1][First(rs[..i], id)] == rs[..i][First(rs[..i], id)]
    {
      FirstOfPrefix(rs[..i + 1], i, id);
    }
    if !Mentioned(rs[..i], rs[i].message) {
      assert forall k | 0 <= k < i :: rs[..i][k] == rs[..i + 1][k];
    }
  }

  /** The UPDATE: moves the messages still accepted or sent, and returns their IDs. */
  method UpdateReported(tx: Session, unique: seq<Report>) returns (applied: set<Id>)
    requires DistinctBy(MessageOf, unique)
    modifies tx
    ensures tx.db == old(tx.db).(messages := ReportAll(old(tx.db).messages, tx.now, unique))
    ensures forall id :: id in applied <==> Mentioned(unique, id) && Movable(old(tx.db).messages, id)
  {
    var before: map<Id, Message> := tx.db.messages;
    applied := {};
    for i := 0 to |unique|
      invariant tx.db == old(tx.db).(messages := ReportAll(before, tx.now, unique[..i]))
      invariant forall id :: id in applied <==> Mentioned(unique[..i], id) && Movable(before, id)
      invariant forall id: Id | !Mentioned(unique[..i], id) :: Lookup(tx.db.messages, id) == Lookup(before, id)
    {
      var r := unique[i];
      MentionedNext(unique, i);
      FoldSnoc(Reporting(tx.now), before, unique, i);
      NotYetMentioned(unique, i);
      assert Lookup(tx.db.messages, r.message) == Lookup(before, r.message);
      if Movable(before, r.message) {
        tx.db := tx.db.(messages := tx.db.messages[r.message := ReportedMessage(before[r.message], tx.now, r)]);
        applied := applied + {r.message};
      }
    }
    assert unique[..|unique|] == unique;
  }

  lemma NotYetMentioned(unique: seq<Report>, i: nat)
    requires DistinctBy(MessageOf, unique) && i < |unique|
    ensures !Mentioned(unique[..i], unique[i].message)
  {
    forall k | 0 <= k < |unique[..i]| ensures unique[..i][k].message != unique[i].message {
      assert MessageOf(unique[k]) != MessageOf(unique[i]);
    }
  }

  /**
   Applies a batch of reports in one transaction and answers each report. The
   messages end as if the reports had been applied one at a time, in order; no
   other table changes. BatchLabelDiffers says when an answer differs from the
   one-at-a-time answer.
   */
  method Apply(tx: Session, reports: seq<Report>) returns (out: seq<Label>)
    requires forall r | r in reports :: r.status.Delivered? || r.status.Undelivered?
    modifies tx
    ensures tx.db == old(tx.db).(messages := ReportAll(old(tx.db).messages, tx.now, reports))
    ensures |out| == |reports|
    ensures forall i | 0 <= i < |out| :: out[i] == LabelInBatch(old(tx.db).messages, tx.now, reports, i)
  {
    ghost var before := tx.db.messages;
    var first, firsts := FirstOfEach(reports);
    var unique := Sorting.SortById(MessageOf, firsts);
    DistinctPermutation(MessageOf, firsts, unique);
    SameElements(firsts, unique);
    var applied := UpdateReported(tx, unique);
    FirstsDecide(before, tx.now, reports, unique);
    SameMentions(reports, unique);
    var current := Classify(tx, unique, applied);
    out := Answers(before, tx.now, reports, first, applied, current, tx.db.messages);
  }

  method Answers(ghost before: map<Id, Message>, ghost now: Time, reports: seq<Report>, first: map<Id, nat>,
                 applied: set<Id>, current: map<Id, Status>, ghost after: map<Id, Message>)
    returns (out: seq<Label>)
    requires forall r | r in reports :: WellFormed(r)
    requires after == ReportAll(before, now, reports)
    requires forall id :: id in first <==> Mentioned(reports, id)
    requires forall id | id in first :: first[id] == First(reports, id)
    requires forall id :: id in applied <==> Mentioned(reports, id) && Movable(before, id)
    requires forall id :: id in current <==> Mentioned(reports, id) && id !in applied && id in after
    requires forall id | id in current :: current[id] == after[id].status
    ensures |out| == |reports|
    ensures forall i | 0 <= i < |out| :: out[i] == LabelInBatch(before, now, reports, i)
  {
    out := [];
    for i := 0 to |reports|
      invariant |out| == i
      invariant forall k | 0 <= k < i :: out[k] == LabelInBatch(before, now, reports, k)
    {
      LabelFromMaps(before, now, reports, i);
      var r := reports[i];
      var answer := if r.message in applied && first[r.message] == i then Applied
                    else if r.message in applied then Duplicate
                    else if r.message !in current then Unknown
                    else if current[r.message] == r.status then Duplicate
                    else IgnoredTerminal;
      out := out + [answer];
    }
  }

  lemma SameMentions(rs: seq<Report>, unique: seq<Report>)
    requires Firsts(rs, unique)
    ensures forall id :: Mentioned(unique, id) <==> Mentioned(rs, id)
  {
    forall id ensures Mentioned(unique, id) <==> Mentioned(rs, id) {
      if Mentioned(rs, id) {
        var k :| 0 <= k < |unique| && unique[k] == rs[First(rs, id)];
        assert unique[k].message == id;
      }
      if Mentioned(unique, id) {
        assert unique[First(unique, id)] in unique;
      }
    }
  }

  /** The statuses of the reported messages that did not move. */
  method Classify(tx: Session, unique: seq<Report>, applied: set<Id>) returns (current: map<Id, Status>)
    ensures forall id :: id in current <==> Mentioned(unique, id) && id !in applied && id in tx.db.messages
    ensures forall id | id in current :: current[id] == tx.db.messages[id].status
  {
    current := map[];
    for i := 0 to |unique|
      invariant forall id :: id in current <==> Mentioned(unique[..i], id) && id !in applied && id in tx.db.messages
      invariant forall id | id in current :: current[id] == tx.db.messages[id].status
    {
      MentionedNext(unique, i);
      var id := unique[i].message;
      if id !in applied && id in tx.db.messages {
        current := current[id := tx.db.messages[id].status];
      }
    }
    assert unique[..|unique|] == unique;
  }

  /** The label of report i, from what the transaction learned. */
  lemma LabelFromMaps(ms: map<Id, Message>, now: Time, rs: seq<Report>, i: nat)
    requires i < |rs| && forall r | r in rs :: WellFormed(r)
    ensures Mentioned(rs, rs[i].message)
    ensures !Movable(ms, rs[i].message) ==>
              Lookup(ReportAll(ms, now, rs), rs[i].message) == Lookup(ms, rs[i].message)
    ensures LabelInBatch(ms, now, rs, i) ==
            if Movable(ms, rs[i].message) then (if First(rs, rs[i].message) == i then Applied else Duplicate)
            else if rs[i].message !in ms then Unknown
            else if ms[rs[i].message].status == rs[i].status then Duplicate
            else IgnoredTerminal
  {
    LabelInTurnIs(ms, now, rs, i);
    ReportAllAt(ms, now, rs, rs[i].message);
    OneAppliedPerChange(ms, now, rs, i);
  }
}
