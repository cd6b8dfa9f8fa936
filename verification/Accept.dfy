/** Accepting messages: the accept transaction and idempotent replay (internal/message/accept.go). */
module Accepting {
  import opened Tables
  import opened Folds
  import opened Billing

  datatype AcceptConfig = AcceptConfig(normalLanes: nat, laneHash: Id -> nat, normalTtlMs: int, expressTtlMs: int)

  /** A validated and priced request; an empty `ref` means none. */
  datatype Item = Item(to: string, text: string, service: Class, ref: string,
                       encoding: Encoding, segments: int, cost: int)

  /** An item with the ID drawn for its message. */
  datatype Placed = Placed(id: Id, item: Item)

  function LaneFor(service: Class, c: Id, normalLanes: nat, laneHash: Id -> nat): Lane
    requires normalLanes > 0
  {
    if service.Express? then ExpressLane else NormalLane(laneHash(c) % normalLanes)
  }

  function Ttl(cfg: AcceptConfig, service: Class): int
  {
    (if service.Express? then cfg.expressTtlMs else cfg.normalTtlMs) * MILLISECOND
  }

  function NewMessage(cfg: AcceptConfig, c: Id, now: Time, it: Item): Message
  {
    Message(c, it.service, it.to, it.text, it.encoding, it.segments, it.cost, Accepted, 0, None, None, None, None,
            false, NullString(it.ref), now, now + Ttl(cfg, it.service), None, None, now)
  }

  function NewRow(cfg: AcceptConfig, c: Id, now: Time, it: Item): QueueRow
    requires cfg.normalLanes > 0
  {
    QueueRow(LaneFor(it.service, c, cfg.normalLanes, cfg.laneHash), now, None, 0, now + Ttl(cfg, it.service))
  }

  /** One message accepted on its own: recorded, debited, enqueued and paid for. */
  function AcceptOne(db: Db, cfg: AcceptConfig, now: Time, c: Id, p: Placed): Db
    requires cfg.normalLanes > 0
  {
    Db(AddToBalance(db.customers, c, -p.item.cost, now),
       db.messages[p.id := NewMessage(cfg, c, now, p.item)],
       db.txs[DebitOf(p.id) := Tx(c, -p.item.cost, now)],
       db.queue[p.id := NewRow(cfg, c, now, p.item)])
  }

  /** Messages accepted one at a time. */
  function AcceptAll(db: Db, cfg: AcceptConfig, now: Time, c: Id, ps: seq<Placed>): Db
    requires cfg.normalLanes > 0
  {
    if ps == [] then db else AcceptOne(AcceptAll(db, cfg, now, c, ps[..|ps| - 1]), cfg, now, c, ps[|ps| - 1])
  }

  function TotalCost(ps: seq<Placed>): int
  {
    if ps == [] then 0 else TotalCost(ps[..|ps| - 1]) + ps[|ps| - 1].item.cost
  }

  // ---------------------------------------------------------------------------
  // What a submission may rely on

  function IdOf(p: Placed): Id { p.id }

  /** No two items of a request share a client_ref; validation refuses the request otherwise. */
  predicate DistinctRefs(ps: seq<Placed>)
  {
    forall i, j | 0 <= i < j < |ps| && ps[i].item.ref != "" :: ps[i].item.ref != ps[j].item.ref
  }

  predicate Priced(it: Item) { it.cost > 0 && it.segments > 0 }

  /** The IDs are newly drawn. */
  ghost predicate Fresh(db: Db, ps: seq<Placed>)
  {
    && DistinctBy(IdOf, ps)
    && forall p | p in ps :: p.id !in db.messages && p.id !in db.queue && DebitOf(p.id) !in db.txs
  }

  /** The customer already has a message with this client_ref. */
  ghost predicate RefUsed(db: Db, c: Id, ref: string)
  {
    exists id :: id in db.messages && db.messages[id].customer == c && db.messages[id].clientRef == Some(ref)
  }

  ghost predicate SomeRefUsed(db: Db, c: Id, ps: seq<Placed>)
  {
    exists p :: p in ps && p.item.ref != "" && RefUsed(db, c, p.item.ref)
  }

  datatype InsertResult = Inserted | ClientRefTaken | CustomerGone | InsufficientCredits

  ghost function InsertDecision(db: Db, c: Id, ps: seq<Placed>): InsertResult
  {
    if c !in db.customers then CustomerGone
    else if SomeRefUsed(db, c, ps) then ClientRefTaken
    else if db.customers[c].balance < TotalCost(ps) then InsufficientCredits
    else Inserted
  }

  /** The tables after the accept transaction: all items or none. */
  ghost function AfterInsert(db: Db, cfg: AcceptConfig, now: Time, c: Id, ps: seq<Placed>): Db
    requires cfg.normalLanes > 0
  {
    if InsertDecision(db, c, ps) == Inserted then AcceptAll(db, cfg, now, c, ps) else db
  }

  // ---------------------------------------------------------------------------
  // Statement by statement

  function MessagesOf(ms: map<Id, Message>, cfg: AcceptConfig, now: Time, c: Id, ps: seq<Placed>): map<Id, Message>
  {
    if ps == [] then ms
    else MessagesOf(ms, cfg, now, c, ps[..|ps| - 1])[ps[|ps| - 1].id := NewMessage(cfg, c, now, ps[|ps| - 1].item)]
  }

  function DebitsOf(txs: map<TxKey, Tx>, now: Time, c: Id, ps: seq<Placed>): map<TxKey, Tx>
  {
    if ps == [] then txs
    else DebitsOf(txs, now, c, ps[..|ps| - 1])[DebitOf(ps[|ps| - 1].id) := Tx(c, -ps[|ps| - 1].item.cost, now)]
  }

  function RowsOf(q: map<Id, QueueRow>, cfg: AcceptConfig, now: Time, c: Id, ps: seq<Placed>): map<Id, QueueRow>
    requires cfg.normalLanes > 0
  {
    if ps == [] then q
    else RowsOf(q, cfg, now, c, ps[..|ps| - 1])[ps[|ps| - 1].id := NewRow(cfg, c, now, ps[|ps| - 1].item)]
  }

  /** Accepting one message at a time is the same as one statement per table. */
  lemma {:induction false} AcceptedTableByTable(db: Db, cfg: AcceptConfig, now: Time, c: Id, ps: seq<Placed>)
    requires cfg.normalLanes > 0 && ps != [] && c in db.customers
    ensures AcceptAll(db, cfg, now, c, ps) ==
            Db(AddToBalance(db.customers, c, -TotalCost(ps), now), MessagesOf(db.messages, cfg, now, c, ps),
               DebitsOf(db.txs, now, c, ps), RowsOf(db.queue, cfg, now, c, ps))
  {
    var init := ps[..|ps| - 1];
    if init == [] {
      assert AcceptAll(db, cfg, now, c, init) == db;
    } else {
      AcceptedTableByTable(db, cfg, now, c, init);
    }
  }

  /** One row of INSERT INTO messages ... ON CONFLICT (customer_id, client_ref) DO NOTHING. */
  method InsertMessage(tx: Session, cfg: AcceptConfig, c: Id, p: Placed) returns (ok: bool)
    modifies tx
    ensures ok <==> p.item.ref == "" || !RefUsed(old(tx.db), c, p.item.ref)
    ensures tx.db == if ok then old(tx.db).(messages := old(tx.db).messages[p.id := NewMessage(cfg, c, tx.now, p.item)])
                     else old(tx.db)
  {
    ok := p.item.ref == "" || forall id | id in tx.db.messages ::
            tx.db.messages[id].customer != c || tx.db.messages[id].clientRef != Some(p.item.ref);
    if ok {
      tx.db := tx.db.(messages := tx.db.messages[p.id := NewMessage(cfg, c, tx.now, p.item)]);
    }
  }

  /** The whole INSERT; it returns how many rows it kept. */
  method InsertMessages(tx: Session, cfg: AcceptConfig, c: Id, ps: seq<Placed>) returns (inserted: nat)
    requires Fresh(tx.db, ps) && DistinctRefs(ps)
    modifies tx
    ensures inserted <= |ps|
    ensures inserted == |ps| <==> !SomeRefUsed(old(tx.db), c, ps)
    ensures inserted == |ps| ==>
              tx.db == old(tx.db).(messages := MessagesOf(old(tx.db).messages, cfg, tx.now, c, ps))
  {
    ghost var db0 := tx.db;
    inserted := 0;
    for i := 0 to |ps|
      invariant inserted <= i
      invariant inserted == i <==> !SomeRefUsed(db0, c, ps[..i])
      invariant inserted == i ==> tx.db == db0.(messages := MessagesOf(db0.messages, cfg, tx.now, c, ps[..i]))
      invariant RefsAfter(db0, tx.db, c, ps, i)
    {
      assert ps[..i + 1][..i] == ps[..i];
      RefUsedBetween(db0, tx.db, c, ps, i);
      assert ps[i].id !in db0.messages;
      var ok := InsertMessage(tx, cfg, c, ps[i]);
      if ok {
        inserted := inserted + 1;
      }
    }
    assert ps[..|ps|] == ps;
  }

  /** Every client_ref used now was used before or belongs to one of the first `n` items. */
  ghost predicate RefsAfter(db: Db, after: Db, c: Id, ps: seq<Placed>, n: nat)
    requires n <= |ps|
  {
    && (forall id | id in after.messages && after.messages[id].customer == c && after.messages[id].clientRef.Some? ::
          RefUsed(db, c, after.messages[id].clientRef.value) || OwnRef(ps, n, after.messages[id].clientRef.value))
    && (forall id | id in db.messages :: id in after.messages && after.messages[id] == db.messages[id])
  }

  ghost predicate OwnRef(ps: seq<Placed>, n: nat, ref: string)
    requires n <= |ps|
  {
    exists k :: 0 <= k < n && ps[k].item.ref == ref
  }

  lemma RefUsedBetween(db: Db, mid: Db, c: Id, ps: seq<Placed>, i: nat)
    requires i < |ps| && DistinctRefs(ps) && RefsAfter(db, mid, c, ps, i)
    ensures ps[i].item.ref != "" ==> (RefUsed(mid, c, ps[i].item.ref) <==> RefUsed(db, c, ps[i].item.ref))
    ensures SomeRefUsed(db, c, ps[..i + 1]) <==>
            SomeRefUsed(db, c, ps[..i]) || (ps[i].item.ref != "" && RefUsed(db, c, ps[i].item.ref))
  {
    var ref := ps[i].item.ref;
    if ref != "" && RefUsed(mid, c, ref) {
      assert !OwnRef(ps, i, ref);
    }
    assert ps[..i + 1] == ps[..i] + [ps[i]];
  }

  method RecordDebits(tx: Session, c: Id, ps: seq<Placed>)
    modifies tx
    ensures tx.db == old(tx.db).(txs := DebitsOf(old(tx.db).txs, tx.now, c, ps))
  {
    for i := 0 to |ps|
      invariant tx.db == old(tx.db).(txs := DebitsOf(old(tx.db).txs, tx.now, c, ps[..i]))
    {
      assert ps[..i + 1][..i] == ps[..i];
      tx.db := tx.db.(txs := tx.db.txs[DebitOf(ps[i].id) := Tx(c, -ps[i].item.cost, tx.now)]);
    }
    assert ps[..|ps|] == ps;
  }

  method Enqueue(tx: Session, cfg: AcceptConfig, c: Id, ps: seq<Placed>)
    requires cfg.normalLanes > 0
    modifies tx
    ensures tx.db == old(tx.db).(queue := RowsOf(old(tx.db).queue, cfg, tx.now, c, ps))
  {
    for i := 0 to |ps|
      invariant tx.db == old(tx.db).(queue := RowsOf(old(tx.db).queue, cfg, tx.now, c, ps[..i]))
    {
      assert ps[..i + 1][..i] == ps[..i];
      tx.db := tx.db.(queue := tx.db.queue[ps[i].id := NewRow(cfg, c, tx.now, ps[i].item)]);
    }
    assert ps[..|ps|] == ps;
  }

  method Price(ps: seq<Placed>) returns (total: int)
    ensures total == TotalCost(ps)
  {
    total := 0;
    for i := 0 to |ps|
      invariant total == TotalCost(ps[..i])
    {
      assert ps[..i + 1][..i] == ps[..i];
      total := total + ps[i].item.cost;
    }
    assert ps[..|ps|] == ps;
  }

  /** Every inserted message is there as its item describes it. */
  lemma {:induction false} MessagesOfAt(ms: map<Id, Message>, cfg: AcceptConfig, now: Time, c: Id, ps: seq<Placed>, i: nat)
    requires DistinctBy(IdOf, ps) && i < |ps|
    ensures Lookup(MessagesOf(ms, cfg, now, c, ps), ps[i].id) == Some(NewMessage(cfg, c, now, ps[i].item))
  {
    var n := |ps| - 1;
    if i < n {
      MessagesOfAt(ms, cfg, now, c, ps[..n], i);
      assert IdOf(ps[i]) != IdOf(ps[n]);
    }
  }

  /** The inserted rows, put back into the order of the request. */
  method InRequestOrder(inserted: map<Id, Message>, ps: seq<Placed>) returns (messages: seq<Message>)
    requires forall p | p in ps :: p.id in inserted
    ensures |messages| == |ps| && forall i | 0 <= i < |ps| :: messages[i] == inserted[ps[i].id]
  {
    messages := [];
    for i := 0 to |ps|
      invariant |messages| == i && forall j | 0 <= j < i :: messages[j] == inserted[ps[j].id]
    {
      assert ps[i] in ps;
      messages := messages + [inserted[ps[i].id]];
    }
  }

  /**
   The accept transaction: everything is recorded and paid for, or nothing
   changes. The caller gets the new messages in the order of its request and
   their total cost.
   */
  method Insert(tx: Session, cfg: AcceptConfig, c: Id, ps: seq<Placed>)
    returns (r: InsertResult, messages: seq<Message>, total: int)
    requires cfg.normalLanes > 0 && ps != [] && Fresh(tx.db, ps) && DistinctRefs(ps)
    modifies tx
    ensures r == InsertDecision(old(tx.db), c, ps)
    ensures tx.db == AfterInsert(old(tx.db), cfg, tx.now, c, ps)
    ensures total == TotalCost(ps)
    ensures r == Inserted ==> |messages| == |ps| && forall i | 0 <= i < |ps| ::
              messages[i] == NewMessage(cfg, c, tx.now, ps[i].item) && Lookup(tx.db.messages, ps[i].id) == Some(messages[i])
    ensures r != Inserted ==> messages == []
  {
    messages := [];
    total := Price(ps);
    r := InsertAll(tx, cfg, c, ps, total);
    if r == Inserted {
      forall i | 0 <= i < |ps|
        ensures Lookup(tx.db.messages, ps[i].id) == Some(NewMessage(cfg, c, tx.now, ps[i].item))
      {
        MessagesOfAt(old(tx.db).messages, cfg, tx.now, c, ps, i);
      }
      messages := InRequestOrder(tx.db.messages, ps);
    }
  }

  method InsertAll(tx: Session, cfg: AcceptConfig, c: Id, ps: seq<Placed>, total: int) returns (r: InsertResult)
    requires cfg.normalLanes > 0 && ps != [] && Fresh(tx.db, ps) && DistinctRefs(ps) && total == TotalCost(ps)
    modifies tx
    ensures r == InsertDecision(old(tx.db), c, ps)
    ensures tx.db == AfterInsert(old(tx.db), cfg, tx.now, c, ps)
    ensures r == Inserted ==> tx.db.messages == MessagesOf(old(tx.db).messages, cfg, tx.now, c, ps)
  {
    var before := tx.db;
    if c !in tx.db.customers {
      return CustomerGone;
    }
    var inserted := InsertMessages(tx, cfg, c, ps);
    if inserted < |ps| {
      tx.db := before;
      return ClientRefTaken;
    }
    RecordDebits(tx, c, ps);
    Enqueue(tx, cfg, c, ps);
    var balance := DebitBalance(tx, c, total);
    if balance.None? {
      tx.db := before;
      return InsufficientCredits;
    }
    AcceptedTableByTable(before, cfg, tx.now, c, ps);
    return Inserted;
  }

  // ---------------------------------------------------------------------------
  // Replay or conflict

  /** messages_customer_client_ref_key. */
  ghost predicate UniqueRefs(messages: map<Id, Message>)
  {
    forall a, b | a in messages && b in messages && messages[a].clientRef.Some?
                  && messages[a].customer == messages[b].customer && messages[a].clientRef == messages[b].clientRef ::
      a == b
  }

  predicate SameRequest(m: Message, it: Item) { m.recipient == it.to && m.body == it.text && m.service == it.service }

  /** The customer's message `id` was submitted with the item's client_ref. */
  predicate Answers(db: Db, c: Id, it: Item, id: Id)
  {
    && it.ref != "" && id in db.messages
    && db.messages[id].customer == c && db.messages[id].clientRef == Some(it.ref)
  }

  ghost predicate Known(db: Db, c: Id, it: Item) { exists id :: Answers(db, c, it, id) }

  /** The customer's message with the item's client_ref has the item's recipient, text and type. */
  ghost predicate Repeated(db: Db, c: Id, it: Item)
  {
    exists id :: Answers(db, c, it, id) && db.messages[id].recipient == it.to && db.messages[id].body == it.text
                 && db.messages[id].service == it.service
  }

  /** Item `index` conflicts; `differs` says that its earlier message is a different one. */
  datatype Conflict = Conflict(index: nat, differs: bool)

  datatype Resolution =
    | NotFound
    | Replay(messages: seq<Id>, totalCost: int)
    | Conflicts(fields: seq<Conflict>)

  function CostOf(db: Db, ids: seq<Id>): int
    requires forall id | id in ids :: id in db.messages
  {
    if ids == [] then 0 else CostOf(db, ids[..|ids| - 1]) + db.messages[ids[|ids| - 1]].cost
  }

  /**
   The documented rule, both ways: nothing is found iff no client_ref is known;
   a replay iff every item has a client_ref that names a message with the same
   recipient, text and type, and it returns those messages in request order;
   otherwise a conflict on exactly the items whose client_ref is known, which says
   of each whether its recipient, text or type differs.
   */
  ghost predicate Resolves(db: Db, c: Id, items: seq<Item>, r: Resolution)
  {
    && (r.NotFound? <==> forall i | 0 <= i < |items| :: !Known(db, c, items[i]))
    && (r.Replay? <==> items != [] && forall i | 0 <= i < |items| :: Repeated(db, c, items[i]))
    && (r.Replay? ==>
          && |r.messages| == |items|
          && (forall i | 0 <= i < |items| :: Answers(db, c, items[i], r.messages[i]))
          && r.totalCost == CostOf(db, r.messages))
    && (r.Conflicts? ==> ConflictsUpTo(db, c, items, |items|, r.fields))
  }

  ghost predicate ConflictsUpTo(db: Db, c: Id, items: seq<Item>, n: nat, fields: seq<Conflict>)
    requires n <= |items|
  {
    && (forall a, b | 0 <= a < b < |fields| :: fields[a].index < fields[b].index)
    && (forall f | f in fields :: f.index < n && Known(db, c, items[f.index])
                                  && (f.differs <==> !Repeated(db, c, items[f.index])))
    && (forall i | 0 <= i < n && Known(db, c, items[i]) :: Listed(fields, i))
  }

  ghost predicate Listed(fields: seq<Conflict>, i: nat) { exists f :: f in fields && f.index == i }

  method LoadExisting(tx: Session, c: Id, items: seq<Item>) returns (byRef: map<string, Id>)
    requires UniqueRefs(tx.db.messages)
    ensures forall i | 0 <= i < |items| && items[i].ref != "" ::
              items[i].ref in byRef <==> Known(tx.db, c, items[i])
    ensures forall i | 0 <= i < |items| && items[i].ref in byRef :: Answers(tx.db, c, items[i], byRef[items[i].ref])
    ensures byRef != map[] <==> exists i :: 0 <= i < |items| && Known(tx.db, c, items[i])
  {
    var refs := set i | 0 <= i < |items| && items[i].ref != "" :: items[i].ref;
    var rows := set id | id in tx.db.messages && tx.db.messages[id].customer == c
                         && tx.db.messages[id].clientRef.Some? && tx.db.messages[id].clientRef.value in refs;
    byRef := map[];
    var rest := rows;
    while rest != {}
      invariant rest <= rows
      invariant forall ref | ref in byRef :: byRef[ref] in rows && tx.db.messages[byRef[ref]].clientRef == Some(ref)
      invariant forall id | id in rows - rest :: tx.db.messages[id].clientRef.value in byRef
    {
      var id :| id in rest;
      byRef := byRef[tx.db.messages[id].clientRef.value := id];
      rest := rest - {id};
    }
    forall i | 0 <= i < |items| && items[i].ref != ""
      ensures items[i].ref in byRef <==> Known(tx.db, c, items[i])
      ensures items[i].ref in byRef ==> Answers(tx.db, c, items[i], byRef[items[i].ref])
    {
      assert items[i].ref in refs;
      if id :| Answers(tx.db, c, items[i], id) {
        assert id in rows - rest;
      }
      if items[i].ref in byRef {
        assert byRef[items[i].ref] in rows;
        assert Answers(tx.db, c, items[i], byRef[items[i].ref]);
      }
    }
    if ref :| ref in byRef {
      assert byRef[ref] in rows && ref in refs;
    }
  }

  lemma OnlyAnswer(db: Db, c: Id, it: Item, id: Id)
    requires UniqueRefs(db.messages) && Answers(db, c, it, id)
    ensures Known(db, c, it)
    ensures Repeated(db, c, it) <==> SameRequest(db.messages[id], it)
  {
  }

  method ResolveExisting(tx: Session, c: Id, items: seq<Item>) returns (r: Resolution)
    requires UniqueRefs(tx.db.messages)
    ensures Resolves(tx.db, c, items, r)
  {
    var byRef := LoadExisting(tx, c, items);
    if byRef == map[] {
      assert items != [] ==> !Known(tx.db, c, items[0]) && !Repeated(tx.db, c, items[0]);
      return NotFound;
    }
    var replay, total, conflicts, replaying: bool := [], 0, [], true;
    for i := 0 to |items|
      invariant ConflictsUpTo(tx.db, c, items, i, conflicts)
      invariant replaying <==> forall k | 0 <= k < i :: Repeated(tx.db, c, items[k])
      invariant replaying ==> ReplaysUpTo(tx.db, c, items, i, replay, total)
    {
      var it := items[i];
      if it.ref == "" || it.ref !in byRef {
        replaying := false;
      } else {
        var id := byRef[it.ref];
        OnlyAnswer(tx.db, c, it, id);
        conflicts := AddConflict(tx, c, items, i, conflicts, !SameRequest(tx.db.messages[id], it));
        if !SameRequest(tx.db.messages[id], it) {
          replaying := false;
        } else if replaying {
          ReplaysNext(tx.db, c, items, i, replay, total, id);
          replay, total := replay + [id], total + tx.db.messages[id].cost;
        }
      }
    }
    if replaying {
      return Replay(replay, total);
    }
    return Conflicts(conflicts);
  }

  /** The messages of the first n items, in order, and what they cost. */
  ghost predicate ReplaysUpTo(db: Db, c: Id, items: seq<Item>, n: nat, replay: seq<Id>, total: int)
    requires n <= |items|
  {
    && |replay| == n && (forall k | 0 <= k < n :: Answers(db, c, items[k], replay[k]))
    && (forall id | id in replay :: id in db.messages) && total == CostOf(db, replay)
  }

  lemma ReplaysNext(db: Db, c: Id, items: seq<Item>, n: nat, replay: seq<Id>, total: int, id: Id)
    requires n < |items| && ReplaysUpTo(db, c, items, n, replay, total) && Answers(db, c, items[n], id)
    ensures ReplaysUpTo(db, c, items, n + 1, replay + [id], total + db.messages[id].cost)
  {
    assert (replay + [id])[..|replay|] == replay;
  }

  method AddConflict(tx: Session, c: Id, items: seq<Item>, i: nat, conflicts: seq<Conflict>, differs: bool)
    returns (more: seq<Conflict>)
    requires i < |items| && ConflictsUpTo(tx.db, c, items, i, conflicts)
    requires Known(tx.db, c, items[i]) && (differs <==> !Repeated(tx.db, c, items[i]))
    ensures ConflictsUpTo(tx.db, c, items, i + 1, more)
  {
    more := conflicts + [Conflict(i, differs)];
    forall k: nat | k < i + 1 && Known(tx.db, c, items[k]) ensures Listed(more, k) {
      if k < i {
        assert Listed(conflicts, k);
        var f :| f in conflicts && f.index == k;
        assert f in more;
      } else {
        assert more[|conflicts|] in more;
      }
    }
  }
}
