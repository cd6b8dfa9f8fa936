/** Validation and pricing of submissions (internal/message/validate.go, internal/message/price.go). */
module Preparing {
  import opened Tables
  import opened Accepting
  import Segments

  const MAX_BATCH_SIZE := 500

  /** A request's text: characters, or bytes that are not UTF-8. */
  datatype Body = Chars(chars: string) | NotUtf8

  datatype Request = Request(to: string, body: Body, kind: string, ref: Option<string>)

  datatype Limits = Limits(maxSegments: int, normalPrice: int, expressPrice: int)

  datatype Field = Messages | To | Kind | Text | ClientRef

  datatype Code = Required | InvalidFormat | TooManyItems | DuplicateRef | TextTooLong | InvalidText

  datatype Problem = Problem(index: nat, field: Field, code: Code)

  datatype Prepared = Items(items: seq<Item>) | Invalid(problems: seq<Problem>)

  predicate Digit(c: char) { '0' <= c <= '9' }

  /** A plus sign and 8 to 15 digits, the first not zero. */
  predicate ValidRecipient(s: string)
  {
    && 9 <= |s| <= 16 && s[0] == '+' && s[1] != '0'
    && forall i | 1 <= i < |s| :: Digit(s[i])
  }

  predicate RefChar(c: char)
  {
    'A' <= c <= 'Z' || 'a' <= c <= 'z' || Digit(c) || c in "._:-"
  }

  predicate ValidClientRef(s: string) { 1 <= |s| <= 64 && forall c | c in s :: RefChar(c) }

  predicate KnownKind(kind: string) { kind == "" || kind == "normal" || kind == "express" }

  /** An empty kind means normal; an unknown one never leaves Prepare. */
  function ServiceOf(kind: string): Class { if kind == "express" then Express else Normal }

  function Segs(chars: string): nat { Segments.SegmentsIn(Segments.EncodingOf(chars), chars) }

  predicate GoodText(limits: Limits, body: Body)
  {
    body.Chars? && body.chars != "" && '\0' !in body.chars && Segs(body.chars) <= limits.maxSegments
  }

  predicate GoodRequest(limits: Limits, r: Request)
  {
    && ValidRecipient(r.to) && (r.kind == "" || r.kind == "normal" || r.kind == "express") && GoodText(limits, r.body)
    && (r.ref.Some? ==> ValidClientRef(r.ref.value))
  }

  /** What a submission must be, without reference to the order of its items. */
  ghost predicate Acceptable(limits: Limits, reqs: seq<Request>)
  {
    && (forall r | r in reqs :: GoodRequest(limits, r))
    && (forall i, j | 0 <= i < j < |reqs| && reqs[i].ref.Some? :: reqs[i].ref != reqs[j].ref)
  }

  function PriceOf(limits: Limits, service: Class): int
  {
    if service.Express? then limits.expressPrice else limits.normalPrice
  }

  function ItemOf(limits: Limits, r: Request): Item
    requires r.body.Chars?
  {
    var t := r.body.chars;
    Item(r.to, t, ServiceOf(r.kind), if r.ref.Some? then r.ref.value else "",
         Segments.EncodingOf(t), Segs(t), Segs(t) * PriceOf(limits, ServiceOf(r.kind)))
  }

  /** The item is the request's, priced by segment at the rate of its class. */
  ghost predicate Describes(limits: Limits, r: Request, it: Item)
    requires r.body.Chars?
  {
    && it.to == r.to && it.text == r.body.chars && (it.service.Express? <==> r.kind == "express")
    && it.ref == (if r.ref.Some? then r.ref.value else "")
    && (it.encoding.Gsm7? <==> forall c | c in it.text :: Segments.InGsm7(c))
    && it.segments == Segments.SegmentsOf(it.text)
    && it.cost == it.segments * (if r.kind == "express" then limits.expressPrice else limits.normalPrice)
  }

  /** The request's ref is the ref of an earlier request. */
  predicate Repeated(reqs: seq<Request>, i: nat)
    requires i < |reqs|
  {
    reqs[i].ref.Some? && exists j :: 0 <= j < i && reqs[j].ref == reqs[i].ref
  }

  /** What is wrong with one field of request i, if anything. */
  function Fault(limits: Limits, reqs: seq<Request>, i: nat, field: Field): Option<Code>
    requires i < |reqs|
  {
    var r := reqs[i];
    match field
    case Messages => None
    case To => if r.to == "" then Some(Required) else if !ValidRecipient(r.to) then Some(InvalidFormat) else None
    case Kind => if KnownKind(r.kind) then None else Some(InvalidFormat)
    case Text =>
      if r.body == Chars("") then Some(Required)
      else if r.body.NotUtf8? || '\0' in r.body.chars then Some(InvalidText)
      else if Segs(r.body.chars) > limits.maxSegments then Some(TextTooLong) else None
    case ClientRef =>
      if r.ref.None? then None
      else if !ValidClientRef(r.ref.value) then Some(InvalidFormat)
      else if Repeated(reqs, i) then Some(DuplicateRef) else None
  }

  predicate Faultless(limits: Limits, reqs: seq<Request>, i: nat)
    requires i < |reqs|
  {
    Fault(limits, reqs, i, To).None? && Fault(limits, reqs, i, Kind).None? && Fault(limits, reqs, i, Text).None?
    && Fault(limits, reqs, i, ClientRef).None?
  }

  /** The problems are exactly the faults of the first n requests. */
  ghost predicate ListsFaults(limits: Limits, reqs: seq<Request>, n: nat, problems: seq<Problem>)
    requires n <= |reqs|
  {
    forall p: Problem :: p in problems <==> p.index < n && Fault(limits, reqs, p.index, p.field) == Some(p.code)
  }

  // ---------------------------------------------------------------------------

  function Noted(i: nat, field: Field, fault: Option<Code>): seq<Problem>
  {
    if fault.Some? then [Problem(i, field, fault.value)] else []
  }

  method CheckText(limits: Limits, reqs: seq<Request>, i: nat) returns (fault: Option<Code>, seg: Segments.Result)
    requires i < |reqs|
    ensures fault == Fault(limits, reqs, i, Text)
    ensures fault.None? ==>
              seg.encoding == Segments.EncodingOf(reqs[i].body.chars) && seg.segments == Segs(reqs[i].body.chars)
  {
    var body := reqs[i].body;
    seg := Segments.Result(Gsm7, 0, 0);
    if body == Chars("") {
      fault := Some(Required);
    } else if body.NotUtf8? || '\0' in body.chars {
      fault := Some(InvalidText);
    } else {
      seg := Segments.Count(body.chars);
      fault := if seg.segments > limits.maxSegments then Some(TextTooLong) else None;
    }
  }

  /** The refs seen so far are exactly the well-formed ones of the earlier requests, each with an index of its own. */
  ghost predicate SeenRefs(reqs: seq<Request>, n: nat, refs: map<string, nat>)
    requires n <= |reqs|
  {
    && (forall ref | ref in refs :: refs[ref] < n && reqs[refs[ref]].ref == Some(ref))
    && (forall j | 0 <= j < n && reqs[j].ref.Some? && ValidClientRef(reqs[j].ref.value) :: reqs[j].ref.value in refs)
  }

  method CheckRef(limits: Limits, reqs: seq<Request>, i: nat, refs: map<string, nat>)
    returns (fault: Option<Code>, refs': map<string, nat>)
    requires i < |reqs| && SeenRefs(reqs, i, refs)
    ensures SeenRefs(reqs, i + 1, refs')
    ensures fault == Fault(limits, reqs, i, ClientRef)
  {
    fault, refs' := None, refs;
    if reqs[i].ref.Some? {
      var ref := reqs[i].ref.value;
      if !ValidClientRef(ref) {
        fault := Some(InvalidFormat);
      } else if ref in refs {
        assert reqs[refs[ref]].ref == reqs[i].ref;
        fault := Some(DuplicateRef);
      } else {
        refs' := refs[ref := i];
      }
    }
  }

  /**
   Prepare gives items exactly when the whole submission is acceptable: one item
   for each request, in order, with its encoding, segments and the price of its
   class for each segment. Otherwise it lists every fault, and nothing else.
   */
  method Prepare(limits: Limits, reqs: seq<Request>, batch: bool) returns (out: Prepared)
    ensures out.Items? <==> (batch ==> 1 <= |reqs| <= 500) && Acceptable(limits, reqs)
    ensures out.Items? ==> |out.items| == |reqs|
    ensures out.Items? ==> forall i | 0 <= i < |reqs| :: reqs[i].body.Chars? && Describes(limits, reqs[i], out.items[i])
    ensures out.Items? ==> forall i | 0 <= i < |reqs| :: out.items[i] == ItemOf(limits, reqs[i])
    ensures out.Invalid? && (batch ==> 1 <= |reqs| <= 500) ==> ListsFaults(limits, reqs, |reqs|, out.problems)
    ensures batch && !(1 <= |reqs| <= 500) ==>
              out == Invalid([Problem(0, Messages, if reqs == [] then Required else TooManyItems)])
  {
    if batch && |reqs| == 0 {
      return Invalid([Problem(0, Messages, Required)]);
    }
    if batch && |reqs| > MAX_BATCH_SIZE {
      return Invalid([Problem(0, Messages, TooManyItems)]);
    }
    var problems, items := CheckAll(limits, reqs);
    NoFaultsIff(limits, reqs, problems);
    if problems != [] {
      return Invalid(problems);
    }
    return Items(items);
  }

  /** The faults of all requests, and an item for each; a faulty request's item is not used. */
  method CheckAll(limits: Limits, reqs: seq<Request>) returns (problems: seq<Problem>, items: seq<Item>)
    ensures ListsFaults(limits, reqs, |reqs|, problems)
    ensures |items| == |reqs|
    ensures forall j | 0 <= j < |reqs| && Faultless(limits, reqs, j) :: items[j] == ItemOf(limits, reqs[j])
  {
    problems, items := [], [];
    var refs := map[];
    for i := 0 to |reqs|
      invariant SeenRefs(reqs, i, refs)
      invariant ListsFaults(limits, reqs, i, problems)
      invariant |items| == i
      invariant forall j | 0 <= j < i && Faultless(limits, reqs, j) :: items[j] == ItemOf(limits, reqs[j])
    {
      var own, item;
      own, item, refs := CheckOne(limits, reqs, i, refs);
      MoreFaults(limits, reqs, i, problems);
      problems := problems + own;
      items := items + [item];
    }
  }

  method CheckOne(limits: Limits, reqs: seq<Request>, i: nat, refs: map<string, nat>)
    returns (own: seq<Problem>, item: Item, refs': map<string, nat>)
    requires i < |reqs| && SeenRefs(reqs, i, refs)
    ensures SeenRefs(reqs, i + 1, refs')
    ensures own == FaultsOf(limits, reqs, i)
    ensures Faultless(limits, reqs, i) ==> item == ItemOf(limits, reqs[i])
  {
    var r := reqs[i];
    var inTo := if r.to == "" then Some(Required) else if !ValidRecipient(r.to) then Some(InvalidFormat) else None;
    var inKind := if KnownKind(r.kind) then None else Some(InvalidFormat);
    var inText, seg := CheckText(limits, reqs, i);
    var inRef;
    inRef, refs' := CheckRef(limits, reqs, i, refs);
    own := Noted(i, To, inTo) + Noted(i, Kind, inKind) + Noted(i, Text, inText) + Noted(i, ClientRef, inRef);
    item := Item(r.to, if r.body.Chars? then r.body.chars else "", ServiceOf(r.kind),
                 if r.ref.Some? then r.ref.value else "",
                 seg.encoding, seg.segments, seg.segments * PriceOf(limits, ServiceOf(r.kind)));
  }

  function FaultsOf(limits: Limits, reqs: seq<Request>, i: nat): seq<Problem>
    requires i < |reqs|
  {
    Noted(i, To, Fault(limits, reqs, i, To)) + Noted(i, Kind, Fault(limits, reqs, i, Kind))
    + Noted(i, Text, Fault(limits, reqs, i, Text)) + Noted(i, ClientRef, Fault(limits, reqs, i, ClientRef))
  }

  lemma MoreFaults(limits: Limits, reqs: seq<Request>, n: nat, problems: seq<Problem>)
    requires n < |reqs| && ListsFaults(limits, reqs, n, problems)
    ensures ListsFaults(limits, reqs, n + 1, problems + FaultsOf(limits, reqs, n))
  {
    var own := FaultsOf(limits, reqs, n);
    forall p: Problem ensures p in own <==> p.index == n && Fault(limits, reqs, n, p.field) == Some(p.code) {
      assert p in own <==> exists f :: f != Messages && p in Noted(n, f, Fault(limits, reqs, n, f));
    }
  }

  /** No fault is listed exactly when the submission is acceptable. */
  lemma NoFaultsIff(limits: Limits, reqs: seq<Request>, problems: seq<Problem>)
    requires ListsFaults(limits, reqs, |reqs|, problems)
    ensures problems == [] <==> Acceptable(limits, reqs)
    ensures problems == [] ==> forall i | 0 <= i < |reqs| :: reqs[i].body.Chars? && Faultless(limits, reqs, i)
  {
    forall i: nat, f | i < |reqs| && Fault(limits, reqs, i, f).Some? ensures problems != [] {
      assert Problem(i, f, Fault(limits, reqs, i, f).value) in problems;
    }
    if problems != [] {
      var p := problems[0];
      assert p in problems && Fault(limits, reqs, p.index, p.field) == Some(p.code);
      assert reqs[p.index] in reqs;
    } else {
      forall i | 0 <= i < |reqs| ensures Faultless(limits, reqs, i) && GoodRequest(limits, reqs[i]) {
        assert forall f :: Fault(limits, reqs, i, f).None?;
      }
      forall i, j | 0 <= i < j < |reqs| && reqs[i].ref.Some? ensures reqs[i].ref != reqs[j].ref {
        assert Fault(limits, reqs, j, ClientRef).None?;
      }
    }
  }

  /** Items of an acceptable submission meet what acceptance relies on: distinct refs and positive costs. */
  lemma PreparedCanBeAccepted(limits: Limits, reqs: seq<Request>, ps: seq<Placed>)
    requires limits.normalPrice > 0 && limits.expressPrice > 0 && Acceptable(limits, reqs) && |ps| == |reqs|
    requires forall i | 0 <= i < |reqs| :: reqs[i].body.Chars? && ps[i].item == ItemOf(limits, reqs[i])
    ensures DistinctRefs(ps) && forall p | p in ps :: Priced(p.item) && p.item.segments <= limits.maxSegments
  {
    forall p | p in ps ensures Priced(p.item) && p.item.segments <= limits.maxSegments {
      var i :| 0 <= i < |ps| && ps[i] == p;
      assert GoodRequest(limits, reqs[i]);
      Charged(limits, reqs[i]);
    }
    forall i, j | 0 <= i < j < |ps| && ps[i].item.ref != "" ensures ps[i].item.ref != ps[j].item.ref {
      assert reqs[i].ref.Some?;
      assert reqs[i].ref != reqs[j].ref;
    }
  }

  lemma Charged(limits: Limits, r: Request)
    requires limits.normalPrice > 0 && limits.expressPrice > 0 && r.body.Chars? && r.body.chars != ""
    ensures Segs(r.body.chars) >= 1 && ItemOf(limits, r).cost >= PriceOf(limits, ServiceOf(r.kind)) > 0
  {
    AtLeastOnce(Segs(r.body.chars), PriceOf(limits, ServiceOf(r.kind)));
  }

  lemma AtLeastOnce(n: int, p: int)
    requires n >= 1 && p > 0
    ensures n * p >= p
  {
    assert n * p == (n - 1) * p + p;
  }
}
