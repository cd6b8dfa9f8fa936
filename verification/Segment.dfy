/** SMS segmentation (internal/segment): GSM 03.38 septets or UTF-16 units, filled greedily. */
module Segments {
  import opened Tables

  // 3GPP TS 23.038, section 6.2.1, without the escape character, and its extension table (section 6.2.1.1).
  const GSM7_BASIC: string :=
    "@£$¥èéùìòÇ\nØø\rÅå" + "Δ_ΦΓΛΩΠΨΣΘΞÆæßÉ " + "!\"#¤%&'()*+,-./" + "0123456789:;<=>?" +
    "¡ABCDEFGHIJKLMNOPQRSTUVWXYZÄÖÑÜ§" + "¿abcdefghijklmnopqrstuvwxyzäöñüà"

  const GSM7_EXTENSION: string := "\U{000C}^{}\\[~]|€"

  const GSM7_SINGLE := 160
  const GSM7_PART := 153
  const UCS2_SINGLE := 70
  const UCS2_PART := 67

  datatype Result = Result(encoding: Encoding, units: nat, segments: nat)

  predicate InGsm7(c: char) { c in GSM7_BASIC || c in GSM7_EXTENSION }

  function Width(enc: Encoding, c: char): (w: nat)
    ensures 1 <= w <= 2
  {
    if enc.Gsm7? then (if c in GSM7_EXTENSION then 2 else 1)
    else if c > '\U{FFFF}' then 2 else 1
  }

  function Single(enc: Encoding): nat { if enc.Gsm7? then GSM7_SINGLE else UCS2_SINGLE }

  function Part(enc: Encoding): nat { if enc.Gsm7? then GSM7_PART else UCS2_PART }

  function Units(enc: Encoding, text: string): nat
  {
    if text == "" then 0 else Units(enc, text[..|text| - 1]) + Width(enc, text[|text| - 1])
  }

  // ---------------------------------------------------------------------------
  // Splits: the reference

  /** The parts, in order, are the text, and none exceeds the capacity. A character is never divided. */
  ghost predicate IsSplit(enc: Encoding, text: string, parts: seq<string>)
  {
    Concat(parts) == text && forall p | p in parts :: Units(enc, p) <= Part(enc)
  }

  function Concat(parts: seq<string>): string
  {
    if parts == [] then "" else Concat(parts[..|parts| - 1]) + parts[|parts| - 1]
  }

  // ---------------------------------------------------------------------------
  // Greedy filling

  datatype Fill = Fill(segments: nat, used: nat)

  /** The greedy fill after some characters. */
  function Greedy(enc: Encoding, text: string): (f: Fill)
    ensures f.segments >= 1 && f.used <= Part(enc)
  {
    if text == "" then Fill(1, 0)
    else
      var f := Greedy(enc, text[..|text| - 1]);
      var w := Width(enc, text[|text| - 1]);
      if f.used + w > Part(enc) then Fill(f.segments + 1, w) else Fill(f.segments, f.used + w)
  }

  method Detect(text: string) returns (enc: Encoding)
    ensures enc.Gsm7? <==> forall c | c in text :: c in GSM7_BASIC || c in GSM7_EXTENSION
  {
    for i := 0 to |text|
      invariant forall c | c in text[..i] :: InGsm7(c)
    {
      if !InGsm7(text[i]) {
        return Ucs2;
      }
    }
    assert text[..|text|] == text;
    return Gsm7;
  }

  /** The encoding of a text. */
  function EncodingOf(text: string): Encoding { if forall c | c in text :: InGsm7(c) then Gsm7 else Ucs2 }

  /** The number of segments of a text in a given encoding. */
  function SegmentsIn(enc: Encoding, text: string): nat
  {
    if text == "" then 0 else if Units(enc, text) <= Single(enc) then 1 else Greedy(enc, text).segments
  }

  method Count(text: string) returns (r: Result)
    ensures r == Result(EncodingOf(text), Units(EncodingOf(text), text), SegmentsIn(EncodingOf(text), text))
  {
    var enc := Detect(text);
    var total := 0;
    for i := 0 to |text|
      invariant total == Units(enc, text[..i])
    {
      assert text[..i + 1][..i] == text[..i];
      total := total + Width(enc, text[i]);
    }
    assert text[..|text|] == text;
    UnitsPositive(enc, text);
    if total == 0 {
      return Result(enc, 0, 0);
    }
    if total <= Single(enc) {
      return Result(enc, total, 1);
    }
    var segments := FillParts(enc, text);
    return Result(enc, total, segments);
  }

  /** Fills parts greedily; a character that does not fit in the space left starts the next part. */
  method FillParts(enc: Encoding, text: string) returns (segments: nat)
    ensures segments == Greedy(enc, text).segments
  {
    segments := 1;
    var used: nat := 0;
    for i := 0 to |text|
      invariant Greedy(enc, text[..i]) == Fill(segments, used)
    {
      assert text[..i + 1][..i] == text[..i];
      var w := Width(enc, text[i]);
      if used + w > Part(enc) {
        segments := segments + 1;
        used := 0;
      }
      used := used + w;
    }
    assert text[..|text|] == text;
  }

  lemma {:induction false} UnitsPositive(enc: Encoding, text: string)
    ensures |text| <= Units(enc, text) <= 2 * |text|
  {
    if text != "" {
      UnitsPositive(enc, text[..|text| - 1]);
    }
  }

  lemma {:induction false} UnitsConcat(enc: Encoding, a: string, b: string)
    ensures Units(enc, a + b) == Units(enc, a) + Units(enc, b)
  {
    if b == "" {
      assert a + b == a;
    } else {
      assert (a + b)[..|a + b| - 1] == a + b[..|b| - 1];
      UnitsConcat(enc, a, b[..|b| - 1]);
    }
  }

  // ---------------------------------------------------------------------------
  // Greedy is optimal

  /** The greedy fill as a split. */
  function GreedyParts(enc: Encoding, text: string): seq<string>
  {
    if text == "" then [""]
    else
      var parts, c := GreedyParts(enc, text[..|text| - 1]), text[|text| - 1];
      if parts == [] || Greedy(enc, text[..|text| - 1]).used + Width(enc, c) > Part(enc) then parts + [[c]]
      else parts[..|parts| - 1] + [parts[|parts| - 1] + [c]]
  }

  lemma {:induction false} GreedyIsSplit(enc: Encoding, text: string)
    ensures IsSplit(enc, text, GreedyParts(enc, text))
    ensures |GreedyParts(enc, text)| == Greedy(enc, text).segments
    ensures Units(enc, GreedyParts(enc, text)[Greedy(enc, text).segments - 1]) == Greedy(enc, text).used
  {
    if text == "" {
      assert [""][..0] == [];
      assert Concat([""]) == Concat([]) + "";
    } else {
      var init, c := text[..|text| - 1], text[|text| - 1];
      GreedyIsSplit(enc, init);
      var parts := GreedyParts(enc, init);
      assert text == init + [c];
      GreedyExtends(enc, init, parts, c, Greedy(enc, init).used + Width(enc, c) > Part(enc));
    }
  }

  lemma GreedyExtends(enc: Encoding, init: string, parts: seq<string>, c: char, full: bool)
    requires parts != [] && IsSplit(enc, init, parts)
    requires full <==> Units(enc, parts[|parts| - 1]) + Width(enc, c) > Part(enc)
    ensures var next := if full then parts + [[c]] else parts[..|parts| - 1] + [parts[|parts| - 1] + [c]];
            && IsSplit(enc, init + [c], next)
            && Units(enc, next[|next| - 1]) == if full then Width(enc, c) else Units(enc, parts[|parts| - 1]) + Width(enc, c)
  {
    var n := |parts| - 1;
    UnitsOfOne(enc, c);
    if full {
      assert (parts + [[c]])[..n + 1] == parts;
    } else {
      var next := parts[..n] + [parts[n] + [c]];
      assert next[..n] == parts[..n];
      UnitsConcat(enc, parts[n], [c]);
      assert forall p | p in next :: p in parts || p == parts[n] + [c];
    }
  }

  lemma UnitsOfOne(enc: Encoding, c: char)
    ensures Units(enc, [c]) == Width(enc, c)
  {
    assert [c][..0] == "";
  }

  /** Greedy never starts more parts than a split has, and fills as much of the last one at most. */
  predicate Ahead(f: Fill, parts: nat, used: nat) { f.segments < parts || (f.segments == parts && f.used <= used) }

  /** Adding the characters of one part, one by one. */
  lemma {:induction false} AheadWithin(enc: Encoding, before: string, p: string, parts: nat, used: nat)
    requires Ahead(Greedy(enc, before), parts, used) && used + Units(enc, p) <= Part(enc)
    ensures Ahead(Greedy(enc, before + p), parts, used + Units(enc, p))
  {
    if p == "" {
      assert before + p == before;
    } else {
      var init := p[..|p| - 1];
      AheadWithin(enc, before, init, parts, used);
      assert (before + p)[..|before + p| - 1] == before + init;
    }
  }

  lemma {:induction false} GreedyIsAhead(enc: Encoding, parts: seq<string>)
    requires forall p | p in parts :: Units(enc, p) <= Part(enc)
    ensures parts != [] ==> Ahead(Greedy(enc, Concat(parts)), |parts|, Units(enc, parts[|parts| - 1]))
    ensures parts == [] ==> Greedy(enc, Concat(parts)) == Fill(1, 0)
  {
    if parts != [] {
      var init, p := parts[..|parts| - 1], parts[|parts| - 1];
      GreedyIsAhead(enc, init);
      AheadWithin(enc, Concat(init), p, |parts|, 0);
    }
  }

  /** The number of greedy parts is the least number of parts over all splits of a text. */
  lemma GreedyIsMinimal(enc: Encoding, text: string, parts: seq<string>)
    requires text != "" && IsSplit(enc, text, parts)
    ensures Greedy(enc, text).segments <= |parts|
    ensures IsSplit(enc, text, GreedyParts(enc, text)) && |GreedyParts(enc, text)| == Greedy(enc, text).segments
  {
    GreedyIsAhead(enc, parts);
    GreedyIsSplit(enc, text);
  }

  // ---------------------------------------------------------------------------
  // How many units k parts hold

  /** With k parts, (k-1)(part-1) < units <= k*part: each part but the last lacks at most one unit. */
  lemma {:induction false} PartsBoundUnits(enc: Encoding, text: string)
    ensures var f := Greedy(enc, text);
            && (f.segments - 1) * (Part(enc) - 1) + f.used <= Units(enc, text) <= (f.segments - 1) * Part(enc) + f.used
            && (text != "" ==> f.used > 0)
  {
    if text != "" {
      PartsBoundUnits(enc, text[..|text| - 1]);
    }
  }

  function CeilDiv(a: nat, b: nat): nat
    requires b > 0
  {
    (a + b - 1) / b
  }

  /** Up to part+1 parts, greedy needs at most one part more than the units alone would. */
  lemma AtMostOneExtraPart(enc: Encoding, text: string)
    requires text != "" && Greedy(enc, text).segments <= Part(enc) + 1
    ensures var k := Greedy(enc, text).segments;
            && (k - 1) * (Part(enc) - 1) < Units(enc, text) <= k * Part(enc)
            && CeilDiv(Units(enc, text), Part(enc)) <= k <= CeilDiv(Units(enc, text), Part(enc)) + 1
  {
    PartsBoundUnits(enc, text);
  }

  // ---------------------------------------------------------------------------
  // Longer texts never take fewer segments

  lemma {:induction false} GreedyGrows(enc: Encoding, a: string, b: string)
    ensures Greedy(enc, a).segments <= Greedy(enc, a + b).segments
  {
    if b == "" {
      assert a + b == a;
    } else {
      assert (a + b)[..|a + b| - 1] == a + b[..|b| - 1];
      GreedyGrows(enc, a, b[..|b| - 1]);
    }
  }

  lemma SegmentsGrowInEncoding(enc: Encoding, a: string, b: string)
    ensures SegmentsIn(enc, a) <= SegmentsIn(enc, a + b)
  {
    UnitsConcat(enc, a, b);
    UnitsPositive(enc, a);
    UnitsPositive(enc, b);
    GreedyGrows(enc, a, b);
  }

  /** A UCS-2 part has at most 67 characters, so it is also a GSM-7 part. */
  lemma {:induction false} Ucs2SplitIsGsm7Split(text: string, parts: seq<string>)
    requires IsSplit(Ucs2, text, parts)
    ensures IsSplit(Gsm7, text, parts)
  {
    forall p | p in parts ensures Units(Gsm7, p) <= Part(Gsm7) {
      UnitsPositive(Ucs2, p);
      UnitsPositive(Gsm7, p);
    }
  }

  lemma Gsm7NeverTakesMore(text: string)
    ensures SegmentsIn(Gsm7, text) <= SegmentsIn(Ucs2, text)
  {
    UnitsPositive(Ucs2, text);
    UnitsPositive(Gsm7, text);
    if Units(Ucs2, text) > Single(Ucs2) && text != "" {
      GreedyIsSplit(Ucs2, text);
      Ucs2SplitIsGsm7Split(text, GreedyParts(Ucs2, text));
      GreedyIsMinimal(Gsm7, text, GreedyParts(Ucs2, text));
    }
  }

  function SegmentsOf(text: string): nat { SegmentsIn(EncodingOf(text), text) }

  /** A prefix never takes more segments than the whole text, also when the rest switches the encoding. */
  lemma SegmentsGrow(a: string, b: string)
    ensures SegmentsOf(a) <= SegmentsOf(a + b)
  {
    SegmentsGrowInEncoding(EncodingOf(a + b), a, b);
    if EncodingOf(a) != EncodingOf(a + b) {
      assert forall c | c in a :: c in a + b;
      Gsm7NeverTakesMore(a);
    }
  }

  /** What a message costs (internal/message/price.go). */
  function Cost(perSegment: int, segments: nat): int { segments * perSegment }

  /** So the cost of a class grows with the text, and every prefix of a text within the limit is within it. */
  lemma CostGrows(perSegment: int, limit: nat, a: string, b: string)
    requires perSegment >= 0
    ensures Cost(perSegment, SegmentsOf(a)) <= Cost(perSegment, SegmentsOf(a + b))
    ensures SegmentsOf(a + b) <= limit ==> SegmentsOf(a) <= limit
  {
    SegmentsGrow(a, b);
    MoreCostsMore(perSegment, SegmentsOf(a), SegmentsOf(a + b));
  }

  lemma MoreCostsMore(perSegment: int, x: nat, y: nat)
    requires perSegment >= 0 && x <= y
    ensures Cost(perSegment, x) <= Cost(perSegment, y)
  {
    assert Cost(perSegment, y) - Cost(perSegment, x) == (y - x) * perSegment;
  }
}
