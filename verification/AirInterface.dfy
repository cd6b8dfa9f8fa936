/** What segmentation counts: the septets or UTF-16 code units that carry a text, and the octets of a segment. */
module AirInterface {
  import opened Tables
  import opened Segments

  const ESCAPE: nat := 0x1B

  /** The septets that follow the escape, for the characters of the extension table in order. */
  const EXTENSION_CODES: seq<nat> := [0x0A, 0x14, 0x28, 0x29, 0x2F, 0x3C, 0x3D, 0x3E, 0x40, 0x65]

  function IndexOf(table: string, c: char): (i: nat)
    requires c in table
    ensures i < |table| && table[i] == c
  {
    if table[0] == c then 0 else IndexOf(table[1..], c) + 1
  }

  /** A character as septets, an escape and a second septet for an extension character, or as UTF-16 code units. */
  function CodeUnits(enc: Encoding, c: char): seq<nat>
    requires enc.Gsm7? ==> InGsm7(c)
  {
    if enc.Gsm7? then
      if c in GSM7_EXTENSION then [ESCAPE, EXTENSION_CODES[IndexOf(GSM7_EXTENSION, c)]]
      else
        var i := IndexOf(GSM7_BASIC, c);
        [if i < ESCAPE then i else i + 1]
    else
      var v := c as int;
      if v < 0x1_0000 then [v] else [0xD800 + (v - 0x1_0000) / 0x400, 0xDC00 + (v - 0x1_0000) % 0x400]
  }

  function Encoded(enc: Encoding, text: string): seq<nat>
    requires enc.Gsm7? ==> forall c | c in text :: InGsm7(c)
  {
    if text == "" then [] else Encoded(enc, text[..|text| - 1]) + CodeUnits(enc, text[|text| - 1])
  }

  /** With the escape character the table has the 128 septets. */
  lemma TableIsComplete()
    ensures |GSM7_BASIC| == 127 && |GSM7_EXTENSION| == |EXTENSION_CODES| && forall u | u in EXTENSION_CODES :: u < 128
  {
  }

  lemma CodeUnitsFit(enc: Encoding, c: char)
    requires enc.Gsm7? ==> InGsm7(c)
    ensures |CodeUnits(enc, c)| == Width(enc, c)
    ensures AllBelow(CodeUnits(enc, c), Alphabet(enc))
  {
    TableIsComplete();
  }

  function Alphabet(enc: Encoding): nat { if enc.Gsm7? then 128 else 0x1_0000 }

  predicate AllBelow(units: seq<nat>, n: nat) { forall u | u in units :: u < n }

  /** The units of a text are the septets or the UTF-16 code units that encode it. */
  lemma {:induction false} UnitsAreCodeUnits(enc: Encoding, text: string)
    requires enc.Gsm7? ==> forall c | c in text :: InGsm7(c)
    ensures Units(enc, text) == |Encoded(enc, text)|
    ensures AllBelow(Encoded(enc, text), Alphabet(enc))
  {
    if text != "" {
      var init, c := text[..|text| - 1], text[|text| - 1];
      UnitsAreCodeUnits(enc, init);
      CodeUnitsFit(enc, c);
      assert Encoded(enc, text) == Encoded(enc, init) + CodeUnits(enc, c);
    }
  }

  /** A segment holds as many units as fit in 140 octets, and in 134 when it carries a part header of six. */
  lemma CapacitiesFillTheOctets(enc: Encoding)
    ensures var bits := if enc.Gsm7? then 7 else 16;
            && bits * Single(enc) <= 8 * 140 < bits * (Single(enc) + 1)
            && bits * Part(enc) <= 8 * 134 < bits * (Part(enc) + 1)
  {
  }
}
