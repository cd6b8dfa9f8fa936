/** The regular expressions of internal/message/validate.go, and what they accept. */
module Patterns {
  import Preparing

  datatype Range = Range(lo: char, hi: char)

  /** A character class repeated a number of times, as in [0-9]{7,14}. */
  datatype Piece = Piece(ranges: set<Range>, least: nat, most: nat)

  /** ^\+[1-9][0-9]{7,14}$ */
  const RECIPIENT := [Piece({Range('+', '+')}, 1, 1), Piece({Range('1', '9')}, 1, 1), Piece({Range('0', '9')}, 7, 14)]

  /** ^[A-Za-z0-9._:-]{1,64}$ */
  const CLIENT_REF := [Piece({Range('A', 'Z'), Range('a', 'z'), Range('0', '9'), Range('.', '.'), Range('_', '_'),
                              Range(':', ':'), Range('-', '-')}, 1, 64)]

  predicate Allowed(piece: Piece, c: char) { exists r :: r in piece.ranges && r.lo <= c <= r.hi }

  /** The first n characters of s are in the class. */
  predicate Runs(piece: Piece, s: string, n: nat)
  {
    piece.least <= n <= piece.most && n <= |s| && forall i | 0 <= i < n :: Allowed(piece, s[i])
  }

  /** The whole of s is a run of each piece, one after the other. */
  ghost predicate Matches(pattern: seq<Piece>, s: string)
  {
    if pattern == [] then s == ""
    else exists n: nat :: Runs(pattern[0], s, n) && Matches(pattern[1..], s[n..])
  }

  lemma MatchesOne(piece: Piece, s: string)
    ensures Matches([piece], s) <==> Runs(piece, s, |s|)
  {
    assert [piece][1..] == [];
    if Runs(piece, s, |s|) {
      assert Matches([piece][1..], s[|s|..]);
    }
    if Matches([piece], s) {
      var n: nat :| Runs([piece][0], s, n) && Matches([piece][1..], s[n..]);
      assert n == |s|;
    }
  }

  /** A piece that runs once takes the first character. */
  lemma MatchesFirst(piece: Piece, rest: seq<Piece>, s: string)
    requires piece.least == piece.most == 1
    ensures Matches([piece] + rest, s) <==> s != "" && Allowed(piece, s[0]) && Matches(rest, s[1..])
  {
    assert ([piece] + rest)[1..] == rest;
    if s != "" && Allowed(piece, s[0]) && Matches(rest, s[1..]) {
      assert Runs(([piece] + rest)[0], s, 1);
    }
  }

  /** A recipient is valid exactly when the pattern matches it. */
  lemma RecipientMatches(s: string)
    ensures Preparing.ValidRecipient(s) <==> Matches(RECIPIENT, s)
  {
    assert RECIPIENT == [RECIPIENT[0]] + ([RECIPIENT[1]] + [RECIPIENT[2]]);
    MatchesFirst(RECIPIENT[0], [RECIPIENT[1]] + [RECIPIENT[2]], s);
    if s != "" {
      MatchesFirst(RECIPIENT[1], [RECIPIENT[2]], s[1..]);
      if |s| > 1 {
        MatchesOne(RECIPIENT[2], s[1..][1..]);
      }
    }
    forall c: char
      ensures Allowed(RECIPIENT[0], c) <==> c == '+'
      ensures Allowed(RECIPIENT[1], c) <==> '1' <= c <= '9'
      ensures Allowed(RECIPIENT[2], c) <==> '0' <= c <= '9'
    {
      assert Range('+', '+') in RECIPIENT[0].ranges && Range('1', '9') in RECIPIENT[1].ranges;
      assert Range('0', '9') in RECIPIENT[2].ranges;
    }
  }

  lemma RefCharsAre(c: char)
    ensures Allowed(CLIENT_REF[0], c) <==> Preparing.RefChar(c)
  {
    var ranges := CLIENT_REF[0].ranges;
    assert Range('A', 'Z') in ranges && Range('a', 'z') in ranges && Range('0', '9') in ranges;
    assert Range('.', '.') in ranges && Range('_', '_') in ranges && Range(':', ':') in ranges && Range('-', '-') in ranges;
    assert "._:-"[0] == '.' && "._:-"[1] == '_' && "._:-"[2] == ':' && "._:-"[3] == '-';
  }

  /** A client_ref is valid exactly when the pattern matches it. */
  lemma ClientRefMatches(s: string)
    ensures Preparing.ValidClientRef(s) <==> Matches(CLIENT_REF, s)
  {
    MatchesOne(CLIENT_REF[0], s);
    forall c: char ensures Allowed(CLIENT_REF[0], c) <==> Preparing.RefChar(c) {
      RefCharsAre(c);
    }
    assert forall i | 0 <= i < |s| :: s[i] in s;
  }
}
