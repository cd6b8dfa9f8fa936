/** Time bounds on message ids (internal/store/ids.go): version 7 UUIDs of RFC 9562, compared byte by byte. */
module Ids {
  import opened Tables

  type Byte = b: int | 0 <= b < 256

  type Uuid = seq<Byte>

  const TWO_48: int := 0x1_0000_0000_0000
  const TWO_64: int := 0x1_0000_0000_0000_0000

  /** Where two ids first differ, the first is smaller. */
  ghost predicate Less(a: Uuid, b: Uuid)
    requires |a| == |b|
  {
    exists i :: 0 <= i < |a| && a[..i] == b[..i] && a[i] < b[i]
  }

  ghost predicate AtMost(a: Uuid, b: Uuid)
    requires |a| == |b|
  {
    a == b || Less(a, b)
  }

  /** Version 7 in the high bits of byte 6, the RFC variant in the high bits of byte 8. */
  predicate Version7(id: Uuid) { |id| == 16 && 0x70 <= id[6] <= 0x7f && 0x80 <= id[8] <= 0xbf }

  /** A big-endian number. */
  function Value(bs: seq<Byte>): nat
  {
    if bs == [] then 0 else Value(bs[..|bs| - 1]) * 256 + bs[|bs| - 1]
  }

  /** The creation time of an id, in Unix milliseconds. */
  function Timestamp(id: Uuid): nat
    requires Version7(id)
  {
    Value(id[..6])
  }

  /** The last whole millisecond at or before t, also before 1970. */
  function UnixMilli(t: Time): (ms: int)
    ensures ms * MILLISECOND <= t < (ms + 1) * MILLISECOND
  {
    t / MILLISECOND
  }

  /** The n low bytes of v, most significant first. */
  function BigEndian(v: nat, n: nat): (bs: seq<Byte>)
    ensures |bs| == n
  {
    if n == 0 then [] else BigEndian(v / 256, n - 1) + [v % 256]
  }

  /** The smallest version 7 id with the timestamp of t; the conversion to an unsigned integer wraps. */
  function LowerBound(t: Time): (id: Uuid)
    ensures Version7(id)
  {
    BigEndian(UnixMilli(t) % TWO_64, 8)[2..8] + [0x70, 0, 0x80, 0, 0, 0, 0, 0, 0, 0]
  }

  /** The bound as the code fills it in, byte by byte. */
  method FillLowerBound(t: Time) returns (id: array<Byte>)
    ensures fresh(id) && id[..] == LowerBound(t)
  {
    id := new Byte[16](_ => 0);
    var ts := BigEndian(UnixMilli(t) % TWO_64, 8);
    for i := 0 to 6
      invariant id[..i] == ts[2..2 + i]
      invariant forall j | 6 <= j < 16 :: id[j] == 0
    {
      id[i] := ts[2 + i];
    }
    assert id[..6] == ts[2..8];
    id[6] := 0x70;
    id[8] := 0x80;
    assert id[6..] == [0x70, 0, 0x80, 0, 0, 0, 0, 0, 0, 0];
    assert id[..] == id[..6] + id[6..];
  }

  // ---------------------------------------------------------------------------

  lemma LessSnoc(a: Uuid, b: Uuid)
    requires |a| == |b| > 0
    ensures var n := |a| - 1;
            Less(a, b) <==> Less(a[..n], b[..n]) || (a[..n] == b[..n] && a[n] < b[n])
  {
    var n := |a| - 1;
    if Less(a, b) {
      var i :| 0 <= i < |a| && a[..i] == b[..i] && a[i] < b[i];
      if i < n {
        assert a[..n][..i] == a[..i] && b[..n][..i] == b[..i];
      }
    }
    if Less(a[..n], b[..n]) {
      var i :| 0 <= i < n && a[..n][..i] == b[..n][..i] && a[..n][i] < b[..n][i];
      assert a[..n][..i] == a[..i] && b[..n][..i] == b[..i];
    }
  }

  /** Bytes compare as the numbers they spell. */
  lemma {:induction false} LessIsSmaller(a: seq<Byte>, b: seq<Byte>)
    requires |a| == |b|
    ensures Less(a, b) <==> Value(a) < Value(b)
    ensures a == b <==> Value(a) == Value(b)
  {
    if a != [] {
      var n := |a| - 1;
      LessSnoc(a, b);
      LessIsSmaller(a[..n], b[..n]);
      assert a == a[..n] + [a[n]] && b == b[..n] + [b[n]];
    }
  }

  /** A difference in a common-length prefix decides. */
  lemma PrefixDecides(a: Uuid, b: Uuid, k: nat)
    requires |a| == |b| && k <= |a|
    ensures Less(a[..k], b[..k]) ==> Less(a, b)
    ensures a[..k] == b[..k] ==> (Less(a, b) <==> Less(a[k..], b[k..]))
    ensures AtMost(a, b) ==> AtMost(a[..k], b[..k])
  {
    if Less(a[..k], b[..k]) {
      var i :| 0 <= i < k && a[..k][..i] == b[..k][..i] && a[..k][i] < b[..k][i];
      assert a[..i] == a[..k][..i] && b[..i] == b[..k][..i];
    }
    if Less(a, b) {
      var i :| 0 <= i < |a| && a[..i] == b[..i] && a[i] < b[i];
      if i < k {
        assert a[..k][..i] == a[..i] && b[..k][..i] == b[..i];
        assert Less(a[..k], b[..k]);
      } else {
        assert a[..k] == a[..i][..k] && b[..k] == b[..i][..k];
        assert a[k..][..i - k] == a[..i][k..] && b[k..][..i - k] == b[..i][k..];
        assert a[k..][i - k] == a[i] && b[k..][i - k] == b[i];
      }
    }
    if a[..k] == b[..k] && Less(a[k..], b[k..]) {
      var i :| 0 <= i < |a| - k && a[k..][..i] == b[k..][..i] && a[k..][i] < b[k..][i];
      assert a[..k + i] == a[..k] + a[k..][..i] && b[..k + i] == b[..k] + b[k..][..i];
    }
  }

  function Pow256(n: nat): nat { if n == 0 then 1 else 256 * Pow256(n - 1) }

  /** The high bytes do not show in the low ones. */
  lemma {:induction false} LowBytes(m: nat, r: nat, n: nat)
    ensures BigEndian(m * Pow256(n) + r, n) == BigEndian(r, n)
  {
    if n > 0 {
      var h := m * Pow256(n - 1);
      assert m * Pow256(n) == 256 * h;
      assert (256 * h + r) / 256 == h + r / 256 && (256 * h + r) % 256 == r % 256;
      LowBytes(m, r / 256, n - 1);
    }
  }

  lemma {:induction false} ValueOfBytes(v: nat, n: nat)
    requires v < Pow256(n)
    ensures Value(BigEndian(v, n)) == v
  {
    if n > 0 {
      ValueOfBytes(v / 256, n - 1);
      assert BigEndian(v, n)[..n - 1] == BigEndian(v / 256, n - 1);
    }
  }

  lemma {:induction false} DropHighBytes(v: nat, n: nat, k: nat)
    requires k <= n
    ensures BigEndian(v, n)[n - k..] == BigEndian(v, k)
  {
    if k > 0 {
      DropHighBytes(v / 256, n - 1, k - 1);
      assert BigEndian(v, n)[n - k..] == BigEndian(v / 256, n - 1)[n - k..] + [v % 256];
    }
  }

  lemma PowersOf256()
    ensures Pow256(6) == TWO_48
  {
    assert Pow256(1) == 256 && Pow256(2) == 65536 && Pow256(3) == 0x100_0000;
    assert Pow256(4) == 0x1_0000_0000 && Pow256(5) == 0x100_0000_0000;
  }

  lemma TimestampOfBound(t: Time)
    ensures Timestamp(LowerBound(t)) == UnixMilli(t) % TWO_48
  {
    var v := UnixMilli(t) % TWO_64;
    var m, r := v / TWO_48, v % TWO_48;
    PowersOf256();
    DropHighBytes(v, 8, 6);
    LowBytes(m, r, 6);
    ValueOfBytes(r, 6);
    assert LowerBound(t)[..6] == BigEndian(r, 6);
    assert TWO_64 == 65536 * TWO_48;
    Truncated(UnixMilli(t));
  }

  /** Keeping 64 bits and then 48 keeps 48. */
  lemma Truncated(x: int)
    ensures x % TWO_64 % TWO_48 == x % TWO_48
  {
    var q := x / TWO_64;
    assert x == TWO_48 * (65536 * q) + x % TWO_64;
  }

  /** Nothing in the last ten bytes of a version 7 id is smaller than the bound's. */
  lemma SmallestTail(id: Uuid, t: Time)
    requires Version7(id)
    ensures !Less(id[6..], LowerBound(t)[6..])
  {
    var a, b := id[6..], LowerBound(t)[6..];
    assert b == [0x70, 0, 0x80, 0, 0, 0, 0, 0, 0, 0];
    forall i | 0 <= i < 10 ensures a[i] >= b[i] {
    }
  }

  lemma Trichotomy(a: Uuid, b: Uuid)
    requires |a| == |b| && !Less(b, a)
    ensures AtMost(a, b)
  {
    BelowIsNotAtMost(b, a);
  }

  /**
   Filtering ids by a bound filters them by creation time: for every time, an id
   is at or above LowerBound(t) exactly when its timestamp is at or above the
   bound's, the Unix milliseconds of t modulo 2^48.
   */
  lemma BoundComparesTimes(id: Uuid, t: Time)
    requires Version7(id)
    ensures AtMost(LowerBound(t), id) <==> Timestamp(id) >= UnixMilli(t) % TWO_48
  {
    var b := LowerBound(t);
    TimestampOfBound(t);
    LessIsSmaller(b[..6], id[..6]);
    PrefixDecides(b, id, 6);
    if b[..6] == id[..6] {
      SmallestTail(id, t);
      Trichotomy(b[6..], id[6..]);
      if b[6..] == id[6..] {
        assert b == b[..6] + b[6..] && id == id[..6] + id[6..];
      }
    }
  }

  /** The bound itself is the smallest id of its millisecond. */
  lemma BoundIsSmallest(id: Uuid, t: Time)
    requires Version7(id) && Timestamp(id) == Timestamp(LowerBound(t))
    ensures AtMost(LowerBound(t), id)
  {
    TimestampOfBound(t);
    BoundComparesTimes(id, t);
  }

  lemma InRangeBound(id: Uuid, t: Time)
    requires Version7(id) && 0 <= UnixMilli(t) < TWO_48
    ensures AtMost(LowerBound(t), id) <==> Timestamp(id) >= UnixMilli(t)
  {
    BoundComparesTimes(id, t);
    assert UnixMilli(t) % TWO_48 == UnixMilli(t);
  }

  lemma BelowIsNotAtMost(a: Uuid, b: Uuid)
    requires |a| == |b|
    ensures Less(a, b) <==> !AtMost(b, a)
  {
    LessIsSmaller(a, b);
    LessIsSmaller(b, a);
  }

  /** The time filters of a listing select exactly the ids created in [since, until), to the millisecond. */
  lemma TimeWindow(id: Uuid, since: Time, until: Time)
    requires Version7(id) && 0 <= UnixMilli(since) < TWO_48 && 0 <= UnixMilli(until) < TWO_48
    ensures AtMost(LowerBound(since), id) && Less(id, LowerBound(until)) <==>
            UnixMilli(since) <= Timestamp(id) < UnixMilli(until)
  {
    InRangeBound(id, since);
    InRangeBound(id, until);
    BelowIsNotAtMost(id, LowerBound(until));
  }

  /** The documented promise: no id created at or after t is below the bound. */
  ghost predicate KeepsLaterIds(t: Time)
  {
    forall id: Uuid | Version7(id) && Timestamp(id) >= UnixMilli(t) :: AtMost(LowerBound(t), id)
  }

  /** The promise holds exactly for times from 1970 on (and for those a multiple of 2^48 ms before it). */
  lemma KeepsLaterIdsIff(t: Time)
    ensures KeepsLaterIds(t) <==> UnixMilli(t) >= 0 || UnixMilli(t) % TWO_48 == 0
  {
    forall id: Uuid | Version7(id) && Timestamp(id) >= UnixMilli(t)
      ensures AtMost(LowerBound(t), id) <==> Timestamp(id) >= UnixMilli(t) % TWO_48
    {
      BoundComparesTimes(id, t);
    }
    TimestampOfBound(0);
    assert Timestamp(LowerBound(0)) == 0;
    if UnixMilli(t) >= 0 {
      assert UnixMilli(t) % TWO_48 <= UnixMilli(t);
    } else if KeepsLaterIds(t) {
      assert AtMost(LowerBound(t), LowerBound(0));
    }
  }
}
