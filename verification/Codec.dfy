/** Internal keys: a user key followed by eight bytes of sequence number and type. */
module Codec {
  import opened Store

  const TWO_32: nat := 0x1_0000_0000

  // ----- varint32

  /** Seven bits a byte, low bits first; a high bit says that more follow. */
  function PutVarint32(v: nat): (b: Bytes)
    requires v < TWO_32
    ensures 1 <= |b|
  {
    if v < 128 then [v] else [128 + v % 128] + PutVarint32(v / 128)
  }

  /** The number at the front of b and how many bytes it takes; at most `limit` are read. */
  function GetVarint(b: Bytes, limit: nat): (r: Option<(nat, nat)>)
    ensures r.Some? ==> 1 <= r.value.1 <= |b|
    decreases limit
  {
    if limit == 0 || b == [] then None
    else if b[0] < 128 then Some((b[0], 1))
    else
      match GetVarint(b[1..], limit - 1)
      case None => None
      case Some((v, n)) => Some((b[0] - 128 + 128 * v, n + 1))
  }

  /** A value above 32 bits is cut down to 32, as the shifts of a uint32 do. */
  function GetVarint32(b: Bytes): (r: Option<(nat, nat)>)
    ensures r.Some? ==> 1 <= r.value.1 <= |b| && r.value.0 < TWO_32
  {
    match GetVarint(b, 5)
    case None => None
    case Some((v, n)) => Some((v % TWO_32, n))
  }

  /** v takes at most `bytes` groups of seven bits. */
  predicate FitsIn(v: nat, bytes: nat)
    decreases bytes
  {
    bytes > 0 && (v < 128 || FitsIn(v / 128, bytes - 1))
  }

  lemma {:induction false} VarintRoundTrip(v: nat, limit: nat, rest: Bytes)
    requires v < TWO_32 && FitsIn(v, limit)
    ensures GetVarint(PutVarint32(v) + rest, limit) == Some((v, |PutVarint32(v)|))
    decreases v
  {
    var b := PutVarint32(v) + rest;
    if v >= 128 {
      VarintRoundTrip(v / 128, limit - 1, rest);
      assert b[1..] == PutVarint32(v / 128) + rest;
    }
  }

  lemma FiveBytes(v: nat)
    requires v < TWO_32
    ensures FitsIn(v, 5)
  {
    var v1 := v / 128;
    var v2 := v1 / 128;
    var v3 := v2 / 128;
    assert v3 / 128 < 128;
    assert FitsIn(v3 / 128, 1);
    assert FitsIn(v3, 2);
    assert FitsIn(v2, 3);
    assert FitsIn(v1, 4);
  }

  // ----- length-prefixed slices

  function PutPrefixed(x: Bytes): Bytes
    requires |x| < TWO_32
  {
    PutVarint32(|x|) + x
  }

  /** The slice at the front of b, and what follows it. */
  function GetPrefixed(b: Bytes): Option<(Bytes, Bytes)> {
    match GetVarint32(b)
    case Some((len, n)) => if n + len <= |b| then Some((b[n..n + len], b[n + len..])) else None
    case None => None
  }

  lemma PrefixedRoundTrip(x: Bytes, rest: Bytes)
    requires |x| < TWO_32
    ensures GetPrefixed(PutPrefixed(x) + rest) == Some((x, rest))
  {
    hide PutVarint32, GetVarint, FitsIn;
    var b, n := PutPrefixed(x) + rest, |PutVarint32(|x|)|;
    FiveBytes(|x|);
    assert b == PutVarint32(|x|) + (x + rest);
    VarintRoundTrip(|x|, 5, x + rest);
    assert b[n..n + |x|] == x && b[n + |x|..] == rest;
  }

  // ----- fixed-width integers

  function PutFixed(v: nat, width: nat): (b: Bytes)
    ensures |b| == width
    decreases width
  {
    if width == 0 then [] else [v % 256] + PutFixed(v / 256, width - 1)
  }

  function GetFixed(b: Bytes): nat {
    if b == [] then 0 else b[0] + 256 * GetFixed(b[1..])
  }

  function Pow256(n: nat): nat {
    if n == 0 then 1 else 256 * Pow256(n - 1)
  }

  lemma {:induction false} FixedRoundTrip(v: nat, width: nat)
    requires v < Pow256(width)
    ensures GetFixed(PutFixed(v, width)) == v
    decreases width
  {
    if width > 0 {
      FixedRoundTrip(v / 256, width - 1);
      assert PutFixed(v, width)[1..] == PutFixed(v / 256, width - 1);
    }
  }

  lemma {:induction false} FixedInverse(b: Bytes)
    ensures GetFixed(b) < Pow256(|b|) && PutFixed(GetFixed(b), |b|) == b
  {
    if b != [] {
      FixedInverse(b[1..]);
      assert GetFixed(b) / 256 == GetFixed(b[1..]) && GetFixed(b) % 256 == b[0];
      assert b == [b[0]] + b[1..];
    }
  }

  lemma Pow256Of8()
    ensures Pow256(8) == 256 * (MAX_SEQUENCE + 1)
  {
    assert Pow256(1) == 256;
    assert Pow256(3) == 0x100_0000;
    assert Pow256(5) == 0x100_0000_0000;
    assert Pow256(7) == 0x100_0000_0000_0000;
  }

  // ----- internal keys

  datatype InternalKey = InternalKey(user: Bytes, seqno: nat, kind: Kind)

  function KindByte(kind: Kind): Byte {
    match kind case Deletion => 0 case Value => 1
  }

  function Tag(seqno: nat, kind: Kind): nat {
    seqno * 256 + KindByte(kind)
  }

  function AppendInternalKey(key: InternalKey): (b: Bytes)
    ensures |b| == |key.user| + 8
  {
    key.user + PutFixed(Tag(key.seqno, key.kind), 8)
  }

  function ExtractUserKey(b: Bytes): Bytes
    requires 8 <= |b|
  {
    b[..|b| - 8]
  }

  function ExtractTag(b: Bytes): nat
    requires 8 <= |b|
  {
    GetFixed(b[|b| - 8..])
  }

  function ParseInternalKey(b: Bytes): Option<InternalKey> {
    if |b| < 8 then None
    else
      var tag := ExtractTag(b);
      if tag % 256 > 1 then None
      else Some(InternalKey(ExtractUserKey(b), tag / 256, if tag % 256 == 1 then Value else Deletion))
  }

  lemma TagRoundTrip(user: Bytes, seqno: nat, kind: Kind)
    requires seqno <= MAX_SEQUENCE
    ensures var b := AppendInternalKey(InternalKey(user, seqno, kind));
            ExtractUserKey(b) == user && ExtractTag(b) == Tag(seqno, kind)
  {
    var b := AppendInternalKey(InternalKey(user, seqno, kind));
    assert b[..|b| - 8] == user && b[|b| - 8..] == PutFixed(Tag(seqno, kind), 8);
    Pow256Of8();
    FixedRoundTrip(Tag(seqno, kind), 8);
  }

  /** Parsing undoes appending, and nothing else parses to the key. */
  lemma InternalKeyRoundTrip(key: InternalKey, b: Bytes)
    requires key.seqno <= MAX_SEQUENCE
    ensures ParseInternalKey(b) == Some(key) <==> b == AppendInternalKey(key)
  {
    TagRoundTrip(key.user, key.seqno, key.kind);
    if ParseInternalKey(b) == Some(key) {
      FixedInverse(b[|b| - 8..]);
      assert ExtractTag(b) == Tag(key.seqno, key.kind);
      assert b == b[..|b| - 8] + b[|b| - 8..];
    }
  }

  /** Ascending user key, then descending tag. */
  function InternalCompare(cmp: Comparator, a: Bytes, b: Bytes): int
    requires 8 <= |a| && 8 <= |b|
  {
    var r := cmp(ExtractUserKey(a), ExtractUserKey(b));
    if r != 0 then r
    else if ExtractTag(a) > ExtractTag(b) then -1
    else if ExtractTag(a) < ExtractTag(b) then 1
    else 0
  }

  /** On appended keys: user keys ascending, for one user key the newest first, and at one
      sequence number a value before a deletion. */
  lemma CompareIsNewestFirst(cmp: Comparator, a: InternalKey, b: InternalKey)
    requires a.seqno <= MAX_SEQUENCE && b.seqno <= MAX_SEQUENCE
    ensures InternalCompare(cmp, AppendInternalKey(a), AppendInternalKey(b)) < 0 <==>
              || cmp(a.user, b.user) < 0
              || (Same(cmp, a.user, b.user) && (a.seqno > b.seqno || (a.seqno == b.seqno && a.kind.Value? && b.kind.Deletion?)))
    ensures InternalCompare(cmp, AppendInternalKey(a), AppendInternalKey(b)) == 0 <==>
              Same(cmp, a.user, b.user) && a.seqno == b.seqno && a.kind == b.kind
  {
    TagRoundTrip(a.user, a.seqno, a.kind);
    TagRoundTrip(b.user, b.seqno, b.kind);
  }

  // ----- the bytes themselves

  /** Numbers are stored low bits first. */
  lemma NumberBytes()
    ensures PutFixed(0x0102_0304_0506_0708, 8) == [8, 7, 6, 5, 4, 3, 2, 1]
    ensures PutVarint32(300) == [172, 2] && PutVarint32(127) == [127] && PutVarint32(128) == [128, 1]
  {
    assert PutFixed(0x0102_0304, 4) == [4, 3, 2, 1];
    assert PutFixed(0x0102_0304_05, 5) == [5] + PutFixed(0x0102_0304, 4);
    assert PutFixed(0x0102_0304_0506, 6) == [6] + PutFixed(0x0102_0304_05, 5);
    assert PutFixed(0x0102_0304_0506_07, 7) == [7] + PutFixed(0x0102_0304_0506, 6);
  }
}
