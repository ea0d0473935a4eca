/** The log file format: records cut into fragments that never cross a 32 KB block. */
module LogFormat {
  import opened Lists
  import opened Store

  const BLOCK: nat := 32768
  const HEADER: nat := 7

  const FULL: Byte := 1
  const FIRST: Byte := 2
  const MIDDLE: Byte := 3
  const LAST: Byte := 4

  ghost predicate FourBytes(crc: (Byte, Bytes) -> Bytes) {
    forall t, p :: |crc(t, p)| == 4
  }

  /** The masked checksum of a type byte and a payload, as stored in a header. */
  type Checksum = crc: (Byte, Bytes) -> Bytes | FourBytes(crc)
    ghost witness (t: Byte, p: Bytes) => [0, 0, 0, 0]

  /** A physical record. */
  datatype Fragment = Fragment(kind: Byte, payload: Bytes)

  function Zeros(n: nat): (z: Bytes)
    ensures |z| == n
  {
    seq(n, _ => 0)
  }

  /** The trailer to fill when fewer than a header's bytes are left in the block at p. */
  function Pad(p: nat): (n: nat)
    ensures n < HEADER && (p + n) % BLOCK <= BLOCK - HEADER
    ensures 0 < n ==> (p + n) % BLOCK == 0
  {
    var left := BLOCK - p % BLOCK;
    if left < HEADER then PadAligns(p); left else 0
  }

  lemma PadAligns(p: nat)
    ensures (p + (BLOCK - p % BLOCK)) % BLOCK == 0
  {
    assert p == p / BLOCK * BLOCK + p % BLOCK;
    assert p + (BLOCK - p % BLOCK) == (p / BLOCK + 1) * BLOCK;
    assert ((p / BLOCK + 1) * BLOCK) % BLOCK == 0;
  }

  /** Payload bytes that fit in the block after a header written at p. */
  function Avail(p: nat): nat {
    BLOCK - (p + Pad(p)) % BLOCK - HEADER
  }

  function Header(crc: Checksum, f: Fragment): (h: Bytes)
    requires |f.payload| < 65536
    ensures |h| == HEADER
  {
    crc(f.kind, f.payload) + [|f.payload| % 256, |f.payload| / 256, f.kind]
  }

  function EndOf(p: nat, f: Fragment): nat {
    p + Pad(p) + HEADER + |f.payload|
  }

  /** What the writer appends for a fragment when the file is p bytes long. */
  function Emit(crc: Checksum, p: nat, f: Fragment): (b: Bytes)
    requires |f.payload| < 65536
    ensures |b| == EndOf(p, f) - p
  {
    Zeros(Pad(p)) + Header(crc, f) + f.payload
  }

  function KindOf(begin: bool, end: bool): Byte {
    if begin && end then FULL else if begin then FIRST else if end then LAST else MIDDLE
  }

  function Min(a: nat, b: nat): nat {
    if a < b then a else b
  }

  /** A fragment that starts a new block leaves room for payload. */
  lemma NextBlockHasRoom(p: nat)
    ensures Avail(p) == 0 ==> 0 < Avail(p + Pad(p) + HEADER)
  {
    if Avail(p) == 0 {
      var q := p + Pad(p);
      assert q + HEADER == (q / BLOCK + 1) * BLOCK by { assert q == q / BLOCK * BLOCK + q % BLOCK; }
      assert (q + HEADER) % BLOCK == 0;
    }
  }

  /** The fragments of what is left of a record, written from position p. */
  function Cut(p: nat, left: Bytes, begin: bool): (fs: seq<Fragment>)
    ensures fs != [] && Fits(p, fs)
    decreases |left|, if Avail(p) == 0 then 1 else 0
  {
    var n := Min(|left|, Avail(p));
    var f := Fragment(KindOf(begin, n == |left|), left[..n]);
    if n == |left| then [f]
    else
      NextBlockHasRoom(p);
      [f] + Cut(EndOf(p, f), left[n..], false)
  }

  /** Each fragment stays inside its block. */
  predicate Fits(p: nat, fs: seq<Fragment>)
    decreases fs
  {
    fs == [] || (|fs[0].payload| <= Avail(p) && Fits(EndOf(p, fs[0]), fs[1..]))
  }

  function EndOfAll(p: nat, fs: seq<Fragment>): (e: nat)
    ensures p <= e
    decreases fs
  {
    if fs == [] then p else EndOfAll(EndOf(p, fs[0]), fs[1..])
  }

  function EmitAll(crc: Checksum, p: nat, fs: seq<Fragment>): (b: Bytes)
    requires Fits(p, fs)
    ensures |b| == EndOfAll(p, fs) - p
    decreases fs
  {
    if fs == [] then [] else Emit(crc, p, fs[0]) + EmitAll(crc, EndOf(p, fs[0]), fs[1..])
  }

  /** All fragments of a list of records written one after the other from position p. */
  function CutAll(p: nat, records: seq<Bytes>): (fs: seq<Fragment>)
    ensures Fits(p, fs)
    decreases records
  {
    if records == [] then []
    else
      var first := Cut(p, records[0], true);
      FitsConcat(p, first, CutAll(EndOfAll(p, first), records[1..]));
      first + CutAll(EndOfAll(p, first), records[1..])
  }

  lemma {:induction false} FitsConcat(p: nat, a: seq<Fragment>, b: seq<Fragment>)
    requires Fits(p, a) && Fits(EndOfAll(p, a), b)
    ensures Fits(p, a + b) && EndOfAll(p, a + b) == EndOfAll(EndOfAll(p, a), b)
    decreases a
  {
    if a == [] {
      assert a + b == b;
    } else {
      TailOfConcat(a, b);
      FitsConcat(EndOf(p, a[0]), a[1..], b);
    }
  }

  lemma {:induction false} EmitConcat(crc: Checksum, p: nat, a: seq<Fragment>, b: seq<Fragment>)
    requires Fits(p, a) && Fits(EndOfAll(p, a), b)
    ensures Fits(p, a + b)
    ensures EmitAll(crc, p, a + b) == EmitAll(crc, p, a) + EmitAll(crc, EndOfAll(p, a), b)
    decreases a
  {
    FitsConcat(p, a, b);
    if a == [] {
      assert a + b == b;
    } else {
      TailOfConcat(a, b);
      EmitConcat(crc, EndOf(p, a[0]), a[1..], b);
      Associative(Emit(crc, p, a[0]), EmitAll(crc, EndOf(p, a[0]), a[1..]), EmitAll(crc, EndOfAll(p, a), b));
    }
  }

  /** The first fragment of what is left of a record. */
  function FirstCut(p: nat, left: Bytes, begin: bool): (f: Fragment)
    ensures |f.payload| <= |left| && |f.payload| <= Avail(p)
  {
    var n := Min(|left|, Avail(p));
    Fragment(KindOf(begin, n == |left|), left[..n])
  }

  lemma EmitCut(crc: Checksum, p: nat, left: Bytes, begin: bool)
    ensures var f := FirstCut(p, left, begin);
            EmitAll(crc, p, Cut(p, left, begin))
            == Emit(crc, p, f) + if |f.payload| == |left| then []
                                 else EmitAll(crc, EndOf(p, f), Cut(EndOf(p, f), left[|f.payload|..], false))
  {
    var f := FirstCut(p, left, begin);
    var fs := Cut(p, left, begin);
    assert fs[0] == f;
    assert fs[1..] == if |f.payload| == |left| then [] else Cut(EndOf(p, f), left[|f.payload|..], false);
  }
}
