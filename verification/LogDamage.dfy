/** Bytes of a log overwritten in place: what a reader still returns. */
module LogDamage {
  import opened Lists
  import opened Store
  import opened LogFormat
  import opened LogReader
  import opened LogRoundTrip

  /** The checksum notices damage: where a fragment is no longer intact, the reader finds no
      physical record with a matching checksum other than that fragment. */
  ghost predicate ChecksumSound(crc: Checksum, file: Bytes, p: nat, fs: seq<Fragment>)
    decreases fs
  {
    fs == [] ||
    ((HasFragment(crc, file, p, fs[0]) || SoundAt(crc, file, p, fs[0])) && ChecksumSound(crc, file, EndOf(p, fs[0]), fs[1..]))
  }

  ghost predicate SoundAt(crc: Checksum, file: Bytes, p: nat, f: Fragment) {
    var q := p + Pad(p);
    q <= |file| && q + HEADER <= BlockEnd(file, q) && Parse(crc, file, q).0.Piece? ==>
      Parse(crc, file, q).0 == Piece(f.kind, f.payload)
  }

  /** Each fragment is intact unless its block is damaged. */
  ghost predicate IntactOutside(crc: Checksum, file: Bytes, p: nat, fs: seq<Fragment>, damaged: set<nat>)
    decreases fs
  {
    fs == [] ||
    (&& |fs[0].payload| <= Avail(p) && FULL <= fs[0].kind <= LAST
     && (BlockOf(p) in damaged || HasFragment(crc, file, p, fs[0]))
     && IntactOutside(crc, file, EndOf(p, fs[0]), fs[1..], damaged))
  }

  /** The block that a fragment written at p goes to. */
  function BlockOf(p: nat): nat {
    (p + Pad(p)) / BLOCK
  }

  // ----- skipping a damaged block

  /** The fragments left once those starting before e are dropped, and their position. */
  function Skip(p: nat, fs: seq<Fragment>, e: nat): (r: (nat, seq<Fragment>))
    ensures |r.1| <= |fs|
    ensures fs != [] && p + Pad(p) < e ==> |r.1| < |fs|
    decreases fs
  {
    if fs == [] || e <= p + Pad(p) then (p, fs) else Skip(EndOf(p, fs[0]), fs[1..], e)
  }

  /** Dropping the rest of a block, the reader lands on the first fragment of the next. */
  lemma {:induction false} SkipLands(crc: Checksum, file: Bytes, p: nat, fs: seq<Fragment>, start: nat, e: nat, damaged: set<nat>)
    requires IntactOutside(crc, file, p, fs, damaged) && EndOfAll(p, fs) == |file|
    requires start % BLOCK == 0 && e == Min(start + BLOCK, |file|) && start < p <= e
    ensures var (p', fs') := Skip(p, fs, e);
            && p <= p' <= e && EndOfAll(p', fs') == |file| && IntactOutside(crc, file, p', fs', damaged)
            && Events(crc, file, e) == Events(crc, file, p')
    decreases fs
  {
    hide Events, ReadPhysical;
    if fs == [] {
    } else if e <= p + Pad(p) {
      Landing(p, start, e, |file|, EndOf(p, fs[0]));
      EndsLater(EndOf(p, fs[0]), fs[1..]);
      AtPad(crc, file, p);
      SameEvents(crc, file, p, e);
    } else {
      EndsLater(EndOf(p, fs[0]), fs[1..]);
      StaysInBlock(p, start, fs[0]);
      SkipLands(crc, file, EndOf(p, fs[0]), fs[1..], start, e, damaged);
    }
  }

  lemma SameEvents(crc: Checksum, file: Bytes, p: nat, q: nat)
    requires p <= |file| && q <= |file| && ReadPhysical(crc, file, p) == ReadPhysical(crc, file, q)
    ensures Events(crc, file, p) == Events(crc, file, q)
  {
  }

  lemma EndsLater(p: nat, fs: seq<Fragment>)
    ensures p <= EndOfAll(p, fs)
  {
  }

  lemma Landing(p: nat, start: nat, e: nat, size: nat, end: nat)
    requires start % BLOCK == 0 && e == Min(start + BLOCK, size) && start < p <= e <= p + Pad(p) && p + Pad(p) < end <= size
    ensures p + Pad(p) == e
  {
    assert start == start / BLOCK * BLOCK;
    if p < e {
      assert p % BLOCK == p - start;
    }
  }

  lemma StaysInBlock(p: nat, start: nat, f: Fragment)
    requires start % BLOCK == 0 && start < p && p + Pad(p) < start + BLOCK && |f.payload| <= Avail(p)
    ensures EndOf(p, f) <= start + BLOCK && BlockOf(p) == start / BLOCK
  {
    assert start == start / BLOCK * BLOCK;
    var q := p + Pad(p);
    assert q % BLOCK == q - start;
  }

  /** The block of the i-th fragment. */
  function BlockAt(p: nat, fs: seq<Fragment>, i: nat): nat
    requires i < |fs|
    decreases fs
  {
    if i == 0 then BlockOf(p) else BlockAt(EndOf(p, fs[0]), fs[1..], i - 1)
  }

  lemma {:induction false} SkippedBlocks(p: nat, fs: seq<Fragment>, start: nat, e: nat, i: nat)
    requires Fits(p, fs) && start % BLOCK == 0 && e <= start + BLOCK && start < p
    requires i < |fs| - |Skip(p, fs, e).1|
    ensures BlockAt(p, fs, i) == start / BLOCK
    decreases fs
  {
    StaysInBlock(p, start, fs[0]);
    if 0 < i {
      SkippedBlocks(EndOf(p, fs[0]), fs[1..], start, e, i - 1);
    }
  }

  // ----- which fragments get through

  /** n fragments lost. */
  function Lost(n: nat): (flags: seq<bool>)
    ensures |flags| == n && forall i | 0 <= i < n :: !flags[i]
  {
    seq(n, _ => false)
  }

  /** For each fragment, whether a reader at p gets it. */
  ghost function Got(crc: Checksum, file: Bytes, p: nat, fs: seq<Fragment>): (got: seq<bool>)
    requires p <= |file|
    ensures |got| == |fs|
    decreases |fs|
  {
    if fs == [] then [] else
    match ReadPhysical(crc, file, p).0
    case Piece(_, _) => [true] + if EndOf(p, fs[0]) <= |file| then Got(crc, file, EndOf(p, fs[0]), fs[1..]) else Lost(|fs| - 1)
    case Eof => Lost(|fs|)
    case Bad(_) =>
      var (p', rest) := Skip(EndOf(p, fs[0]), fs[1..], ReadPhysical(crc, file, p).1);
      Lost(|fs| - |rest|) + if p' <= |file| then Got(crc, file, p', rest) else Lost(|rest|)
  }

  /** What a reader makes of the next fragment: it gets it, or its block is damaged and the
      rest of the block is dropped. */
  lemma NextFragment(crc: Checksum, file: Bytes, p: nat, fs: seq<Fragment>, damaged: set<nat>)
    requires fs != [] && IntactOutside(crc, file, p, fs, damaged) && ChecksumSound(crc, file, p, fs)
    requires EndOfAll(p, fs) == |file|
    ensures var (ev, next) := ReadPhysical(crc, file, p);
            var q := p + Pad(p);
            && q < EndOf(p, fs[0]) <= |file|
            && (ev.Piece? ==> ev == Piece(fs[0].kind, fs[0].payload) && next == EndOf(p, fs[0]))
            && (!ev.Piece? ==> BlockOf(p) in damaged && next == BlockEnd(file, q))
            && (ev.Eof? ==> BlockEnd(file, q) == |file|)
  {
    hide Parse;
    var q, f := p + Pad(p), fs[0];
    EndsLater(EndOf(p, f), fs[1..]);
    AtPad(crc, file, p);
    InsideBlock(file, p, f);
    if HasFragment(crc, file, p, f) {
      ReadFragment(crc, file, p, f);
    } else {
      ParseSound(crc, file, p, f);
    }
  }

  lemma ParseSound(crc: Checksum, file: Bytes, p: nat, f: Fragment)
    requires SoundAt(crc, file, p, f)
    requires var q := p + Pad(p); q <= |file| && q + HEADER <= BlockEnd(file, q)
    ensures var q := p + Pad(p);
            var (ev, next) := Parse(crc, file, q);
            && (ev.Piece? ==> ev == Piece(f.kind, f.payload) && next == EndOf(p, f))
            && (!ev.Piece? ==> next == BlockEnd(file, q))
            && (ev.Eof? ==> BlockEnd(file, q) == |file|)
  {
  }

  // ----- the stream a reader assembles from

  /** The fragments that get through, with a bad record in place of each one lost. */
  function Stream(fs: seq<Fragment>, got: seq<bool>): (es: seq<Event>)
    requires |fs| == |got|
  {
    if fs == [] then [] else [if got[0] then Piece(fs[0].kind, fs[0].payload) else Bad(true)] + Stream(fs[1..], got[1..])
  }

  /** Outside a fragmented record the scratch space does not matter. */
  lemma {:induction false} ScratchIrrelevant(es: seq<Event>, x: Bytes, y: Bytes)
    ensures Assemble(es, false, x) == Assemble(es, false, y)
  {
    if es != [] && !Stops(es[0]) {
      var a, b := Handle(es[0], false, x), Handle(es[0], false, y);
      if !a.inFragmented {
        ScratchIrrelevant(es[1..], a.scratch, b.scratch);
      }
    }
  }

  lemma AssembleHead(es: seq<Event>, inFragmented: bool, scratch: Bytes)
    requires es != [] && !Stops(es[0])
    ensures var o := Handle(es[0], inFragmented, scratch);
            && (o.record.None? ==> Assemble(es, inFragmented, scratch) == Assemble(es[1..], o.inFragmented, o.scratch))
            && (o.record.Some? ==> Assemble(es, inFragmented, scratch) == [o.record.value] + Assemble(es[1..], o.inFragmented, o.scratch))
  {
  }

  lemma AssembleNothing(inFragmented: bool, scratch: Bytes)
    ensures Assemble([], inFragmented, scratch) == []
  {
  }

  /** A run of lost fragments acts like one bad record. */
  lemma {:induction false} LostRun(fs: seq<Fragment>, got: seq<bool>, m: nat, inFragmented: bool, scratch: Bytes)
    requires |fs| == |got| && 0 < m <= |fs| && forall i | 0 <= i < m :: !got[i]
    ensures Assemble(Stream(fs, got), inFragmented, scratch) == Assemble(Stream(fs[m..], got[m..]), false, [])
  {
    var o := Handle(Bad(true), inFragmented, scratch);
    var es := Stream(fs, got);
    assert es[0] == Bad(true) && es[1..] == Stream(fs[1..], got[1..]);
    ScratchIrrelevant(es[1..], o.scratch, []);
    if m > 1 {
      LostRun(fs[1..], got[1..], m - 1, false, []);
      assert fs[1..][m - 1..] == fs[m..] && got[1..][m - 1..] == got[m..];
    }
  }

  lemma {:induction false} SkipSuffix(crc: Checksum, file: Bytes, p: nat, fs: seq<Fragment>, e: nat)
    requires ChecksumSound(crc, file, p, fs)
    ensures var (p', rest) := Skip(p, fs, e);
            rest == fs[|fs| - |rest|..] && ChecksumSound(crc, file, p', rest)
    decreases fs
  {
    if fs != [] && p + Pad(p) < e {
      SkipSuffix(crc, file, EndOf(p, fs[0]), fs[1..], e);
    }
  }

  /** Dropping the damaged rest of the block that holds the fragment at p. */
  lemma AfterBad(crc: Checksum, file: Bytes, p: nat, fs: seq<Fragment>, damaged: set<nat>)
    requires fs != [] && IntactOutside(crc, file, p, fs, damaged) && ChecksumSound(crc, file, p, fs)
    requires EndOfAll(p, fs) == |file| && p + Pad(p) <= |file|
    ensures var e := BlockEnd(file, p + Pad(p));
            var (p', rest) := Skip(EndOf(p, fs[0]), fs[1..], e);
            && p' <= e && EndOfAll(p', rest) == |file| && Events(crc, file, e) == Events(crc, file, p')
            && IntactOutside(crc, file, p', rest, damaged) && ChecksumSound(crc, file, p', rest)
            && rest == fs[|fs| - |rest|..] && |rest| < |fs|
  {
    var q := p + Pad(p);
    var e, start := BlockEnd(file, q), q - q % BLOCK;
    EndsLater(EndOf(p, fs[0]), fs[1..]);
    InsideBlock(file, p, fs[0]);
    assert start % BLOCK == 0 by { assert start == q / BLOCK * BLOCK; }
    SkipLands(crc, file, EndOf(p, fs[0]), fs[1..], start, e, damaged);
    SkipSuffix(crc, file, EndOf(p, fs[0]), fs[1..], e);
  }

  /** Reading the damaged file amounts to reading the stream of what got through. */
  lemma RestAsWell(crc: Checksum, file: Bytes, p: nat, fs: seq<Fragment>, damaged: set<nat>)
    requires fs != [] && IntactOutside(crc, file, p, fs, damaged) && ChecksumSound(crc, file, p, fs)
    ensures IntactOutside(crc, file, EndOf(p, fs[0]), fs[1..], damaged) && ChecksumSound(crc, file, EndOf(p, fs[0]), fs[1..])
  {
  }

  lemma {:induction false} DamagedEvents(crc: Checksum, file: Bytes, p: nat, fs: seq<Fragment>, damaged: set<nat>,
                                         inFragmented: bool, scratch: Bytes)
    requires IntactOutside(crc, file, p, fs, damaged) && ChecksumSound(crc, file, p, fs) && EndOfAll(p, fs) == |file|
    ensures p <= |file|
    ensures Assemble(Events(crc, file, p), inFragmented, scratch)
         == Assemble(Stream(fs, Got(crc, file, p, fs)), inFragmented, scratch)
    decreases |fs|
  {
    EndsLater(p, fs);
    if fs == [] {
      AtEnd(crc, file);
    } else {
      hide Assemble, Events, ReadPhysical, Skip, IntactOutside, ChecksumSound, Pad;
      NextFragment(crc, file, p, fs, damaged);
      RestAsWell(crc, file, p, fs, damaged);
      var (ev, next) := ReadPhysical(crc, file, p);
      var got := Got(crc, file, p, fs);
      AssembleCons(crc, file, p, inFragmented, scratch);
      match ev
      case Piece(kind, payload) =>
        var o := Handle(ev, inFragmented, scratch);
        DamagedEvents(crc, file, next, fs[1..], damaged, o.inFragmented, o.scratch);
        assert Stream(fs, got)[0] == ev && Stream(fs, got)[1..] == Stream(fs[1..], got[1..]);
        AssembleHead(Stream(fs, got), inFragmented, scratch);
      case Eof =>
        LostRun(fs, got, |fs|, inFragmented, scratch);
        assert fs[|fs|..] == [];
        AssembleNothing(false, []);
      case Bad(_) =>
        AfterBad(crc, file, p, fs, damaged);
        var (p', rest) := Skip(EndOf(p, fs[0]), fs[1..], next);
        ScratchIrrelevant(Events(crc, file, next), Handle(ev, inFragmented, scratch).scratch, []);
        DamagedEvents(crc, file, p', rest, damaged, false, []);
        var m := |fs| - |rest|;
        assert got[m..] == Got(crc, file, p', rest);
        LostRun(fs, got, m, inFragmented, scratch);
    }
  }

  // ----- only damaged blocks lose fragments

  lemma {:induction false} SkipBlockAt(p: nat, fs: seq<Fragment>, e: nat, i: nat)
    requires |fs| - |Skip(p, fs, e).1| <= i < |fs|
    ensures var (p', rest) := Skip(p, fs, e);
            BlockAt(p, fs, i) == BlockAt(p', rest, i - (|fs| - |rest|))
    decreases fs
  {
    if fs != [] && p + Pad(p) < e {
      SkipBlockAt(EndOf(p, fs[0]), fs[1..], e, i - 1);
    }
  }

  lemma {:induction false} SkipToEnd(p: nat, fs: seq<Fragment>, e: nat)
    requires EndOfAll(p, fs) <= e
    ensures Skip(p, fs, e).1 == []
    decreases fs
  {
    if fs != [] {
      EndsLater(EndOf(p, fs[0]), fs[1..]);
      SkipToEnd(EndOf(p, fs[0]), fs[1..], e);
    }
  }

  lemma {:induction false} IntactFits(crc: Checksum, file: Bytes, p: nat, fs: seq<Fragment>, damaged: set<nat>)
    requires IntactOutside(crc, file, p, fs, damaged)
    ensures Fits(p, fs)
    decreases fs
  {
    if fs != [] {
      IntactFits(crc, file, EndOf(p, fs[0]), fs[1..], damaged);
    }
  }

  /** The fragments dropped with a damaged block are all in that block. */
  lemma DroppedBlocks(crc: Checksum, file: Bytes, p: nat, fs: seq<Fragment>, damaged: set<nat>, i: nat)
    requires fs != [] && IntactOutside(crc, file, p, fs, damaged) && EndOfAll(p, fs) == |file| && p + Pad(p) <= |file|
    requires i < |fs| - |Skip(EndOf(p, fs[0]), fs[1..], BlockEnd(file, p + Pad(p))).1|
    ensures BlockAt(p, fs, i) == BlockOf(p)
  {
    var q := p + Pad(p);
    var e, start := BlockEnd(file, q), q - q % BLOCK;
    IntactFits(crc, file, p, fs, damaged);
    assert start % BLOCK == 0 && start / BLOCK == q / BLOCK by { assert start == q / BLOCK * BLOCK; }
    if 0 < i {
      SkippedBlocks(EndOf(p, fs[0]), fs[1..], start, e, i - 1);
    }
  }

  lemma GotPiece(crc: Checksum, file: Bytes, p: nat, fs: seq<Fragment>)
    requires fs != [] && p <= |file| && ReadPhysical(crc, file, p).0.Piece? && EndOf(p, fs[0]) <= |file|
    ensures Got(crc, file, p, fs) == [true] + Got(crc, file, EndOf(p, fs[0]), fs[1..])
  {
    hide ReadPhysical, Skip, EndOf;
  }

  /** Past the dropped fragments, what gets through is what a reader there gets. */
  lemma GotAfterBad(crc: Checksum, file: Bytes, p: nat, fs: seq<Fragment>, p': nat, rest: seq<Fragment>)
    requires fs != [] && p <= |file| && ReadPhysical(crc, file, p).0.Bad?
    requires (p', rest) == Skip(EndOf(p, fs[0]), fs[1..], ReadPhysical(crc, file, p).1) && p' <= |file|
    ensures Got(crc, file, p, fs) == Lost(|fs| - |rest|) + Got(crc, file, p', rest)
  {
    hide ReadPhysical, Skip, EndOf;
  }

  lemma {:induction false} LostMeansDamaged(crc: Checksum, file: Bytes, p: nat, fs: seq<Fragment>, damaged: set<nat>, i: nat)
    requires IntactOutside(crc, file, p, fs, damaged) && ChecksumSound(crc, file, p, fs)
    requires EndOfAll(p, fs) == |file| && p <= |file|
    requires i < |fs| && !Got(crc, file, p, fs)[i]
    ensures BlockAt(p, fs, i) in damaged
    decreases |fs|
  {
    hide ReadPhysical, Skip, IntactOutside, ChecksumSound, Pad, Got;
    NextFragment(crc, file, p, fs, damaged);
    RestAsWell(crc, file, p, fs, damaged);
    var (ev, next) := ReadPhysical(crc, file, p);
    if ev.Piece? {
      GotPiece(crc, file, p, fs);
      LostMeansDamaged(crc, file, next, fs[1..], damaged, i - 1);
    } else {
      var (p', rest) := Skip(EndOf(p, fs[0]), fs[1..], next);
      if i < |fs| - |rest| {
        DroppedBlocks(crc, file, p, fs, damaged, i);
      } else {
        LaterLost(crc, file, p, fs, damaged, i);
        LostMeansDamaged(crc, file, p', rest, damaged, i - (|fs| - |rest|));
      }
    }
  }

  lemma LaterLost(crc: Checksum, file: Bytes, p: nat, fs: seq<Fragment>, damaged: set<nat>, i: nat)
    requires fs != [] && IntactOutside(crc, file, p, fs, damaged) && ChecksumSound(crc, file, p, fs)
    requires EndOfAll(p, fs) == |file| && p <= |file| && !ReadPhysical(crc, file, p).0.Piece?
    requires i < |fs| && !Got(crc, file, p, fs)[i]
    requires |fs| - |Skip(EndOf(p, fs[0]), fs[1..], ReadPhysical(crc, file, p).1).1| <= i
    ensures var (p', rest) := Skip(EndOf(p, fs[0]), fs[1..], ReadPhysical(crc, file, p).1);
            var k := i - (|fs| - |rest|);
            && p' <= |file| && EndOfAll(p', rest) == |file| && |rest| < |fs|
            && IntactOutside(crc, file, p', rest, damaged) && ChecksumSound(crc, file, p', rest)
            && !Got(crc, file, p', rest)[k] && BlockAt(p, fs, i) == BlockAt(p', rest, k)
  {
    hide ReadPhysical, Skip, IntactOutside, ChecksumSound, Got, Events, Pad;
    var e := ReadPhysical(crc, file, p).1;
    var (p', rest) := Skip(EndOf(p, fs[0]), fs[1..], e);
    NextFragment(crc, file, p, fs, damaged);
    AfterBad(crc, file, p, fs, damaged);
    SkipBlockAt(EndOf(p, fs[0]), fs[1..], e, i - 1);
    if ReadPhysical(crc, file, p).0.Eof? {
      SkipToEnd(EndOf(p, fs[0]), fs[1..], e);
    } else {
      GotAfterBad(crc, file, p, fs, p', rest);
    }
  }

  // ----- what is lost without a report

  /** A header that the reader passes over in silence: it is zeroed, or it claims more bytes than
      the file has. */
  ghost predicate SilentAt(file: Bytes, q: nat) {
    && q <= |file| && q + HEADER <= BlockEnd(file, q)
    && var length := LengthField(file[q + 4], file[q + 5]);
       || (file[q + 6] == 0 && length == 0)
       || (BlockEnd(file, q) < q + HEADER + length && !FullBlock(file, q))
  }

  lemma SilentIff(crc: Checksum, file: Bytes, q: nat)
    requires q <= |file| && q + HEADER <= BlockEnd(file, q)
    ensures SilentAt(file, q) <==> Parse(crc, file, q).0 == Bad(false) || Parse(crc, file, q).0 == Eof
  {
  }

  /** One of the fragments written from p on has its header at q. */
  ghost predicate HeaderPlace(p: nat, fs: seq<Fragment>, q: nat)
    decreases fs
  {
    fs != [] && (q == p + Pad(p) || HeaderPlace(EndOf(p, fs[0]), fs[1..], q))
  }

  /** In block b a header of the log is one that is passed over in silence. */
  ghost predicate QuietBlock(file: Bytes, p: nat, fs: seq<Fragment>, b: nat) {
    exists q: nat :: HeaderPlace(p, fs, q) && q / BLOCK == b && SilentAt(file, q)
  }

  lemma {:induction false} SkipPlaces(p: nat, fs: seq<Fragment>, e: nat, q: nat)
    requires HeaderPlace(Skip(p, fs, e).0, Skip(p, fs, e).1, q)
    ensures HeaderPlace(p, fs, q)
    decreases fs
  {
    if fs != [] && p + Pad(p) < e {
      SkipPlaces(EndOf(p, fs[0]), fs[1..], e, q);
    }
  }

  lemma QuietHere(file: Bytes, p: nat, fs: seq<Fragment>)
    requires fs != [] && SilentAt(file, p + Pad(p))
    ensures QuietBlock(file, p, fs, BlockOf(p))
  {
    assert HeaderPlace(p, fs, p + Pad(p));
  }

  lemma QuietFromTail(file: Bytes, p: nat, fs: seq<Fragment>, b: nat)
    requires fs != [] && QuietBlock(file, EndOf(p, fs[0]), fs[1..], b)
    ensures QuietBlock(file, p, fs, b)
  {
    hide SilentAt;
    var q: nat :| HeaderPlace(EndOf(p, fs[0]), fs[1..], q) && q / BLOCK == b && SilentAt(file, q);
    assert HeaderPlace(p, fs, q);
  }

  lemma QuietFromSkip(file: Bytes, p: nat, fs: seq<Fragment>, e: nat, b: nat)
    requires QuietBlock(file, Skip(p, fs, e).0, Skip(p, fs, e).1, b)
    ensures QuietBlock(file, p, fs, b)
  {
    hide SilentAt;
    var q: nat :| HeaderPlace(Skip(p, fs, e).0, Skip(p, fs, e).1, q) && q / BLOCK == b && SilentAt(file, q);
    SkipPlaces(p, fs, e, q);
  }

  /** A reader at p makes no report, and does not get the i-th fragment from there. */
  ghost predicate QuietlyLost(crc: Checksum, file: Bytes, p: nat, fs: seq<Fragment>, damaged: set<nat>, i: nat, inFragmented: bool, scratch: Bytes) {
    && IntactOutside(crc, file, p, fs, damaged) && ChecksumSound(crc, file, p, fs) && EndOfAll(p, fs) == |file| && p <= |file|
    && i < |fs| && !Got(crc, file, p, fs)[i] && Reports(Events(crc, file, p), inFragmented, scratch) == 0
  }

  /** The same holds after a fragment that it gets. */
  lemma LostAfterPiece(crc: Checksum, file: Bytes, p: nat, fs: seq<Fragment>, damaged: set<nat>, i: nat, inFragmented: bool, scratch: Bytes)
    requires QuietlyLost(crc, file, p, fs, damaged, i, inFragmented, scratch) && ReadPhysical(crc, file, p).0.Piece?
    ensures !Stops(ReadPhysical(crc, file, p).0) && 0 < i
    ensures var o := Handle(ReadPhysical(crc, file, p).0, inFragmented, scratch);
            QuietlyLost(crc, file, EndOf(p, fs[0]), fs[1..], damaged, i - 1, o.inFragmented, o.scratch)
  {
    NotAStop(crc, file, p, fs, damaged);
    hide ReadPhysical, IntactOutside, ChecksumSound, Pad, Got, Events, Reports, Assemble, Handle;
    NextFragment(crc, file, p, fs, damaged);
    AssembleCons(crc, file, p, inFragmented, scratch);
    RestAsWell(crc, file, p, fs, damaged);
    GotPiece(crc, file, p, fs);
  }

  /** Where it does not get one, a header is passed over. */
  lemma LostInSilence(crc: Checksum, file: Bytes, p: nat, fs: seq<Fragment>, damaged: set<nat>, i: nat, inFragmented: bool, scratch: Bytes)
    requires QuietlyLost(crc, file, p, fs, damaged, i, inFragmented, scratch) && !ReadPhysical(crc, file, p).0.Piece?
    ensures SilentAt(file, p + Pad(p)) && p + Pad(p) <= |file| && ReadPhysical(crc, file, p).1 == BlockEnd(file, p + Pad(p))
  {
    BadIsReported(inFragmented, scratch);
    hide ReadPhysical, IntactOutside, ChecksumSound, Got, Events, Reports, Assemble, Handle, SilentAt;
    NextFragment(crc, file, p, fs, damaged);
    AssembleCons(crc, file, p, inFragmented, scratch);
    LostHere(crc, file, p, fs, damaged);
  }

  /** And the same holds past what is dropped with it. */
  lemma LostAfterDrop(crc: Checksum, file: Bytes, p: nat, fs: seq<Fragment>, damaged: set<nat>, i: nat, inFragmented: bool, scratch: Bytes)
    requires QuietlyLost(crc, file, p, fs, damaged, i, inFragmented, scratch) && !ReadPhysical(crc, file, p).0.Piece?
    requires |fs| - |Skip(EndOf(p, fs[0]), fs[1..], ReadPhysical(crc, file, p).1).1| <= i
    ensures !Stops(ReadPhysical(crc, file, p).0)
    ensures var (p', rest) := Skip(EndOf(p, fs[0]), fs[1..], ReadPhysical(crc, file, p).1);
            var o, k := Handle(ReadPhysical(crc, file, p).0, inFragmented, scratch), i - (|fs| - |rest|);
            && |rest| < |fs| && QuietlyLost(crc, file, p', rest, damaged, k, o.inFragmented, o.scratch)
            && BlockAt(p, fs, i) == BlockAt(p', rest, k)
  {
    hide ReadPhysical, Skip, IntactOutside, ChecksumSound, Pad, Got, Events, Reports, Assemble, Handle;
    LaterReports(crc, file, p, fs, damaged, i);
    NextFragment(crc, file, p, fs, damaged);
    AssembleCons(crc, file, p, inFragmented, scratch);
    LaterLost(crc, file, p, fs, damaged, i);
    AfterBad(crc, file, p, fs, damaged);
  }

  /** If reading makes no report, every fragment lost is in a block with such a header. */
  lemma {:induction false} QuietLoss(crc: Checksum, file: Bytes, p: nat, fs: seq<Fragment>, damaged: set<nat>, i: nat,
                                     inFragmented: bool, scratch: Bytes)
    requires QuietlyLost(crc, file, p, fs, damaged, i, inFragmented, scratch)
    ensures i < |fs| && QuietBlock(file, p, fs, BlockAt(p, fs, i))
    decreases |fs|
  {
    assert i < |fs| && p <= |file| && IntactOutside(crc, file, p, fs, damaged) && EndOfAll(p, fs) == |file|;
    hide ReadPhysical, Skip, QuietlyLost, SilentAt, Handle, QuietBlock, IntactOutside, Pad;
    var (ev, next) := ReadPhysical(crc, file, p);
    if ev.Piece? {
      LostAfterPiece(crc, file, p, fs, damaged, i, inFragmented, scratch);
      var o := Handle(ev, inFragmented, scratch);
      QuietLoss(crc, file, EndOf(p, fs[0]), fs[1..], damaged, i - 1, o.inFragmented, o.scratch);
      QuietFromTail(file, p, fs, BlockAt(EndOf(p, fs[0]), fs[1..], i - 1));
    } else {
      LostInSilence(crc, file, p, fs, damaged, i, inFragmented, scratch);
      var (p', rest) := Skip(EndOf(p, fs[0]), fs[1..], next);
      if i < |fs| - |rest| {
        DroppedBlocks(crc, file, p, fs, damaged, i);
        QuietHere(file, p, fs);
      } else {
        LostAfterDrop(crc, file, p, fs, damaged, i, inFragmented, scratch);
        var o := Handle(ev, inFragmented, scratch);
        QuietLoss(crc, file, p', rest, damaged, i - (|fs| - |rest|), o.inFragmented, o.scratch);
        QuietFromSkip(file, EndOf(p, fs[0]), fs[1..], next, BlockAt(p, fs, i));
        QuietFromTail(file, p, fs, BlockAt(p, fs, i));
      }
    }
  }

  lemma BadIsReported(inFragmented: bool, scratch: Bytes)
    ensures 0 < Handle(Bad(true), inFragmented, scratch).reports
  {
  }

  lemma NotAStop(crc: Checksum, file: Bytes, p: nat, fs: seq<Fragment>, damaged: set<nat>)
    requires fs != [] && IntactOutside(crc, file, p, fs, damaged) && ChecksumSound(crc, file, p, fs) && EndOfAll(p, fs) == |file|
    ensures p <= |file| && (ReadPhysical(crc, file, p).0.Piece? ==> !Stops(ReadPhysical(crc, file, p).0))
  {
    hide ReadPhysical, ChecksumSound;
    EndsLater(p, fs);
    NextFragment(crc, file, p, fs, damaged);
  }

  /** Where a fragment is lost, either there is a report or its header is passed over. */
  lemma LostHere(crc: Checksum, file: Bytes, p: nat, fs: seq<Fragment>, damaged: set<nat>)
    requires fs != [] && IntactOutside(crc, file, p, fs, damaged) && ChecksumSound(crc, file, p, fs)
    requires EndOfAll(p, fs) == |file| && p <= |file|
    ensures var ev := ReadPhysical(crc, file, p).0;
            ev.Piece? || ev == Bad(true) || SilentAt(file, p + Pad(p))
  {
    hide Parse, SilentAt, ChecksumSound;
    var q := p + Pad(p);
    EndsLater(EndOf(p, fs[0]), fs[1..]);
    AtPad(crc, file, p);
    InsideBlock(file, p, fs[0]);
    SilentIff(crc, file, q);
  }

  /** Past the end of the file nothing is left to be lost later. */
  lemma LaterReports(crc: Checksum, file: Bytes, p: nat, fs: seq<Fragment>, damaged: set<nat>, i: nat)
    requires fs != [] && IntactOutside(crc, file, p, fs, damaged) && ChecksumSound(crc, file, p, fs)
    requires EndOfAll(p, fs) == |file| && p <= |file| && !ReadPhysical(crc, file, p).0.Piece? && i < |fs|
    requires |fs| - |Skip(EndOf(p, fs[0]), fs[1..], ReadPhysical(crc, file, p).1).1| <= i
    ensures !ReadPhysical(crc, file, p).0.Eof?
  {
    hide ReadPhysical, Skip, IntactOutside, ChecksumSound, Pad;
    NextFragment(crc, file, p, fs, damaged);
    if ReadPhysical(crc, file, p).0.Eof? {
      SkipToEnd(EndOf(p, fs[0]), fs[1..], ReadPhysical(crc, file, p).1);
    }
  }

  // ----- whole records

  predicate All(got: seq<bool>) {
    forall i | 0 <= i < |got| :: got[i]
  }

  /** The records all of whose fragments got through. */
  function Kept(p: nat, records: seq<Bytes>, got: seq<bool>): seq<Bytes>
    requires |got| == |CutAll(p, records)|
    decreases records
  {
    if records == [] then []
    else
      var first := Cut(p, records[0], true);
      (if All(got[..|first|]) then [records[0]] else [])
      + Kept(EndOfAll(p, first), records[1..], got[|first|..])
  }

  lemma {:induction false} StreamConcat(a: seq<Fragment>, b: seq<Fragment>, got: seq<bool>)
    requires |got| == |a| + |b|
    ensures Stream(a + b, got) == Stream(a, got[..|a|]) + Stream(b, got[|a|..])
  {
    if a == [] {
      assert a + b == b;
    } else {
      TailOfConcat(a, b);
      StreamConcat(a[1..], b, got[1..]);
      assert got[1..][..|a| - 1] == got[..|a|][1..] && got[1..][|a| - 1..] == got[|a|..];
    }
  }

  lemma StreamHead(fs: seq<Fragment>, got: seq<bool>, es: seq<Event>)
    requires |fs| == |got| && fs != []
    ensures var stream := Stream(fs, got) + es;
            && stream[0] == (if got[0] then Piece(fs[0].kind, fs[0].payload) else Bad(true))
            && stream[1..] == Stream(fs[1..], got[1..]) + es
  {
    TailOfConcat(Stream(fs, got), es);
  }

  /** Once a fragment is lost, the rest of its record gives nothing. */
  lemma {:induction false} RestOfLost(p: nat, left: Bytes, got: seq<bool>, scratch: Bytes, es: seq<Event>)
    requires |got| == |Cut(p, left, false)|
    ensures Assemble(Stream(Cut(p, left, false), got) + es, false, scratch) == Assemble(es, false, [])
    decreases |got|
  {
    var f, fs := FirstCut(p, left, false), Cut(p, left, false);
    CutShape(p, left, false);
    StreamHead(fs, got, es);
    AssembleHead(Stream(fs, got) + es, false, scratch);
    if |f.payload| == |left| {
      assert Stream(fs[1..], got[1..]) + es == es;
      ScratchIrrelevant(es, scratch, []);
    } else {
      RestOfLost(EndOf(p, f), left[|f.payload|..], got[1..], scratch, es);
    }
  }

  /** A record's fragments yield the record if all are there and nothing otherwise, and
      leave the reader clean for the next record. */
  lemma {:induction false} AssembleRecord(p: nat, left: Bytes, begin: bool, got: seq<bool>, scratch: Bytes, es: seq<Event>)
    requires |got| == |Cut(p, left, begin)| && (begin ==> scratch == [])
    ensures Assemble(Stream(Cut(p, left, begin), got) + es, !begin, scratch)
         == (if All(got) then [scratch + left] else []) + Assemble(es, false, [])
    decreases |got|
  {
    var f, fs := FirstCut(p, left, begin), Cut(p, left, begin);
    CutShape(p, left, begin);
    StreamHead(fs, got, es);
    AssembleHead(Stream(fs, got) + es, !begin, scratch);
    assert All(got) <==> got[0] && All(got[1..]);
    var rest := left[|f.payload|..];
    if |f.payload| == |left| {
      assert f.payload == left && scratch + left == scratch + f.payload && ([] + left == left);
      assert Stream(fs[1..], got[1..]) + es == es;
    } else if got[0] {
      AssembleRecord(EndOf(p, f), rest, false, got[1..], scratch + f.payload, es);
      assert [] + f.payload == f.payload;
      assert left == f.payload + rest;
      Associative(scratch, f.payload, rest);
    } else {
      RestOfLost(EndOf(p, f), rest, got[1..], [], es);
    }
  }

  lemma {:induction false} AssembleRecords(p: nat, records: seq<Bytes>, got: seq<bool>)
    requires |got| == |CutAll(p, records)|
    ensures Assemble(Stream(CutAll(p, records), got), false, []) == Kept(p, records, got)
    decreases records
  {
    if records != [] {
      var first := Cut(p, records[0], true);
      var end := EndOfAll(p, first);
      var rest := CutAll(end, records[1..]);
      StreamConcat(first, rest, got);
      AssembleRecord(p, records[0], true, got[..|first|], [], Stream(rest, got[|first|..]));
      assert [] + records[0] == records[0];
      AssembleRecords(end, records[1..], got[|first|..]);
    }
  }

  // ----- from bytes to records

  /** The file is the log with bytes overwritten in the damaged blocks only. */
  ghost predicate OverwrittenIn(whole: Bytes, file: Bytes, damaged: set<nat>) {
    |file| == |whole| && forall i | 0 <= i < |file| :: i / BLOCK in damaged || file[i] == whole[i]
  }

  lemma OneBlock(p: nat, f: Fragment, k: nat)
    requires |f.payload| <= Avail(p) && p + Pad(p) <= k < EndOf(p, f)
    ensures k / BLOCK == BlockOf(p)
  {
    var q := p + Pad(p);
    assert q == q / BLOCK * BLOCK + q % BLOCK;
  }

  lemma FragmentSurvives(crc: Checksum, whole: Bytes, file: Bytes, p: nat, f: Fragment, damaged: set<nat>)
    requires OverwrittenIn(whole, file, damaged) && BlockOf(p) !in damaged
    requires HasFragment(crc, whole, p, f) && EndOf(p, f) <= |whole|
    ensures HasFragment(crc, file, p, f)
  {
    var q, e := p + Pad(p), EndOf(p, f);
    forall k | q <= k < e
      ensures file[k] == whole[k]
    {
      OneBlock(p, f, k);
    }
    assert file[q..e] == whole[q..e];
  }

  lemma {:induction false} IntactByBytes(crc: Checksum, whole: Bytes, file: Bytes, p: nat, fs: seq<Fragment>, damaged: set<nat>)
    requires OverwrittenIn(whole, file, damaged) && KindsOk(fs) && Fits(p, fs)
    requires HasFragments(crc, whole, p, fs) && EndOfAll(p, fs) <= |whole|
    ensures IntactOutside(crc, file, p, fs, damaged)
    decreases fs
  {
    if fs != [] {
      EndsLater(EndOf(p, fs[0]), fs[1..]);
      if BlockOf(p) !in damaged {
        FragmentSurvives(crc, whole, file, p, fs[0], damaged);
      }
      IntactByBytes(crc, whole, file, EndOf(p, fs[0]), fs[1..], damaged);
    }
  }

  lemma {:induction false} BlockAtConcat(p: nat, a: seq<Fragment>, b: seq<Fragment>, i: nat)
    requires i < |a| + |b|
    ensures BlockAt(p, a + b, i) == if i < |a| then BlockAt(p, a, i) else BlockAt(EndOfAll(p, a), b, i - |a|)
    decreases a
  {
    if a == [] {
      assert a + b == b;
    } else if 0 < i {
      TailOfConcat(a, b);
      BlockAtConcat(EndOf(p, a[0]), a[1..], b, i - 1);
    }
  }

  /** Of records written from p on, the j-th has a fragment in a damaged block. */
  ghost predicate Touched(p: nat, records: seq<Bytes>, j: nat, damaged: set<nat>)
    requires j < |records|
    decreases records
  {
    var first := Cut(p, records[0], true);
    if j == 0 then exists i | 0 <= i < |first| :: BlockAt(p, first, i) in damaged
    else Touched(EndOfAll(p, first), records[1..], j - 1, damaged)
  }

  /** The records with their flag set, in order. */
  function Select(records: seq<Bytes>, keep: seq<bool>): seq<Bytes>
    requires |keep| == |records|
  {
    if records == [] then [] else (if keep[0] then [records[0]] else []) + Select(records[1..], keep[1..])
  }

  /** A flag per fragment becomes a flag per record. */
  lemma {:induction false} ByRecord(p: nat, records: seq<Bytes>, got: seq<bool>, damaged: set<nat>) returns (keep: seq<bool>)
    requires |got| == |CutAll(p, records)|
    requires forall i | 0 <= i < |got| :: got[i] || BlockAt(p, CutAll(p, records), i) in damaged
    ensures |keep| == |records| && Kept(p, records, got) == Select(records, keep)
    ensures forall j | 0 <= j < |keep| :: keep[j] || Touched(p, records, j, damaged)
    decreases records
  {
    if records == [] {
      keep := [];
    } else {
      var first := Cut(p, records[0], true);
      var end := EndOfAll(p, first);
      var rest := CutAll(end, records[1..]);
      var mine, others := got[..|first|], got[|first|..];
      forall i | 0 <= i < |others|
        ensures others[i] || BlockAt(end, rest, i) in damaged
      {
        BlockAtConcat(p, first, rest, |first| + i);
        assert others[i] == got[|first| + i];
      }
      var tail := ByRecord(end, records[1..], others, damaged);
      keep := [All(mine)] + tail;
      if !All(mine) {
        var i :| 0 <= i < |mine| && !mine[i];
        BlockAtConcat(p, first, rest, i);
        assert BlockAt(p, first, i) in damaged;
      }
    }
  }

  /** A log that was not damaged meets the premise, whatever its payloads contain. */
  lemma {:induction false} IntactIsSound(crc: Checksum, file: Bytes, p: nat, fs: seq<Fragment>)
    requires HasFragments(crc, file, p, fs)
    ensures ChecksumSound(crc, file, p, fs)
    decreases fs
  {
    if fs != [] {
      IntactIsSound(crc, file, EndOf(p, fs[0]), fs[1..]);
    }
  }

  lemma UndamagedIsSound(crc: Checksum, records: seq<Bytes>)
    ensures ChecksumSound(crc, LogOf(crc, records), 0, CutAll(0, records))
  {
    var whole, fs := LogOf(crc, records), CutAll(0, records);
    CutAllKinds(0, records);
    assert whole[0..EndOfAll(0, fs)] == whole && whole[..|whole|] == whole;
    CutHasFragments(crc, whole, |whole|, 0, fs);
    IntactIsSound(crc, whole, 0, fs);
  }

  /** Damage is contained: with bytes overwritten in some blocks of a log, a reader returns
      only records that were written, whole and in order, and every record it misses has a
      fragment in one of those blocks. If nothing was reported, it has one in a block where a
      header was zeroed or claims more than the rest of the file. */
  lemma DamageContained(crc: Checksum, records: seq<Bytes>, file: Bytes, damaged: set<nat>) returns (keep: seq<bool>)
    requires OverwrittenIn(LogOf(crc, records), file, damaged)
    requires ChecksumSound(crc, file, 0, CutAll(0, records))
    ensures |keep| == |records| && ReadAll(crc, file) == Select(records, keep)
    ensures forall j | 0 <= j < |keep| :: keep[j] || Touched(0, records, j, damaged)
    ensures Reports(Events(crc, file, 0), false, []) == 0 ==>
              forall j | 0 <= j < |keep| :: keep[j] || Touched(0, records, j, QuietBlocks(file, records, damaged))
  {
    var whole, fs := LogOf(crc, records), CutAll(0, records);
    CutAllKinds(0, records);
    assert whole[0..EndOfAll(0, fs)] == whole && whole[..|whole|] == whole;
    CutHasFragments(crc, whole, |whole|, 0, fs);
    IntactByBytes(crc, whole, file, 0, fs, damaged);
    DamagedEvents(crc, file, 0, fs, damaged, false, []);
    var got := Got(crc, file, 0, fs);
    AssembleRecords(0, records, got);
    var quiet := Reports(Events(crc, file, 0), false, []) == 0;
    var blocks := if quiet then QuietBlocks(file, records, damaged) else damaged;
    forall i | 0 <= i < |got|
      ensures got[i] || BlockAt(0, fs, i) in blocks
    {
      if !got[i] {
        LostMeansDamaged(crc, file, 0, fs, damaged, i);
        if quiet {
          QuietLoss(crc, file, 0, fs, damaged, i, false, []);
        }
      }
    }
    keep := ByRecord(0, records, got, blocks);
    forall j | 0 <= j < |keep|
      ensures keep[j] || Touched(0, records, j, damaged)
    {
      if !keep[j] {
        TouchedMore(0, records, j, blocks, damaged);
      }
    }
  }

  /** The damaged blocks in which a header of the log is passed over in silence. */
  ghost function QuietBlocks(file: Bytes, records: seq<Bytes>, damaged: set<nat>): set<nat> {
    set b | b in damaged && QuietBlock(file, 0, CutAll(0, records), b)
  }

  lemma {:induction false} TouchedMore(p: nat, records: seq<Bytes>, j: nat, some: set<nat>, more: set<nat>)
    requires j < |records| && Touched(p, records, j, some) && some <= more
    ensures Touched(p, records, j, more)
    decreases records
  {
    if 0 < j {
      TouchedMore(EndOfAll(p, Cut(p, records[0], true)), records[1..], j - 1, some, more);
    }
  }
}
