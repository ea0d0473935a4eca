/** What is written is read back, for every file length the log may be cut at. */
module LogRoundTrip {
  import opened Lists
  import opened Store
  import opened LogFormat
  import opened LogReader
  import LogWriter

  // ----- one fragment

  /** The reader skips a trailer just as the writer leaves it. */
  lemma AtPad(crc: Checksum, file: Bytes, p: nat)
    requires p + Pad(p) <= |file|
    ensures ReadPhysical(crc, file, p) == ReadPhysical(crc, file, p + Pad(p))
  {
  }

  /** A fragment's header and payload lie inside one block. */
  lemma InsideBlock(file: Bytes, p: nat, f: Fragment)
    requires |f.payload| <= Avail(p) && p + Pad(p) <= |file|
    ensures var q := p + Pad(p);
            BlockEnd(file, q) == Min(q - q % BLOCK + BLOCK, |file|) && EndOf(p, f) <= q - q % BLOCK + BLOCK
  {
  }

  /** The bytes of a fragment, as far as the file goes. */
  ghost predicate HasFragment(crc: Checksum, file: Bytes, p: nat, f: Fragment) {
    && |f.payload| <= Avail(p) && FULL <= f.kind <= LAST
    && var q, bytes := p + Pad(p), Header(crc, f) + f.payload;
       q <= |file| ==> file[q..Min(|file|, EndOf(p, f))] == bytes[..Min(|file|, EndOf(p, f)) - q]
  }

  lemma HeaderFields(crc: Checksum, f: Fragment, bytes: Bytes, file: Bytes, q: nat)
    requires |f.payload| < 65536 && q + |bytes| <= |file| && file[q..q + |bytes|] == bytes
    requires HEADER <= |bytes| <= HEADER + |f.payload| && bytes == (Header(crc, f) + f.payload)[..|bytes|]
    ensures file[q..q + 4] == crc(f.kind, f.payload) && LengthField(file[q + 4], file[q + 5]) == |f.payload|
    ensures file[q + 6] == f.kind
    ensures |bytes| == HEADER + |f.payload| ==> file[q + HEADER..q + |bytes|] == f.payload
  {
    assert file[q..q + 4] == bytes[..4];
    assert file[q + 4] == bytes[4] && file[q + 5] == bytes[5] && file[q + 6] == bytes[6];
    assert file[q + HEADER..q + |bytes|] == bytes[HEADER..];
  }

  lemma ParseFragment(crc: Checksum, file: Bytes, q: nat, f: Fragment)
    requires q <= |file| && q + HEADER + |f.payload| <= BlockEnd(file, q) && FULL <= f.kind
    requires file[q..q + 4] == crc(f.kind, f.payload) && LengthField(file[q + 4], file[q + 5]) == |f.payload|
    requires file[q + 6] == f.kind && file[q + HEADER..q + HEADER + |f.payload|] == f.payload
    ensures Parse(crc, file, q) == (Piece(f.kind, f.payload), q + HEADER + |f.payload|)
  {
  }

  lemma ReadFragment(crc: Checksum, file: Bytes, p: nat, f: Fragment)
    requires HasFragment(crc, file, p, f) && EndOf(p, f) <= |file|
    ensures ReadPhysical(crc, file, p) == (Piece(f.kind, f.payload), EndOf(p, f))
  {
    hide Parse, Header;
    var q := p + Pad(p);
    InsideBlock(file, p, f);
    HeaderFields(crc, f, file[q..EndOf(p, f)], file, q);
    ParseFragment(crc, file, q, f);
    calc {
      ReadPhysical(crc, file, p);
      { AtPad(crc, file, p); }
      ReadPhysical(crc, file, q);
      Parse(crc, file, q);
      (Piece(f.kind, f.payload), q + HEADER + |f.payload|);
      (Piece(f.kind, f.payload), EndOf(p, f));
    }
  }

  lemma TruncatedFragment(crc: Checksum, file: Bytes, p: nat, f: Fragment)
    requires HasFragment(crc, file, p, f) && p <= |file| < EndOf(p, f)
    ensures ReadPhysical(crc, file, p).0 == Eof
  {
    var q := p + Pad(p);
    if q <= |file| {
      AtPad(crc, file, p);
      InsideBlock(file, p, f);
      if q + HEADER <= |file| {
        HeaderFields(crc, f, file[q..], file, q);
      }
    }
  }

  /** A file of two fragments, the first of them without payload and of any kind. */
  lemma TwoFragments(crc: Checksum, kind: Byte, x: Bytes)
    requires FULL <= kind && |x| <= BLOCK - 2 * HEADER
    ensures var file := Header(crc, Fragment(kind, [])) + (Header(crc, Fragment(FULL, x)) + x);
            Events(crc, file, 0) == [Piece(kind, []), Piece(FULL, x)]
  {
    hide Events, Header;
    var f, g := Fragment(kind, []), Fragment(FULL, x);
    var a, b := Header(crc, f), Header(crc, g) + x;
    var file := a + b;
    assert |file| == 2 * HEADER + |x| <= BLOCK;
    assert file[0..HEADER] == a && file[HEADER..] == b && file[HEADER..HEADER + |b|] == b;
    assert (Header(crc, f) + f.payload)[..HEADER] == a && (Header(crc, g) + g.payload)[..|b|] == b;
    HeaderFields(crc, f, a, file, 0);
    HeaderFields(crc, g, b, file, HEADER);
    ParseFragment(crc, file, 0, f);
    ParseFragment(crc, file, HEADER, g);
    ThreeEvents(crc, file, Piece(kind, []), HEADER, Piece(FULL, x));
  }

  lemma ThreeEvents(crc: Checksum, file: Bytes, x: Event, at: nat, y: Event)
    requires at <= |file| && !x.Eof? && !y.Eof?
    requires ReadPhysical(crc, file, 0) == (x, at) && ReadPhysical(crc, file, at) == (y, |file|)
    ensures Events(crc, file, 0) == [x, y]
  {
    AtEnd(crc, file);
    assert Events(crc, file, |file|) == [];
    assert Events(crc, file, at) == [y] + [];
    assert Events(crc, file, 0) == [x] + Events(crc, file, at);
  }

  /** A record that carries the reader's code for end of file hides the good record after it;
      one that carries the code for a bad record does not, and is not reported; any other unknown
      type is. */
  lemma CodesInTheFile(crc: Checksum, kind: Byte, x: Bytes)
    requires LAST < kind && |x| <= BLOCK - 2 * HEADER
    ensures var file := Header(crc, Fragment(kind, [])) + (Header(crc, Fragment(FULL, x)) + x);
            && ReadAll(crc, file) == (if kind == EOF then [] else [x])
            && Reports(Events(crc, file, 0), false, []) == if kind == EOF || kind == BADRECORD then 0 else 1
  {
    hide Header, Events, Assemble, Reports;
    TwoFragments(crc, kind, x);
    CodeThenRecord(kind, x);
  }

  lemma CodeThenRecord(kind: Byte, x: Bytes)
    requires LAST < kind
    ensures var es := [Piece(kind, []), Piece(FULL, x)];
            && Assemble(es, false, []) == (if kind == EOF then [] else [x])
            && Reports(es, false, []) == if kind == EOF || kind == BADRECORD then 0 else 1
  {
    var good, es := [Piece(FULL, x)], [Piece(kind, []), Piece(FULL, x)];
    assert good[1..] == [] && es[1..] == good;
    assert Assemble([], false, []) == [] && Reports([], false, []) == 0;
    assert Assemble(good, false, []) == [x];
    assert Reports(good, false, []) == 0;
  }

  /** A record whose payload does not match its checksum is dropped and reported once. */
  lemma MismatchReported(crc: Checksum, x: Bytes, y: Bytes)
    requires |y| == |x| <= BLOCK - HEADER && crc(FULL, y) != crc(FULL, x)
    ensures var file := Header(crc, Fragment(FULL, x)) + y;
            ReadAll(crc, file) == [] && Reports(Events(crc, file, 0), false, []) == 1
  {
    var h := Header(crc, Fragment(FULL, x));
    var file := h + y;
    assert file[0..4] == crc(FULL, x) && file[4] == |x| % 256 && file[5] == |x| / 256 && file[6] == FULL;
    assert file[HEADER..HEADER + |x|] == y && LengthField(file[4], file[5]) == |x|;
    assert ReadPhysical(crc, file, 0) == (Bad(true), |file|);
    AtEnd(crc, file);
    assert Events(crc, file, |file|) == [];
    assert Events(crc, file, 0) == [Bad(true)] + [];
    AssembleCons(crc, file, 0, false, []);
    AssembleCons(crc, file, |file|, false, []);
  }

  /** Pieces that make no record, and what is reported of them: a record cut off by another or by
      an error, unless it was empty so far, and pieces without a beginning. A record cut off by the
      end of the file is not reported. */
  lemma LoosePieces(x: Bytes, y: Bytes, reported: bool)
    ensures Assemble([Piece(FIRST, x), Piece(FULL, y)], false, []) == [y]
    ensures Reports([Piece(FIRST, x), Piece(FULL, y)], false, []) == if x == [] then 0 else 1
    ensures Assemble([Piece(FIRST, x), Piece(FIRST, y), Piece(LAST, x)], false, []) == [y + x]
    ensures Reports([Piece(FIRST, x), Piece(FIRST, y), Piece(LAST, x)], false, []) == if x == [] then 0 else 1
    ensures Assemble([Piece(MIDDLE, x), Piece(LAST, y)], false, []) == [] && Reports([Piece(MIDDLE, x), Piece(LAST, y)], false, []) == 2
    ensures Assemble([Piece(FIRST, x), Bad(reported), Piece(LAST, y)], false, []) == []
    ensures Reports([Piece(FIRST, x), Bad(reported), Piece(LAST, y)], false, []) == if reported then 3 else 2
    ensures Assemble([Piece(FIRST, x), Piece(MIDDLE, y)], false, []) == [] && Reports([Piece(FIRST, x), Piece(MIDDLE, y)], false, []) == 0
  {
    TwoPieces(Piece(FIRST, x), Piece(FULL, y));
    TwoPieces(Piece(MIDDLE, x), Piece(LAST, y));
    TwoPieces(Piece(FIRST, x), Piece(MIDDLE, y));
    ThreePieces(Piece(FIRST, x), Piece(FIRST, y), Piece(LAST, x));
    ThreePieces(Piece(FIRST, x), Bad(reported), Piece(LAST, y));
  }

  lemma TwoPieces(a: Event, b: Event)
    requires !Stops(a) && !Stops(b)
    ensures var o := Handle(a, false, []);
            var o' := Handle(b, o.inFragmented, o.scratch);
            && Assemble([a, b], false, []) == (if o.record.Some? then [o.record.value] else []) + (if o'.record.Some? then [o'.record.value] else [])
            && Reports([a, b], false, []) == o.reports + o'.reports
  {
    var o := Handle(a, false, []);
    LastPiece(b, o.inFragmented, o.scratch);
    assert [a, b][1..] == [b];
  }

  lemma LastPiece(b: Event, inFragmented: bool, scratch: Bytes)
    requires !Stops(b)
    ensures var o := Handle(b, inFragmented, scratch);
            && Assemble([b], inFragmented, scratch) == (if o.record.Some? then [o.record.value] else [])
            && Reports([b], inFragmented, scratch) == o.reports
  {
    assert [b][1..] == [];
  }

  lemma ThreePieces(a: Event, b: Event, c: Event)
    requires !Stops(a) && !Stops(b) && !Stops(c) && Handle(a, false, []).record.None?
    ensures var o := Handle(a, false, []);
            var o' := Handle(b, o.inFragmented, o.scratch);
            var o'' := Handle(c, o'.inFragmented, o'.scratch);
            && Assemble([a, b, c], false, []) == (if o'.record.Some? then [o'.record.value] else []) + (if o''.record.Some? then [o''.record.value] else [])
            && Reports([a, b, c], false, []) == o.reports + o'.reports + o''.reports
  {
    var o := Handle(a, false, []);
    var o' := Handle(b, o.inFragmented, o.scratch);
    LastPiece(c, o'.inFragmented, o'.scratch);
    assert [a, b, c][1..] == [b, c] && [b, c][1..] == [c];
    assert Reports([b, c], o.inFragmented, o.scratch) == o'.reports + Reports([c], o'.inFragmented, o'.scratch);
  }

  // ----- a run of fragments

  /** The file holds these fragments from p on, as far as it goes. */
  ghost predicate HasFragments(crc: Checksum, file: Bytes, p: nat, fs: seq<Fragment>)
    decreases fs
  {
    fs == [] || (HasFragment(crc, file, p, fs[0]) && HasFragments(crc, file, EndOf(p, fs[0]), fs[1..]))
  }

  predicate KindsOk(fs: seq<Fragment>) {
    forall f | f in fs :: FULL <= f.kind <= LAST
  }

  lemma EmitHasFragment(crc: Checksum, whole: Bytes, n: nat, p: nat, f: Fragment)
    requires |f.payload| <= Avail(p) && FULL <= f.kind <= LAST
    requires n <= |whole| && EndOf(p, f) <= |whole| && whole[p..EndOf(p, f)] == Emit(crc, p, f)
    ensures HasFragment(crc, whole[..n], p, f)
  {
    var q, e := p + Pad(p), EndOf(p, f);
    assert whole[q..e] == whole[p..e][Pad(p)..] == Header(crc, f) + f.payload;
    if q <= n {
      TakeSlice(whole, n, q, Min(n, e), e);
    }
  }

  lemma TakeSlice(whole: Bytes, n: nat, q: nat, m: nat, e: nat)
    requires q <= m <= n <= |whole| && m <= e <= |whole|
    ensures whole[..n][q..m] == whole[q..e][..m - q]
  {
    assert whole[..n][q..m] == whole[q..m];
    assert whole[q..e][..m - q] == whole[q..m];
  }

  lemma SplitSlice(whole: Bytes, a: nat, b: nat, c: nat, x: Bytes, y: Bytes)
    requires a <= b <= c <= |whole| && |x| == b - a && whole[a..c] == x + y
    ensures whole[a..b] == x && whole[b..c] == y
  {
    assert whole[a..b] == whole[a..c][..b - a];
    assert whole[b..c] == whole[a..c][b - a..];
  }

  /** Cutting a file that holds fragments leaves a file that holds them as far as it goes. */
  lemma {:induction false} CutHasFragments(crc: Checksum, whole: Bytes, n: nat, p: nat, fs: seq<Fragment>)
    requires Fits(p, fs) && KindsOk(fs) && n <= |whole|
    requires EndOfAll(p, fs) <= |whole| && whole[p..EndOfAll(p, fs)] == EmitAll(crc, p, fs)
    ensures HasFragments(crc, whole[..n], p, fs)
    decreases fs
  {
    if fs != [] {
      var e := EndOf(p, fs[0]);
      SplitSlice(whole, p, e, EndOfAll(p, fs), Emit(crc, p, fs[0]), EmitAll(crc, e, fs[1..]));
      EmitHasFragment(crc, whole, n, p, fs[0]);
      CutHasFragments(crc, whole, n, e, fs[1..]);
    }
  }

  lemma {:induction false} CutKinds(p: nat, left: Bytes, begin: bool)
    ensures KindsOk(Cut(p, left, begin))
    decreases |left|, if Avail(p) == 0 then 1 else 0
  {
    var f := FirstCut(p, left, begin);
    NextBlockHasRoom(p);
    if |f.payload| != |left| {
      CutKinds(EndOf(p, f), left[|f.payload|..], false);
    }
  }

  lemma {:induction false} CutAllKinds(p: nat, records: seq<Bytes>)
    ensures KindsOk(CutAll(p, records))
    decreases records
  {
    if records != [] {
      CutKinds(p, records[0], true);
      CutAllKinds(EndOfAll(p, Cut(p, records[0], true)), records[1..]);
    }
  }

  // ----- one record

  lemma CutShape(p: nat, left: Bytes, begin: bool)
    ensures var f, fs := FirstCut(p, left, begin), Cut(p, left, begin);
            && fs[0] == f && f.payload == left[..|f.payload|]
            && fs[1..] == if |f.payload| == |left| then [] else Cut(EndOf(p, f), left[|f.payload|..], false)
  {
  }

  /** The rest of a record that the file holds completely is assembled, without a report. */
  lemma {:induction false} CompleteRecord(crc: Checksum, file: Bytes, p: nat, left: Bytes, begin: bool, scratch: Bytes)
    requires HasFragments(crc, file, p, Cut(p, left, begin)) && EndOfAll(p, Cut(p, left, begin)) <= |file|
    requires begin ==> scratch == []
    ensures var end := EndOfAll(p, Cut(p, left, begin));
            && Assemble(Events(crc, file, p), !begin, scratch) == [scratch + left] + Assemble(Events(crc, file, end), false, [])
            && Reports(Events(crc, file, p), !begin, scratch) == Reports(Events(crc, file, end), false, [])
    decreases |Cut(p, left, begin)|
  {
    hide Assemble, Reports, Events, ReadPhysical;
    var f := FirstCut(p, left, begin);
    CutShape(p, left, begin);
    ReadFragment(crc, file, p, f);
    AssembleCons(crc, file, p, !begin, scratch);
    assert [] + f.payload == f.payload;
    if |f.payload| == |left| {
      assert f.payload == left;
    } else {
      var rest := left[|f.payload|..];
      CompleteRecord(crc, file, EndOf(p, f), rest, false, scratch + f.payload);
      Associative(scratch, f.payload, rest);
      assert f.payload + rest == left;
    }
  }

  /** The rest of a record that is cut short gives nothing, and no report either. */
  lemma {:induction false} PartialRecord(crc: Checksum, file: Bytes, p: nat, left: Bytes, begin: bool, scratch: Bytes)
    requires HasFragments(crc, file, p, Cut(p, left, begin)) && p <= |file| < EndOfAll(p, Cut(p, left, begin))
    requires begin ==> scratch == []
    ensures Assemble(Events(crc, file, p), !begin, scratch) == [] && Reports(Events(crc, file, p), !begin, scratch) == 0
    decreases |Cut(p, left, begin)|
  {
    hide Assemble, Reports, Events, ReadPhysical;
    var f := FirstCut(p, left, begin);
    CutShape(p, left, begin);
    if |file| < EndOf(p, f) {
      TruncatedFragment(crc, file, p, f);
      AssembleCons(crc, file, p, !begin, scratch);
    } else {
      ReadFragment(crc, file, p, f);
      AssembleCons(crc, file, p, !begin, scratch);
      assert [] + f.payload == f.payload;
      PartialRecord(crc, file, EndOf(p, f), left[|f.payload|..], false, scratch + f.payload);
    }
  }

  // ----- the whole file

  /** How many records, written from p on, end within the first n bytes. */
  function Complete(p: nat, records: seq<Bytes>, n: nat): (k: nat)
    ensures k <= |records|
    decreases records
  {
    if records == [] then 0
    else
      var end := EndOfAll(p, Cut(p, records[0], true));
      if end <= n then 1 + Complete(end, records[1..], n) else 0
  }

  lemma {:induction false} HasConcat(crc: Checksum, file: Bytes, p: nat, a: seq<Fragment>, b: seq<Fragment>)
    requires HasFragments(crc, file, p, a + b)
    ensures HasFragments(crc, file, p, a) && HasFragments(crc, file, EndOfAll(p, a), b)
    decreases a
  {
    if a == [] {
      assert a + b == b;
    } else {
      TailOfConcat(a, b);
      HasConcat(crc, file, EndOf(p, a[0]), a[1..], b);
    }
  }

  lemma {:induction false} ReadRecords(crc: Checksum, file: Bytes, p: nat, records: seq<Bytes>)
    requires HasFragments(crc, file, p, CutAll(p, records)) && p <= |file| <= EndOfAll(p, CutAll(p, records))
    ensures Assemble(Events(crc, file, p), false, []) == records[..Complete(p, records, |file|)]
    ensures Reports(Events(crc, file, p), false, []) == 0
    decreases records
  {
    if records == [] {
      AtEnd(crc, file);
    } else {
      hide Assemble, Reports, Events, Cut;
      var first := Cut(p, records[0], true);
      var end := EndOfAll(p, first);
      var rest := CutAll(end, records[1..]);
      HasConcat(crc, file, p, first, rest);
      FitsConcat(p, first, rest);
      if end <= |file| {
        CompleteRecord(crc, file, p, records[0], true, []);
        assert [] + records[0] == records[0];
        ReadRecords(crc, file, end, records[1..]);
        TakeCons(records, Complete(end, records[1..], |file|));
      } else {
        PartialRecord(crc, file, p, records[0], true, []);
      }
    }
  }

  lemma TakeCons<T>(s: seq<T>, k: nat)
    requires k < |s|
    ensures s[..k + 1] == [s[0]] + s[1..][..k]
  {
  }

  lemma AtEnd(crc: Checksum, file: Bytes)
    ensures ReadPhysical(crc, file, |file|).0 == Eof
  {
  }

  /** The log of a list of records. */
  function LogOf(crc: Checksum, records: seq<Bytes>): Bytes {
    EmitAll(crc, 0, CutAll(0, records))
  }

  /** Round trip under truncation: cut the log anywhere, and a reader returns exactly the
      records that are complete, in order, and reports no corruption. */
  lemma TruncatedRoundTrip(crc: Checksum, records: seq<Bytes>, n: nat)
    requires n <= |LogOf(crc, records)|
    ensures ReadAll(crc, LogOf(crc, records)[..n]) == records[..Complete(0, records, n)]
    ensures Reports(Events(crc, LogOf(crc, records)[..n], 0), false, []) == 0
  {
    var whole := LogOf(crc, records);
    CutAllKinds(0, records);
    assert whole[0..EndOfAll(0, CutAll(0, records))] == whole;
    CutHasFragments(crc, whole, n, 0, CutAll(0, records));
    ReadRecords(crc, whole[..n], 0, records);
  }

  /** In particular an intact log gives back everything. */
  lemma RoundTrip(crc: Checksum, records: seq<Bytes>)
    ensures ReadAll(crc, LogOf(crc, records)) == records
  {
    var whole := LogOf(crc, records);
    TruncatedRoundTrip(crc, records, |whole|);
    assert whole[..|whole|] == whole;
    AllComplete(0, records, |whole|);
  }

  lemma {:induction false} AllComplete(p: nat, records: seq<Bytes>, n: nat)
    requires EndOfAll(p, CutAll(p, records)) <= n
    ensures Complete(p, records, n) == |records|
    decreases records
  {
    if records != [] {
      var first := Cut(p, records[0], true);
      FitsConcat(p, first, CutAll(EndOfAll(p, first), records[1..]));
      AllComplete(EndOfAll(p, first), records[1..], n);
    }
  }

  // ----- writers and readers at work

  lemma {:induction false} CutAllSnoc(p: nat, records: seq<Bytes>, r: Bytes)
    ensures CutAll(p, records + [r]) == CutAll(p, records) + Cut(EndOfAll(p, CutAll(p, records)), r, true)
    decreases records
  {
    if records == [] {
      assert records + [r] == [r] && [r][1..] == [];
      var c := Cut(p, r, true);
      assert CutAll(EndOfAll(p, c), []) == [] && c + [] == c && [] + c == c;
    } else {
      var first := Cut(p, records[0], true);
      var end := EndOfAll(p, first);
      TailOfConcat(records, [r]);
      CutAllSnoc(end, records[1..], r);
      FitsConcat(p, first, CutAll(end, records[1..]));
    }
  }

  lemma LogSnoc(crc: Checksum, records: seq<Bytes>, r: Bytes)
    ensures var log := LogOf(crc, records);
            LogOf(crc, records + [r]) == log + EmitAll(crc, |log|, Cut(|log|, r, true))
  {
    CutAllSnoc(0, records, r);
    EmitConcat(crc, 0, CutAll(0, records), Cut(EndOfAll(0, CutAll(0, records)), r, true));
  }

  /** One session appends its records to the log it finds. */
  method WriteSession(crc: Checksum, file: Bytes, ghost done: seq<Bytes>, records: seq<Bytes>) returns (file': Bytes)
    requires file == LogOf(crc, done)
    ensures file' == LogOf(crc, done + records)
  {
    hide LogOf, EmitAll, Cut;
    assert done + records[..0] == done;
    var w := new LogWriter.Writer.Append(crc, file);
    for j := 0 to |records|
      invariant w.Valid() && w.crc == crc && fresh(w)
      invariant w.dest == LogOf(crc, done + records[..j])
    {
      LogSnoc(crc, done + records[..j], records[j]);
      assert done + records[..j + 1] == done + records[..j] + [records[j]];
      w.AddRecord(records[j]);
    }
    assert records[..|records|] == records;
    file' := w.dest;
  }

  /** Any number of sessions, each reopening the file where the last one left it, write the
      log of all their records. */
  method WriteSessions(crc: Checksum, sessions: seq<seq<Bytes>>) returns (file: Bytes)
    ensures file == LogOf(crc, Flatten(sessions))
  {
    file := [];
    for i := 0 to |sessions|
      invariant file == LogOf(crc, Flatten(sessions[..i]))
    {
      assert sessions[..i + 1][..i] == sessions[..i];
      file := WriteSession(crc, file, Flatten(sessions[..i]), sessions[i]);
    }
    assert sessions[..|sessions|] == sessions;
  }

  /** Reading a log from its start until the reader stops, as recovery does. */
  method ReadLog(crc: Checksum, file: Bytes) returns (records: seq<Bytes>, reports: nat)
    ensures records == ReadAll(crc, file) && reports == Reports(Events(crc, file, 0), false, [])
  {
    hide Assemble, Reports, Events;
    var r := new Reader(crc, file);
    records := [];
    var more := true;
    while more
      invariant r.Valid() && r.crc == crc && r.file == file && fresh(r)
      invariant records + (if more then r.Pending(r.at) else []) == ReadAll(crc, file)
      invariant r.reports + (if more then r.PendingReports(r.at) else 0) == Reports(Events(crc, file, 0), false, [])
      decreases more, |file| - r.at
    {
      ghost var before := r.at;
      var next := r.ReadRecord();
      if next.Some? {
        assert records + [next.value] + r.Pending(r.at) == records + r.Pending(before);
        records := records + [next.value];
      } else {
        more := false;
      }
    }
    reports := r.reports;
  }

  // ----- the bytes themselves

  /** A short record alone: checksum, length low byte first, type 1, payload. */
  lemma RecordBytes(crc: Checksum, x: Bytes)
    requires |x| < 256
    ensures LogOf(crc, [x]) == crc(1, x) + [|x|, 0, 1] + x
  {
    var f := Fragment(FULL, x);
    assert [x][1..] == [] && x[..|x|] == x;
    assert Cut(0, x, true) == [f];
    assert CutAll(0, [x]) == [f] + CutAll(EndOfAll(0, [f]), []) == [f];
    assert [f][1..] == [];
    assert EmitAll(crc, 0, [f]) == Emit(crc, 0, f) + [];
  }

  /** A record over three blocks: types 2, 3 and 4. */
  lemma ThreeKinds(x: Bytes)
    requires 65522 < |x| <= 98283
    ensures Cut(0, x, true) == [Fragment(2, x[..32761]), Fragment(3, x[32761..65522]), Fragment(4, x[65522..])]
  {
    var y := x[32761..];
    var z := y[32761..];
    assert z == x[65522..] && y[..32761] == x[32761..65522] && z[..|z|] == z;
    assert Cut(65536, z, false) == [Fragment(LAST, z)];
    assert Cut(32768, y, false) == [Fragment(MIDDLE, y[..32761])] + Cut(65536, z, false);
    assert Cut(0, x, true) == [Fragment(FIRST, x[..32761])] + Cut(32768, y, false);
  }

  /** Where fewer than seven bytes are left in a block, they are zero and the fragment starts in
      the next one. */
  lemma TrailerBytes(crc: Checksum, p: nat, f: Fragment, i: nat)
    requires |f.payload| < 65536
    ensures Pad(p) == if p % 32768 > 32761 then 32768 - p % 32768 else 0
    ensures i < Pad(p) ==> Emit(crc, p, f)[i] == 0
  {
  }
}
