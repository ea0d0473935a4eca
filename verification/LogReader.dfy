/** log::Reader at initial offset 0: physical records, then whole records. */
module LogReader {
  import opened Store
  import opened LogFormat

  /** What ReadPhysicalRecord returns; `reported` if it called ReportCorruption. */
  datatype Event = Piece(kind: Byte, payload: Bytes) | Bad(reported: bool) | Eof

  /** The reader's own codes are numbers past the record types, so a physical record with a
      valid checksum can carry them. */
  const EOF: Byte := 5
  const BADRECORD: Byte := 6

  /** ReadRecord returns false: at the end of the file, or at a record that carries its code. */
  predicate Stops(ev: Event) {
    ev.Eof? || (ev.Piece? && ev.kind == EOF)
  }

  /** Where the buffered block that contains position `at` ends. */
  function BlockEnd(file: Bytes, at: nat): (e: nat)
    requires at <= |file|
    ensures at <= e <= |file| && e - at <= BLOCK
  {
    Min(at - at % BLOCK + BLOCK, |file|)
  }

  /** The block at `at` was read in full, so end of file has not been seen. */
  predicate FullBlock(file: Bytes, at: nat)
    requires at <= |file|
  {
    BlockEnd(file, at) == at - at % BLOCK + BLOCK
  }

  function LengthField(low: Byte, high: Byte): nat {
    low as int + 256 * (high as int)
  }

  /** The physical record whose header is at `at`, in a block with at least a header left. */
  function Parse(crc: Checksum, file: Bytes, at: nat): (r: (Event, nat))
    requires at <= |file| && at + HEADER <= BlockEnd(file, at)
    ensures at <= r.1 <= |file| && at < r.1
  {
    var e := BlockEnd(file, at);
    var length := LengthField(file[at + 4], file[at + 5]);
    var kind := file[at + 6];
    if e < at + HEADER + length then (if FullBlock(file, at) then Bad(true) else Eof, e)
    else if kind == 0 && length == 0 then (Bad(false), e)
    else if file[at..at + 4] != crc(kind, file[at + HEADER..at + HEADER + length]) then (Bad(true), e)
    else (Piece(kind, file[at + HEADER..at + HEADER + length]), at + HEADER + length)
  }

  /** The next physical record from position `at`, and the position after it. */
  function ReadPhysical(crc: Checksum, file: Bytes, at: nat): (r: (Event, nat))
    requires at <= |file|
    ensures at <= r.1 <= |file|
    ensures !r.0.Eof? ==> at < r.1
    decreases |file| - at
  {
    var e := BlockEnd(file, at);
    if HEADER <= e - at then Parse(crc, file, at)
    else if FullBlock(file, at) then ReadPhysical(crc, file, e)
    else (Eof, e)
  }

  lemma SameBlock(at: nat, at': nat)
    requires at <= at' < at - at % BLOCK + BLOCK
    ensures at' - at' % BLOCK == at - at % BLOCK
  {
    var start := at - at % BLOCK;
    assert start == at / BLOCK * BLOCK;
    assert at' == at / BLOCK * BLOCK + (at' - start);
    assert at' % BLOCK == at' - start by {
      assert (at / BLOCK * BLOCK + (at' - start)) % BLOCK == (at' - start) % BLOCK;
    }
  }

  /** All physical records from `at` to the end of the file. */
  function Events(crc: Checksum, file: Bytes, at: nat): seq<Event>
    requires at <= |file|
    decreases |file| - at
  {
    var (ev, next) := ReadPhysical(crc, file, at);
    if ev.Eof? then [] else [ev] + Events(crc, file, next)
  }

  /** One physical record in ReadRecord: the state (in_fragmented_record, scratch) after it,
      the record it completes if any, and the number of corruption reports. */
  datatype Outcome = Outcome(inFragmented: bool, scratch: Bytes, record: Option<Bytes>, reports: nat)

  function Handle(ev: Event, inFragmented: bool, scratch: Bytes): Outcome
    requires !Stops(ev)
  {
    var stale := if inFragmented && scratch != [] then 1 else 0;
    match ev
    case Piece(kind, payload) =>
      if kind == FULL then Outcome(false, [], Some(payload), stale)
      else if kind == FIRST then Outcome(true, payload, None, stale)
      else if kind == MIDDLE then
        if inFragmented then Outcome(true, scratch + payload, None, 0) else Outcome(false, scratch, None, 1)
      else if kind == LAST then
        if inFragmented then Outcome(false, [], Some(scratch + payload), 0) else Outcome(false, scratch, None, 1)
      else if kind == BADRECORD then
        Outcome(false, if inFragmented then [] else scratch, None, if inFragmented then 1 else 0)
      else Outcome(false, [], None, 1)
    case Bad(reported) =>
      Outcome(false, if inFragmented then [] else scratch, None,
              (if inFragmented then 1 else 0) + if reported then 1 else 0)
  }

  /** The records a reader returns for a stream of physical records before it stops. */
  function Assemble(events: seq<Event>, inFragmented: bool, scratch: Bytes): seq<Bytes> {
    if events == [] || Stops(events[0]) then []
    else
      var o := Handle(events[0], inFragmented, scratch);
      (if o.record.Some? then [o.record.value] else []) + Assemble(events[1..], o.inFragmented, o.scratch)
  }

  function Reports(events: seq<Event>, inFragmented: bool, scratch: Bytes): nat {
    if events == [] || Stops(events[0]) then 0
    else
      var o := Handle(events[0], inFragmented, scratch);
      o.reports + Reports(events[1..], o.inFragmented, o.scratch)
  }

  /** What the rest of a file gives, one physical record at a time. */
  lemma AssembleCons(crc: Checksum, file: Bytes, p: nat, inFragmented: bool, scratch: Bytes)
    requires p <= |file|
    ensures var (ev, next) := ReadPhysical(crc, file, p);
            var all, reports := Assemble(Events(crc, file, p), inFragmented, scratch), Reports(Events(crc, file, p), inFragmented, scratch);
            if Stops(ev) then all == [] && reports == 0
            else
              var o := Handle(ev, inFragmented, scratch);
              var all', reports' := Assemble(Events(crc, file, next), o.inFragmented, o.scratch), Reports(Events(crc, file, next), o.inFragmented, o.scratch);
              all == (if o.record.Some? then [o.record.value] + all' else all') && reports == o.reports + reports'
  {
    var (ev, next) := ReadPhysical(crc, file, p);
    if !ev.Eof? {
      assert Events(crc, file, p)[1..] == Events(crc, file, next);
    }
  }

  /** Everything a reader returns for a file. */
  function ReadAll(crc: Checksum, file: Bytes): seq<Bytes> {
    Assemble(Events(crc, file, 0), false, [])
  }

  lemma SliceOfSlice(file: Bytes, at: nat, e: nat, i: nat, j: nat)
    requires at <= e <= |file| && i <= j <= e - at
    ensures file[at..e][i..j] == file[at + i..at + j]
  {
    var a, b := file[at..e][i..j], file[at + i..at + j];
    assert |a| == |b| && forall k | 0 <= k < |a| :: a[k] == file[at..e][i + k] == file[at + i + k] == b[k];
  }

  class Reader {
    const crc: Checksum
    const file: Bytes
    var buffer: Bytes
    var endOfBuffer: nat  // end_of_buffer_offset_
    var eof: bool
    var reports: nat
    ghost var at: nat     // the position of the first byte in the buffer

    ghost predicate Valid()
      reads this
    {
      && at <= endOfBuffer <= |file| && buffer == file[at..endOfBuffer]
      && if eof then endOfBuffer == |file| && !FullBlock(file, at) && BlockEnd(file, at) == endOfBuffer
         else endOfBuffer % BLOCK == 0 && (at < endOfBuffer ==> FullBlock(file, at) && BlockEnd(file, at) == endOfBuffer)
    }

    constructor (checksum: Checksum, contents: Bytes)
      ensures Valid() && crc == checksum && file == contents && at == 0 && reports == 0
    {
      crc, file := checksum, contents;
      buffer, endOfBuffer, eof, reports, at := [], 0, false, 0, 0;
    }

    /** file_->Read(kBlockSize): a short read means end of file. */
    method ReadBlock()
      requires Valid() && !eof && |buffer| < HEADER
      modifies this
      ensures Valid() && at == old(endOfBuffer) && reports == old(reports)
      ensures eof <==> endOfBuffer < at + BLOCK
      ensures endOfBuffer == BlockEnd(file, at)
    {
      var start := endOfBuffer;
      endOfBuffer := Min(start + BLOCK, |file|);
      buffer := file[start..endOfBuffer];
      eof := |buffer| < BLOCK;
      at := start;
      if !eof {
        assert (start + BLOCK) % BLOCK == 0;
      }
    }

    /** Refills the buffer until it holds a header or the file is at its end. */
    method FillBuffer()
      requires Valid()
      modifies this
      ensures Valid() && reports == old(reports)
      ensures HEADER <= |buffer| || eof
      ensures ReadPhysical(crc, file, at) == ReadPhysical(crc, file, old(at))
    {
      ghost var start := at;
      while |buffer| < HEADER && !eof
        invariant Valid() && reports == old(reports)
        invariant ReadPhysical(crc, file, at) == ReadPhysical(crc, file, start)
        decreases if |buffer| < HEADER && !eof then 1 else 0
      {
        ReadBlock();
      }
    }

    /** Drops whatever is left in the buffer. */
    method ClearBuffer()
      requires Valid()
      modifies this
      ensures Valid() && at == endOfBuffer == old(endOfBuffer) && eof == old(eof) && reports == old(reports)
    {
      if eof {
        SameBlock(at, endOfBuffer);
      }
      buffer, at := [], endOfBuffer;
    }

    /** Moves past a physical record. */
    method RemovePrefix(n: nat)
      requires Valid() && n <= |buffer|
      modifies this
      ensures Valid() && at == old(at) + n && reports == old(reports)
    {
      if at + n < endOfBuffer || eof {
        SameBlock(at, at + n);
      }
      buffer, at := buffer[n..], at + n;
    }

    method ReadPhysicalRecord() returns (ev: Event)
      requires Valid()
      modifies this
      ensures Valid() && (ev, at) == ReadPhysical(crc, file, old(at))
      ensures reports == old(reports) + if ev == Bad(true) then 1 else 0
    {
      FillBuffer();
      if |buffer| < HEADER {
        ClearBuffer();
        return Eof;
      }
      ev := ParseHeader();
    }

    method ParseHeader() returns (ev: Event)
      requires Valid() && HEADER <= |buffer|
      modifies this
      ensures Valid() && HEADER <= BlockEnd(file, old(at)) - old(at) && (ev, at) == Parse(crc, file, old(at))
      ensures reports == old(reports) + if ev == Bad(true) then 1 else 0
    {
      assert BlockEnd(file, at) == endOfBuffer && (FullBlock(file, at) <==> !eof);
      var length := LengthField(buffer[4], buffer[5]);
      var kind := buffer[6];
      if HEADER + length > |buffer| {
        ClearBuffer();
        if !eof {
          reports := reports + 1;
          return Bad(true);
        }
        return Eof;
      }
      var payload := buffer[HEADER..HEADER + length];
      SliceOfSlice(file, at, endOfBuffer, HEADER, HEADER + length);
      SliceOfSlice(file, at, endOfBuffer, 0, 4);
      if kind == 0 && length == 0 {
        ClearBuffer();
        return Bad(false);
      }
      if buffer[..4] != crc(kind, payload) {
        ClearBuffer();
        reports := reports + 1;
        return Bad(true);
      }
      RemovePrefix(HEADER + length);
      ev := Piece(kind, payload);
    }

    /** The next record, or None where reading stops. */
    method ReadRecord() returns (record: Option<Bytes>)
      requires Valid()
      modifies this
      ensures Valid()
      ensures match record
              case Some(r) => Pending(old(at)) == [r] + Pending(at)
              case None => Pending(old(at)) == []
      ensures record.Some? ==> old(at) < at
      ensures old(reports) + PendingReports(old(at)) == reports + if record.Some? then PendingReports(at) else 0
    {
      hide Assemble, Reports, Events, ReadPhysical;
      var scratch := [];
      var inFragmented := false;
      ghost var start := at;
      while true
        invariant Valid() && start <= at
        invariant Assemble(Events(crc, file, at), inFragmented, scratch) == Pending(start)
        invariant reports + Reports(Events(crc, file, at), inFragmented, scratch) == old(reports) + PendingReports(start)
        decreases |file| - at
      {
        ghost var before := at;
        var ev := ReadPhysicalRecord();
        AssembleCons(crc, file, before, inFragmented, scratch);
        if Stops(ev) {
          return None;
        }
        match ev {
          case Piece(kind, fragment) =>
            if kind == FULL {
              if inFragmented && scratch != [] {
                reports := reports + 1;
              }
              return Some(fragment);
            } else if kind == FIRST {
              if inFragmented && scratch != [] {
                reports := reports + 1;
              }
              scratch, inFragmented := fragment, true;
            } else if kind == MIDDLE {
              if !inFragmented {
                reports := reports + 1;
              } else {
                scratch := scratch + fragment;
              }
            } else if kind == LAST {
              if !inFragmented {
                reports := reports + 1;
              } else {
                return Some(scratch + fragment);
              }
            } else if kind == BADRECORD {
              if inFragmented {
                reports := reports + 1;
                scratch, inFragmented := [], false;
              }
            } else {
              reports := reports + 1;
              scratch, inFragmented := [], false;
            }
          case Bad(_) =>
            if inFragmented {
              reports := reports + 1;
              scratch, inFragmented := [], false;
            }
        }
      }
    }

    /** What the rest of the file from `p` still has to give. */
    ghost function Pending(p: nat): seq<Bytes>
      requires p <= |file|
    {
      Assemble(Events(crc, file, p), false, [])
    }

    ghost function PendingReports(p: nat): nat
      requires p <= |file|
    {
      Reports(Events(crc, file, p), false, [])
    }
  }
}
