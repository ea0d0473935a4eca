/** log::Writer: appends records to a file, fragment by fragment. */
module LogWriter {
  import opened Lists
  import opened Store
  import opened LogFormat

  class Writer {
    const crc: Checksum
    var dest: Bytes        // the file
    var blockOffset: nat   // block_offset_: may stand at the very end of a block

    ghost predicate Valid()
      reads this
    {
      blockOffset <= BLOCK && blockOffset % BLOCK == |dest| % BLOCK
    }

    /** A new file. */
    constructor (checksum: Checksum)
      ensures Valid() && crc == checksum && dest == []
    {
      crc, dest, blockOffset := checksum, [], 0;
    }

    /** An existing file, reopened for appending. */
    constructor Append(checksum: Checksum, existing: Bytes)
      ensures Valid() && crc == checksum && dest == existing
    {
      crc, dest, blockOffset := checksum, existing, |existing| % BLOCK;
    }

    /** Fills the trailer of a block that has no room for a header. */
    method SwitchBlock()
      requires Valid()
      modifies this
      ensures Valid() && dest == old(dest) + Zeros(Pad(|old(dest)|))
      ensures blockOffset == (|old(dest)| + Pad(|old(dest)|)) % BLOCK
    {
      var leftover := BLOCK - blockOffset;
      PadMatches(|dest|, blockOffset);
      if leftover < HEADER {
        if leftover > 0 {
          dest := dest + Zeros(leftover);
        }
        blockOffset := 0;
      }
    }

    /** Appends exactly the fragments the format prescribes for the current file length. */
    method AddRecord(slice: Bytes)
      requires Valid()
      modifies this
      ensures Valid()
      ensures dest == old(dest) + EmitAll(crc, |old(dest)|, Cut(|old(dest)|, slice, true))
    {
      var left := slice;
      var begin := true;
      ghost var goal := Remaining(crc, dest, slice, true);
      var done := false;
      while !done
        invariant Valid()
        invariant if done then dest == goal else Remaining(crc, dest, left, begin) == goal
        decreases !done, |left|, if Avail(|dest|) == 0 then 1 else 0
      {
        ghost var p, before, f := |dest|, dest, FirstCut(|dest|, left, begin);
        NextBlockHasRoom(p);
        SwitchBlock();
        var avail := BLOCK - blockOffset - HEADER;
        var fragmentLength := if |left| < avail then |left| else avail;
        var end := |left| == fragmentLength;
        var kind := if begin && end then FULL else if begin then FIRST else if end then LAST else MIDDLE;
        assert f == Fragment(kind, left[..fragmentLength]);
        EmitPhysicalRecord(kind, left[..fragmentLength]);
        EmitPieces(crc, p, f, before);
        RemainingStep(crc, before, left, begin);
        left, begin, done := left[fragmentLength..], false, end;
      }
    }

    method EmitPhysicalRecord(kind: Byte, payload: Bytes)
      requires |payload| < 65536 && blockOffset + HEADER + |payload| <= BLOCK
      requires Valid()
      modifies this
      ensures Valid() && blockOffset == old(blockOffset) + HEADER + |payload|
      ensures dest == old(dest) + Header(crc, Fragment(kind, payload)) + payload
    {
      var header := crc(kind, payload) + [|payload| % 256, |payload| / 256, kind];
      ghost var p := |dest|;
      dest := dest + header;
      dest := dest + payload;
      OffsetAdvances(p, blockOffset, HEADER + |payload|);
      blockOffset := blockOffset + HEADER + |payload|;
    }
  }

  /** The file once the rest of a record has been appended. */
  ghost function Remaining(crc: Checksum, dest: Bytes, left: Bytes, begin: bool): Bytes {
    dest + EmitAll(crc, |dest|, Cut(|dest|, left, begin))
  }

  lemma RemainingStep(crc: Checksum, dest: Bytes, left: Bytes, begin: bool)
    ensures var f := FirstCut(|dest|, left, begin);
            var dest' := dest + Emit(crc, |dest|, f);
            |dest'| == EndOf(|dest|, f) && Remaining(crc, dest, left, begin)
            == if |f.payload| == |left| then dest' else Remaining(crc, dest', left[|f.payload|..], false)
  {
    var p, f := |dest|, FirstCut(|dest|, left, begin);
    EmitCut(crc, p, left, begin);
    if |f.payload| != |left| {
      Associative(dest, Emit(crc, p, f), EmitAll(crc, EndOf(p, f), Cut(EndOf(p, f), left[|f.payload|..], false)));
    }
  }

  lemma EmitPieces(crc: Checksum, p: nat, f: Fragment, before: Bytes)
    requires |f.payload| < 65536
    ensures before + Zeros(Pad(p)) + Header(crc, f) + f.payload == before + Emit(crc, p, f)
  {
    Associative(before, Zeros(Pad(p)), Header(crc, f));
    Associative(before, Zeros(Pad(p)) + Header(crc, f), f.payload);
  }

  /** The block offset, whether it says 0 or BLOCK, asks for the same trailer. */
  lemma PadMatches(p: nat, offset: nat)
    requires offset <= BLOCK && offset % BLOCK == p % BLOCK
    ensures if BLOCK - offset < HEADER then Pad(p) == BLOCK - offset && (p + Pad(p)) % BLOCK == 0
            else Pad(p) == 0 && offset == p % BLOCK
  {
    if offset < BLOCK {
      assert offset % BLOCK == offset;
    }
  }

  lemma OffsetAdvances(p: nat, offset: nat, n: nat)
    requires offset % BLOCK == p % BLOCK
    ensures (offset + n) % BLOCK == (p + n) % BLOCK
  {
    assert offset == offset / BLOCK * BLOCK + offset % BLOCK && p == p / BLOCK * BLOCK + p % BLOCK;
    var d := p / BLOCK - offset / BLOCK;
    assert p + n == (offset + n) + d * BLOCK;
    ModShift(offset + n, d);
  }

  lemma ModShift(x: nat, d: int)
    requires 0 <= x + d * BLOCK
    ensures (x + d * BLOCK) % BLOCK == x % BLOCK
  {
    assert x + d * BLOCK == (x / BLOCK + d) * BLOCK + x % BLOCK;
  }
}
