/** WriteBatch: how a batch of operations is encoded, and how InsertInto reads it back. */
module WriteBatch {
  import opened Codec
  import opened Lists
  import opened Store

  const BATCH_HEADER: nat := 12   // kHeader
  const TYPE_DELETION: Byte := 0
  const TYPE_VALUE: Byte := 1

  /** WriteBatch::rep_: the count in its header and the records after it. */
  datatype Batch = Batch(count: nat, data: Bytes)

  const EMPTY := Batch(0, [])

  function ByteSize(b: Batch): nat {
    BATCH_HEADER + |b.data|
  }

  /** WriteBatchInternal::Append */
  function Append(dst: Batch, src: Batch): Batch {
    Batch(dst.count + src.count, dst.data + src.data)
  }

  // ----- writing

  /** PutLengthPrefixedSlice: the length is cut to 32 bits. */
  function PutSlice(x: Bytes): Bytes {
    PutVarint32(|x| % TWO_32) + x
  }

  /** What Put and Delete append. */
  function Encode(op: Op): Bytes {
    match op.kind
    case Value => [TYPE_VALUE] + (PutSlice(op.key) + PutSlice(op.value))
    case Deletion => [TYPE_DELETION] + PutSlice(op.key)
  }

  function EncodeAll(ops: seq<Op>): Bytes {
    if ops == [] then [] else Encode(ops[0]) + EncodeAll(ops[1..])
  }

  /** The batch that calls of Put and Delete make. */
  function Built(ops: seq<Op>): Batch {
    Batch(|ops|, EncodeAll(ops))
  }

  // ----- reading

  /** Iterate's switch: the record at the front of the input, and what follows it. */
  function GetRecord(input: Bytes): (r: Option<(Op, Bytes)>)
    requires input != []
    ensures r.Some? ==> |r.value.1| < |input|
  {
    var tag, rest := input[0], input[1..];
    if tag == TYPE_VALUE then
      match GetPrefixed(rest)
      case None => None
      case Some((key, rest1)) =>
        match GetPrefixed(rest1)
        case None => None
        case Some((value, rest2)) => Some((Op(key, Value, value), rest2))
    else if tag == TYPE_DELETION then
      match GetPrefixed(rest)
      case None => None
      case Some((key, rest1)) => Some((Op(key, Deletion, []), rest1))
    else None
  }

  /** What the records give up to their end or to the first that cannot be read. */
  datatype Parsed = Parsed(ops: seq<Op>, ok: bool)

  function Parse(data: Bytes): Parsed
    decreases |data|
  {
    if data == [] then Parsed([], true)
    else
      match GetRecord(data)
      case None => Parsed([], false)
      case Some((op, rest)) => var p := Parse(rest); Parsed([op] + p.ops, p.ok)
  }

  /** Iterate succeeds. */
  predicate WellFormed(b: Batch) {
    Parse(b.data).ok && |Parse(b.data).ops| == b.count
  }

  /** WriteBatch::Iterate with a handler that collects the operations. */
  method Iterate(b: Batch) returns (ops: seq<Op>, ok: bool)
    ensures ops == Parse(b.data).ops && ok == WellFormed(b)
  {
    var input, found := b.data, 0;
    ops := [];
    while input != []
      invariant found == |ops|
      invariant Parse(b.data) == Parsed(ops + Parse(input).ops, Parse(input).ok)
      decreases |input|
    {
      found := found + 1;
      var r := GetRecord(input);
      if r.None? {
        assert ops + [] == ops;
        return ops, false;
      }
      assert ops + ([r.value.0] + Parse(r.value.1).ops) == ops + [r.value.0] + Parse(r.value.1).ops;
      ops, input := ops + [r.value.0], r.value.1;
    }
    assert ops + [] == ops;
    ok := found == b.count;
  }

  // ----- reading on

  lemma {:induction false} VarintGoesOn(a: Bytes, b: Bytes, limit: nat)
    requires GetVarint(a, limit).Some?
    ensures GetVarint(a + b, limit) == GetVarint(a, limit)
    decreases limit
  {
    if a[0] >= 128 {
      assert (a + b)[1..] == a[1..] + b;
      VarintGoesOn(a[1..], b, limit - 1);
    }
  }

  lemma PrefixedGoesOn(a: Bytes, b: Bytes)
    requires GetPrefixed(a).Some?
    ensures var (x, rest) := GetPrefixed(a).value; GetPrefixed(a + b) == Some((x, rest + b))
  {
    VarintGoesOn(a, b, 5);
    var (len, n) := GetVarint32(a).value;
    assert (a + b)[n..n + len] == a[n..n + len] && (a + b)[n + len..] == a[n + len..] + b;
  }

  lemma RecordGoesOn(a: Bytes, b: Bytes)
    requires a != [] && GetRecord(a).Some?
    ensures var (op, rest) := GetRecord(a).value; GetRecord(a + b) == Some((op, rest + b))
  {
    hide GetPrefixed;
    assert (a + b)[0] == a[0] && (a + b)[1..] == a[1..] + b;
    PrefixedGoesOn(a[1..], b);
    if a[0] == TYPE_VALUE {
      PrefixedGoesOn(GetPrefixed(a[1..]).value.1, b);
    }
  }

  /** Records that can be read are read the same when more follow. */
  lemma {:induction false} ParseConcat(a: Bytes, b: Bytes)
    requires Parse(a).ok
    ensures Parse(a + b) == Parsed(Parse(a).ops + Parse(b).ops, Parse(b).ok)
    decreases |a|
  {
    if a == [] {
      assert a + b == b;
    } else {
      var (op, rest) := GetRecord(a).value;
      RecordGoesOn(a, b);
      ParseConcat(rest, b);
      Associative([op], Parse(rest).ops, Parse(b).ops);
    }
  }

  lemma AppendWellFormed(a: Batch, b: Batch)
    requires WellFormed(a) && WellFormed(b)
    ensures WellFormed(Append(a, b)) && Parse(Append(a, b).data).ops == Parse(a.data).ops + Parse(b.data).ops
  {
    ParseConcat(a.data, b.data);
  }

  // ----- what is built is read back

  /** Key and value are shorter than 4 GB. */
  predicate Fits(op: Op) {
    |op.key| < TWO_32 && (op.kind.Value? ==> |op.value| < TWO_32)
  }

  /** An operation as Put or Delete has it. */
  predicate Proper(op: Op) {
    op.kind.Deletion? ==> op.value == []
  }

  /** A slice of 4 GB or more reads back as a shorter one. */
  lemma SliceReadsBack(x: Bytes, rest: Bytes)
    ensures GetPrefixed(PutSlice(x) + rest).Some? && |GetPrefixed(PutSlice(x) + rest).value.0| == |x| % TWO_32
    ensures |x| < TWO_32 ==> GetPrefixed(PutSlice(x) + rest) == Some((x, rest))
  {
    hide PutVarint32, GetVarint, FitsIn;
    var len := |x| % TWO_32;
    var b, n := PutSlice(x) + rest, |PutVarint32(len)|;
    FiveBytes(len);
    assert b == PutVarint32(len) + (x + rest);
    VarintRoundTrip(len, 5, x + rest);
    if |x| < TWO_32 {
      assert b[n..n + |x|] == x && b[n + |x|..] == rest;
    }
  }

  lemma RecordReadsBack(op: Op, rest: Bytes)
    requires Proper(op)
    ensures Encode(op) + rest != []
    ensures GetRecord(Encode(op) + rest) == Some((op, rest)) <== Fits(op)
    ensures GetRecord(Encode(op) + rest).Some? ==> (GetRecord(Encode(op) + rest).value.0 == op ==> Fits(op))
  {
    hide GetPrefixed, PutSlice;
    var b := Encode(op) + rest;
    match op.kind
    case Value =>
      var more := PutSlice(op.value) + rest;
      assert b[1..] == PutSlice(op.key) + more;
      SliceReadsBack(op.key, more);
      SliceReadsBack(op.value, rest);
    case Deletion =>
      assert b[1..] == PutSlice(op.key) + rest;
      SliceReadsBack(op.key, rest);
  }

  predicate AllProper(ops: seq<Op>) {
    forall i | 0 <= i < |ops| :: Proper(ops[i])
  }

  predicate AllFit(ops: seq<Op>) {
    forall i | 0 <= i < |ops| :: Fits(ops[i])
  }

  lemma FirstAndRest(ops: seq<Op>)
    requires ops != []
    ensures AllProper(ops) <==> Proper(ops[0]) && AllProper(ops[1..])
    ensures AllFit(ops) <==> Fits(ops[0]) && AllFit(ops[1..])
  {
    assert forall i | 0 < i < |ops| :: ops[i] == ops[1..][i - 1];
  }

  lemma ParseFirst(data: Bytes, ops: seq<Op>, rest: Bytes)
    requires data != [] && ops != [] && GetRecord(data) == Some((ops[0], rest))
    ensures Parse(data) == Parsed(ops, true) <==> Parse(rest) == Parsed(ops[1..], true)
  {
    var p := Parse(rest);
    assert ([ops[0]] + p.ops)[1..] == p.ops && ops == [ops[0]] + ops[1..];
  }

  /** A batch that was built reads back if and only if no key or value is 4 GB or longer. */
  lemma {:induction false} BuiltReadsBack(ops: seq<Op>)
    requires AllProper(ops)
    ensures Parse(EncodeAll(ops)) == Parsed(ops, true) <==> AllFit(ops)
  {
    if ops != [] {
      hide GetRecord, Encode, AllProper, AllFit, Fits, Proper;
      FirstAndRest(ops);
      var rest := EncodeAll(ops[1..]);
      RecordReadsBack(ops[0], rest);
      BuiltReadsBack(ops[1..]);
      if Fits(ops[0]) {
        ParseFirst(EncodeAll(ops), ops, rest);
      }
    }
  }

  /** In particular InsertInto never fails on it. */
  lemma BuiltIsWellFormed(ops: seq<Op>)
    requires AllProper(ops) && AllFit(ops)
    ensures WellFormed(Built(ops)) && Parse(Built(ops).data).ops == ops
  {
    BuiltReadsBack(ops);
  }

  /** The bytes themselves: tag, length and bytes of the key, and for a put those of the value. */
  lemma RecordBytes(key: Bytes, value: Bytes)
    requires |key| < 128 && |value| < 128
    ensures Encode(Op(key, Value, value)) == [1, |key|] + key + [|value|] + value
    ensures Encode(Op(key, Deletion, [])) == [0, |key|] + key
  {
    assert PutSlice(key) == [|key|] + key && PutSlice(value) == [|value|] + value;
  }
}
