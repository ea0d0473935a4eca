/** The versioned store that every LevelDB component refines: a set of
    (user key, sequence number, type, value) entries, read at a snapshot.
    What a reader at snapshot `s` may see is `View`: for each user key the newest
    entry with a sequence number up to `s`, provided it is not a deletion. */
module Store {

  type Byte = x: int | 0 <= x < 256
  type Bytes = seq<Byte>

  datatype Option<+T> = None | Some(value: T)

  /** The largest sequence number: eight of the 64 bits hold the type. */
  const MAX_SEQUENCE: nat := 0xff_ffff_ffff_ffff

  datatype Kind = Deletion | Value

  datatype Entry = Entry(key: Bytes, seqno: nat, kind: Kind, value: Bytes)

  /** An entry of a write batch, before it has a sequence number. */
  datatype Op = Op(key: Bytes, kind: Kind, value: Bytes)

  // The two laws are only instantiated where a proof mentions Pair or Triple.
  ghost predicate Pair(a: Bytes, b: Bytes) { true }
  ghost predicate Triple(a: Bytes, b: Bytes, c: Bytes) { true }

  ghost predicate TotalPreorder(cmp: (Bytes, Bytes) -> int) {
    && (forall a, b {:trigger Pair(a, b)} :: Pair(a, b) ==> (cmp(a, b) < 0 <==> cmp(b, a) > 0))
    && (forall a, b, c {:trigger Triple(a, b, c)} ::
          Triple(a, b, c) && cmp(a, b) <= 0 && cmp(b, c) <= 0 ==> cmp(a, c) <= 0)
  }

  /** The user comparator: any total preorder on byte strings. Keys that compare
      as zero are the same key, even when their bytes differ. */
  type Comparator = cmp: (Bytes, Bytes) -> int | TotalPreorder(cmp)
    ghost witness (a: Bytes, b: Bytes) => 0

  ghost predicate Same(cmp: Comparator, a: Bytes, b: Bytes) {
    cmp(a, b) == 0
  }

  lemma SameIsEquivalence(cmp: Comparator, a: Bytes, b: Bytes, c: Bytes)
    ensures Same(cmp, a, a)
    ensures Same(cmp, a, b) ==> Same(cmp, b, a)
    ensures Same(cmp, a, b) && Same(cmp, b, c) ==> Same(cmp, a, c)
    ensures Same(cmp, a, b) ==> (cmp(a, c) < 0 <==> cmp(b, c) < 0) && (cmp(c, a) < 0 <==> cmp(c, b) < 0)
    ensures cmp(a, b) < 0 && cmp(b, c) <= 0 ==> cmp(a, c) < 0
    ensures cmp(a, b) <= 0 && cmp(b, c) < 0 ==> cmp(a, c) < 0
  {
    assert Pair(a, a) && Pair(a, b) && Pair(b, a) && Pair(a, c) && Pair(c, a) && Pair(b, c) && Pair(c, b);
    assert Triple(a, b, c) && Triple(b, a, c) && Triple(c, a, b) && Triple(c, b, a) && Triple(b, c, a);
  }

  /** Everything the two laws say about three keys. */
  lemma ThreeKeys(cmp: Comparator, a: Bytes, b: Bytes, c: Bytes)
    ensures cmp(a, b) < 0 <==> cmp(b, a) > 0
    ensures cmp(a, b) > 0 <==> cmp(b, a) < 0
    ensures cmp(b, c) < 0 <==> cmp(c, b) > 0
    ensures cmp(b, c) > 0 <==> cmp(c, b) < 0
    ensures cmp(a, c) < 0 <==> cmp(c, a) > 0
    ensures cmp(a, c) > 0 <==> cmp(c, a) < 0
    ensures cmp(a, b) <= 0 && cmp(b, c) <= 0 ==> cmp(a, c) <= 0
    ensures cmp(a, c) <= 0 && cmp(c, b) <= 0 ==> cmp(a, b) <= 0
    ensures cmp(b, a) <= 0 && cmp(a, c) <= 0 ==> cmp(b, c) <= 0
    ensures cmp(b, c) <= 0 && cmp(c, a) <= 0 ==> cmp(b, a) <= 0
    ensures cmp(c, a) <= 0 && cmp(a, b) <= 0 ==> cmp(c, b) <= 0
    ensures cmp(c, b) <= 0 && cmp(b, a) <= 0 ==> cmp(c, a) <= 0
  {
    assert Pair(a, b) && Pair(b, a) && Pair(b, c) && Pair(c, b) && Pair(a, c) && Pair(c, a);
    assert Triple(a, b, c) && Triple(a, c, b) && Triple(b, a, c) && Triple(b, c, a) && Triple(c, a, b) && Triple(c, b, a);
  }

  /** At snapshot `s`, `newer` keeps readers of the same key from reaching `older`. */
  ghost predicate Hides(cmp: Comparator, newer: Entry, older: Entry, s: nat) {
    && Same(cmp, newer.key, older.key)
    && older.seqno < newer.seqno <= s
  }

  ghost predicate Live(cmp: Comparator, es: set<Entry>, s: nat, e: Entry) {
    && e in es && e.seqno <= s && e.kind.Value?
    && forall newer | newer in es :: !Hides(cmp, newer, e, s)
  }

  /** What a reader at snapshot `s` sees of the entries `es`. */
  ghost function View(cmp: Comparator, es: set<Entry>, s: nat): set<Entry> {
    set e | e in es && Live(cmp, es, s, e)
  }

  /** The answer to a point lookup: `Some(v)` for a live value, `None` for not found. */
  ghost predicate Answers(cmp: Comparator, es: set<Entry>, s: nat, key: Bytes, answer: Option<Bytes>) {
    match answer
    case Some(v) => exists e :: e in View(cmp, es, s) && Same(cmp, e.key, key) && e.value == v
    case None => forall e | e in View(cmp, es, s) :: !Same(cmp, e.key, key)
  }

  /** No two entries share a sequence number. */
  ghost predicate Distinct(es: set<Entry>) {
    forall a, b | a in es && b in es && a.seqno == b.seqno :: a == b
  }

  /** Entries newer than the snapshot are invisible to it. */
  lemma NewerEntriesInvisible(cmp: Comparator, es: set<Entry>, more: set<Entry>, s: nat)
    requires forall e | e in more :: s < e.seqno
    ensures View(cmp, es + more, s) == View(cmp, es, s)
  {
    forall e | e in es + more
      ensures Live(cmp, es + more, s, e) <==> Live(cmp, es, s, e)
    {
    }
  }

  ghost function ToSet<T>(s: seq<T>): set<T> {
    set x | x in s
  }

  lemma ToSetConcat<T>(a: seq<T>, b: seq<T>)
    ensures ToSet(a + b) == ToSet(a) + ToSet(b)
  {
  }

  function Flatten<T>(parts: seq<seq<T>>): seq<T> {
    if parts == [] then [] else Flatten(parts[..|parts| - 1]) + parts[|parts| - 1]
  }

  lemma {:induction false} FlattenConcat<T>(a: seq<seq<T>>, b: seq<seq<T>>)
    ensures Flatten(a + b) == Flatten(a) + Flatten(b)
  {
    if b == [] {
      assert a + b == a;
    } else {
      var n := |b| - 1;
      assert (a + b)[..|a + b| - 1] == a + b[..n];
      FlattenConcat(a, b[..n]);
      assert Flatten(a) + Flatten(b[..n]) + b[n] == Flatten(a) + (Flatten(b[..n]) + b[n]);
    }
  }

  /** Internal-key order: user keys ascending, and for one user key newest first. */
  ghost predicate InternalBefore(cmp: Comparator, a: Entry, b: Entry) {
    cmp(a.key, b.key) < 0 || (Same(cmp, a.key, b.key) && b.seqno < a.seqno)
  }

  ghost predicate Sorted(cmp: Comparator, es: seq<Entry>) {
    forall i, j | 0 <= i < j < |es| :: InternalBefore(cmp, es[i], es[j])
  }
}
