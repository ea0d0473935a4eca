/** The memtable: length-prefixed entries in a skip list. */
module MemTable {
  import opened Store
  import opened Codec
  import SkipList
  import SkipListOps

  // ----- the order of encoded entries

  function Encode(e: Entry): Bytes
    requires |e.key| + 8 < TWO_32 && |e.value| < TWO_32
  {
    PutPrefixed(AppendInternalKey(InternalKey(e.key, e.seqno, e.kind))) + PutPrefixed(e.value)
  }

  /** Where a lookup at snapshot s starts. */
  function LookupKey(key: Bytes, s: nat): Bytes
    requires |key| + 8 < TWO_32
  {
    PutPrefixed(AppendInternalKey(InternalKey(key, s, Value)))
  }

  /** The internal key an entry starts with; an entry that has none stands for the empty
      user key, so that the order below is defined on all byte strings. */
  function KeyOf(b: Bytes): (k: Bytes)
    ensures 8 <= |k|
  {
    match GetPrefixed(b)
    case Some((k, _)) => if 8 <= |k| then k else [0, 0, 0, 0, 0, 0, 0, 0]
    case None => [0, 0, 0, 0, 0, 0, 0, 0]
  }

  function RawCompare(cmp: Comparator): (Bytes, Bytes) -> int {
    (a, b) => InternalCompare(cmp, KeyOf(a), KeyOf(b))
  }

  lemma CompareLaws(cmp: Comparator, a: Bytes, b: Bytes, c: Bytes)
    requires 8 <= |a| && 8 <= |b| && 8 <= |c|
    ensures InternalCompare(cmp, a, b) < 0 <==> InternalCompare(cmp, b, a) > 0
    ensures InternalCompare(cmp, a, b) <= 0 && InternalCompare(cmp, b, c) <= 0 ==> InternalCompare(cmp, a, c) <= 0
  {
    hide ExtractUserKey, ExtractTag;
    ThreeKeys(cmp, ExtractUserKey(a), ExtractUserKey(b), ExtractUserKey(c));
  }

  lemma IsTotalPreorder(cmp: Comparator)
    ensures TotalPreorder(RawCompare(cmp))
  {
    hide InternalCompare, KeyOf;
    var raw := RawCompare(cmp);
    forall a, b | Pair(a, b)
      ensures raw(a, b) < 0 <==> raw(b, a) > 0
    {
      CompareLaws(cmp, KeyOf(a), KeyOf(b), KeyOf(a));
    }
    forall a, b, c | Triple(a, b, c)
      ensures raw(a, b) <= 0 && raw(b, c) <= 0 ==> raw(a, c) <= 0
    {
      CompareLaws(cmp, KeyOf(a), KeyOf(b), KeyOf(c));
    }
  }

  function KeyComparator(cmp: Comparator): Comparator {
    IsTotalPreorder(cmp);
    RawCompare(cmp)
  }

  lemma KeyOfEncode(e: Entry)
    requires |e.key| + 8 < TWO_32 && |e.value| < TWO_32
    ensures KeyOf(Encode(e)) == AppendInternalKey(InternalKey(e.key, e.seqno, e.kind))
    ensures GetPrefixed(Encode(e)) == Some((KeyOf(Encode(e)), PutPrefixed(e.value)))
  {
    PrefixedRoundTrip(AppendInternalKey(InternalKey(e.key, e.seqno, e.kind)), PutPrefixed(e.value));
  }

  lemma KeyOfLookup(key: Bytes, s: nat)
    requires |key| + 8 < TWO_32
    ensures KeyOf(LookupKey(key, s)) == AppendInternalKey(InternalKey(key, s, Value))
  {
    var b := LookupKey(key, s);
    assert b + [] == b;
    PrefixedRoundTrip(AppendInternalKey(InternalKey(key, s, Value)), []);
  }

  // ----- what a lookup means

  datatype Lookup = Found(value: Bytes) | Deleted | Absent

  ghost predicate Candidate(cmp: Comparator, e: Entry, key: Bytes, s: nat) {
    Same(cmp, e.key, key) && e.seqno <= s
  }

  /** e is the newest entry of the key that snapshot s reaches. */
  ghost predicate NewestFor(cmp: Comparator, es: set<Entry>, key: Bytes, s: nat, e: Entry) {
    && e in es && Candidate(cmp, e, key, s)
    && forall other | other in es && Candidate(cmp, other, key, s) :: other.seqno <= e.seqno
  }

  ghost predicate LooksUp(cmp: Comparator, es: set<Entry>, key: Bytes, s: nat, r: Lookup) {
    match r
    case Found(v) => exists e :: NewestFor(cmp, es, key, s, e) && e.kind.Value? && e.value == v
    case Deleted => exists e :: NewestFor(cmp, es, key, s, e) && e.kind.Deletion?
    case Absent => forall e | e in es :: !Candidate(cmp, e, key, s)
  }

  function ToAnswer(r: Lookup): Option<Bytes> {
    match r case Found(v) => Some(v) case Deleted => None case Absent => None
  }

  /** A lookup gives the answer that the view at the snapshot gives. */
  lemma LookupAnswers(cmp: Comparator, es: set<Entry>, key: Bytes, s: nat, r: Lookup)
    requires LooksUp(cmp, es, key, s, r) && Distinct(es)
    ensures Answers(cmp, es, s, key, ToAnswer(r))
  {
    match r
    case Found(v) =>
      var e :| NewestFor(cmp, es, key, s, e) && e.kind.Value? && e.value == v;
      forall other | other in es
        ensures !Hides(cmp, other, e, s)
      {
        SameIsEquivalence(cmp, other.key, e.key, key);
      }
      assert e in View(cmp, es, s);
    case Deleted =>
      var e :| NewestFor(cmp, es, key, s, e) && e.kind.Deletion?;
      forall x | x in View(cmp, es, s)
        ensures !Same(cmp, x.key, key)
      {
        SameIsEquivalence(cmp, e.key, key, x.key);
        SameIsEquivalence(cmp, x.key, key, e.key);
        assert !Hides(cmp, e, x, s);
      }
    case Absent =>
  }

  // ----- the table

  ghost predicate Storable(e: Entry) {
    |e.key| + 8 < TWO_32 && |e.value| < TWO_32 && e.seqno <= MAX_SEQUENCE
  }

  /** Node n of the list holds the encoding of the (n-1)-th entry added. */
  ghost predicate Holds(keys: seq<Bytes>, bottom: seq<nat>, added: seq<Entry>) {
    && |keys| == |added| + 1
    && (forall i {:trigger HoldsAt(keys, bottom, added, i)} :: HoldsAt(keys, bottom, added, i))
  }

  ghost predicate HoldsAt(keys: seq<Bytes>, bottom: seq<nat>, added: seq<Entry>, i: int) {
    0 <= i < |added| && |keys| == |added| + 1 ==>
      Storable(added[i]) && keys[i + 1] == Encode(added[i]) && i + 1 in bottom
  }

  lemma HoldsOneMore(keys: seq<Bytes>, bottom: seq<nat>, added: seq<Entry>, e: Entry, p: nat)
    requires Holds(keys, bottom, added) && Storable(e) && p <= |bottom|
    ensures Holds(keys + [Encode(e)], SkipList.InsertAt(bottom, p, |keys|), added + [e])
  {
    var keys', bottom', added' := keys + [Encode(e)], SkipList.InsertAt(bottom, p, |keys|), added + [e];
    SkipList.InsertSublists(bottom, p, |keys|);
    forall i
      ensures HoldsAt(keys', bottom', added', i)
    {
      assert HoldsAt(keys, bottom, added, i);
    }
  }

  /** The order of the list, on encoded entries. */
  lemma CompareEntry(cmp: Comparator, e: Entry, key: Bytes, s: nat)
    requires Storable(e) && |key| + 8 < TWO_32 && s <= MAX_SEQUENCE
    ensures KeyComparator(cmp)(Encode(e), LookupKey(key, s)) < 0 <==>
              cmp(e.key, key) < 0 || (Same(cmp, e.key, key) && s < e.seqno)
  {
    KeyOfEncode(e);
    KeyOfLookup(key, s);
    CompareIsNewestFirst(cmp, InternalKey(e.key, e.seqno, e.kind), InternalKey(key, s, Value));
  }

  lemma CompareEntries(cmp: Comparator, a: Entry, b: Entry)
    requires Storable(a) && Storable(b)
    ensures KeyComparator(cmp)(Encode(a), Encode(b)) < 0 ==>
              cmp(a.key, b.key) < 0 || (Same(cmp, a.key, b.key) && b.seqno <= a.seqno)
    ensures KeyComparator(cmp)(Encode(a), Encode(b)) == 0 <==>
              Same(cmp, a.key, b.key) && a.seqno == b.seqno && a.kind == b.kind
  {
    KeyOfEncode(a);
    KeyOfEncode(b);
    CompareIsNewestFirst(cmp, InternalKey(a.key, a.seqno, a.kind), InternalKey(b.key, b.seqno, b.kind));
  }

  /** The first entry not before the lookup key is the newest candidate, if it is one. */
  lemma FirstIsNewest(cmp: Comparator, keys: seq<Bytes>, bottom: seq<nat>, added: seq<Entry>, key: Bytes, s: nat, r: nat)
    requires SkipList.SortedLevel(KeyComparator(cmp), keys, bottom) && Holds(keys, bottom, added)
    requires |key| + 8 < TWO_32 && s <= MAX_SEQUENCE
    requires r == SkipList.Rank(KeyComparator(cmp), keys, bottom, Some(LookupKey(key, s)))
    ensures forall i | 0 <= i < |added| && Candidate(cmp, added[i], key, s) ::
              && r < |bottom| && 0 < bottom[r] <= |added|
              && Candidate(cmp, added[bottom[r] - 1], key, s) && added[i].seqno <= added[bottom[r] - 1].seqno
    ensures r < |bottom| ==> 0 < bottom[r] <= |added| && (Same(cmp, added[bottom[r] - 1].key, key) ==> added[bottom[r] - 1].seqno <= s)
  {
    hide Encode, LookupKey, KeyComparator, SkipList.Rank;
    if r < |bottom| {
      var first := bottom[r] - 1;
      assert HoldsAt(keys, bottom, added, first);
      CompareEntry(cmp, added[first], key, s);
    }
    forall i | 0 <= i < |added| && Candidate(cmp, added[i], key, s)
      ensures && r < |bottom| && 0 < bottom[r] <= |added|
              && Candidate(cmp, added[bottom[r] - 1], key, s) && added[i].seqno <= added[bottom[r] - 1].seqno
    {
      CandidateAtRank(cmp, keys, bottom, added, key, s, r, i);
    }
  }

  /** A node not before the target is at or after the rank, where no node is before it. */
  lemma FirstNotBefore(c: Comparator, keys: seq<Bytes>, level: seq<nat>, target: Bytes, k: nat)
    requires SkipList.SortedLevel(c, keys, level) && k < |level| && !(c(keys[level[k]], target) < 0)
    ensures var r := SkipList.Rank(c, keys, level, Some(target));
            r <= k && 0 < level[r] < |keys| && !(c(keys[level[r]], target) < 0) && (r < k ==> c(keys[level[r]], keys[level[k]]) < 0)
  {
    hide SkipList.Rank;
    var r := SkipList.Rank(c, keys, level, Some(target));
    assert k < r ==> SkipList.Passes(c, keys, Some(target), level[k]);
  }

  lemma CandidateAtRank(cmp: Comparator, keys: seq<Bytes>, bottom: seq<nat>, added: seq<Entry>, key: Bytes, s: nat, r: nat, i: nat)
    requires SkipList.SortedLevel(KeyComparator(cmp), keys, bottom) && Holds(keys, bottom, added)
    requires |key| + 8 < TWO_32 && s <= MAX_SEQUENCE
    requires r == SkipList.Rank(KeyComparator(cmp), keys, bottom, Some(LookupKey(key, s)))
    requires i < |added| && Candidate(cmp, added[i], key, s)
    ensures && r < |bottom| && 0 < bottom[r] <= |added|
            && Candidate(cmp, added[bottom[r] - 1], key, s) && added[i].seqno <= added[bottom[r] - 1].seqno
  {
    hide Encode, LookupKey, KeyComparator, SkipList.Rank, SkipList.SortedLevel;
    assert HoldsAt(keys, bottom, added, i);
    var k :| 0 <= k < |bottom| && bottom[k] == i + 1;
    CompareEntry(cmp, added[i], key, s);
    ThreeKeys(cmp, added[i].key, key, key);
    FirstNotBefore(KeyComparator(cmp), keys, bottom, LookupKey(key, s), k);
    assert HoldsAt(keys, bottom, added, bottom[r] - 1);
    if r < k {
      TwoCandidates(cmp, added[bottom[r] - 1], added[i], key, s);
    }
  }

  /** An entry listed before a candidate, but not before the lookup key, is a newer one. */
  lemma TwoCandidates(cmp: Comparator, first: Entry, e: Entry, key: Bytes, s: nat)
    requires Storable(first) && Storable(e) && |key| + 8 < TWO_32 && s <= MAX_SEQUENCE
    requires KeyComparator(cmp)(Encode(first), Encode(e)) < 0 && Candidate(cmp, e, key, s)
    requires !(KeyComparator(cmp)(Encode(first), LookupKey(key, s)) < 0)
    ensures Candidate(cmp, first, key, s) && e.seqno <= first.seqno
  {
    hide Encode, LookupKey, KeyComparator;
    CompareEntry(cmp, first, key, s);
    CompareEntries(cmp, first, e);
    ThreeKeys(cmp, first.key, e.key, key);
  }

  class Table {
    const cmp: Comparator
    const list: SkipListOps.List
    ghost var added: seq<Entry>

    ghost predicate Valid()
      reads this, list
    {
      && list.Valid() && list.cmp == KeyComparator(cmp)
      && Holds(list.mem.keys, list.levels[0], added)
    }

    constructor (compare: Comparator)
      ensures Valid() && cmp == compare && added == [] && fresh(list)
    {
      cmp := compare;
      list := new SkipListOps.List(KeyComparator(compare));
      added := [];
    }

    /** `height` is what the list's RandomHeight drew. */
    method Add(s: nat, kind: Kind, key: Bytes, value: Bytes, height: nat)
      requires Valid() && s <= MAX_SEQUENCE && |key| + 8 < TWO_32 && |value| < TWO_32 && 1 <= height <= SkipList.MAX_HEIGHT
      requires forall e | e in added :: !(Same(cmp, e.key, key) && e.seqno == s && e.kind == kind)
      modifies this, list
      ensures Valid() && added == old(added) + [Entry(key, s, kind, value)]
    {
      var e := Entry(key, s, kind, value);
      Fresh(e);
      HoldsOneMore(list.mem.keys, list.levels[0], added, e,
                   SkipList.Rank(list.cmp, list.mem.keys, list.levels[0], Some(Encode(e))));
      list.Insert(Encode(e), height);
      added := added + [e];
    }

    lemma Fresh(e: Entry)
      requires Valid() && Storable(e)
      requires forall x | x in added :: !(Same(cmp, x.key, e.key) && x.seqno == e.seqno && x.kind == e.kind)
      ensures SkipListOps.NoEqual(list.cmp, list.mem.keys, list.levels[0], Encode(e), SkipList.NIL)
    {
      var keys, bottom := list.mem.keys, list.levels[0];
      forall x | x in bottom && x != SkipList.NIL && x < |keys|
        ensures list.cmp(keys[x], Encode(e)) != 0
      {
        assert HoldsAt(keys, bottom, added, x - 1);
        CompareEntries(cmp, added[x - 1], e);
      }
    }

    /** The newest entry of the key at or below the snapshot. */
    method Get(key: Bytes, s: nat) returns (r: Lookup)
      requires Valid() && |key| + 8 < TWO_32 && s <= MAX_SEQUENCE
      ensures LooksUp(cmp, ToSet(added), key, s, r)
    {
      var node := list.FindGreaterOrEqual(LookupKey(key, s));
      SortedBottom();
      FirstIsNewest(cmp, list.mem.keys, list.levels[0], added, key, s,
                    SkipList.Rank(list.cmp, list.mem.keys, list.levels[0], Some(LookupKey(key, s))));
      if node == SkipList.NIL {
        return Absent;
      }
      assert HoldsAt(list.mem.keys, list.levels[0], added, node - 1);
      r := ReadEntry(list.mem.keys[node], key, added[node - 1]);
      assert added[node - 1] in added;
    }

    lemma SortedBottom()
      requires Valid()
      ensures SkipList.SortedLevel(list.cmp, list.mem.keys, list.levels[0])
    {
      assert SkipList.LevelAt(list.cmp, list.mem, list.levels, 0);
    }

    /** What the entry found says about the key. */
    method ReadEntry(entry: Bytes, key: Bytes, ghost e: Entry) returns (r: Lookup)
      requires Storable(e) && entry == Encode(e)
      ensures r == if !Same(cmp, e.key, key) then Absent else if e.kind.Value? then Found(e.value) else Deleted
    {
      hide Encode, KeyOf, PutPrefixed, GetPrefixed, ExtractTag, ExtractUserKey, AppendInternalKey;
      KeyOfEncode(e);
      TagRoundTrip(e.key, e.seqno, e.kind);
      assert PutPrefixed(e.value) + [] == PutPrefixed(e.value);
      PrefixedRoundTrip(e.value, []);
      var (k, rest) := GetPrefixed(entry).value;
      if cmp(ExtractUserKey(k), key) != 0 {
        return Absent;
      }
      if ExtractTag(k) % 256 == 1 {
        return Found(GetPrefixed(rest).value.0);
      }
      return Deleted;
    }
  }

  // ----- memtable, immutable memtable, tables

  /** Every entry of an earlier layer is newer than the later layers' entries of its key. */
  ghost predicate NewestLayerFirst(cmp: Comparator, layers: seq<set<Entry>>) {
    forall i, j | 0 <= i < j < |layers| :: NewerLayer(cmp, layers[i], layers[j])
  }

  ghost predicate NewerLayer(cmp: Comparator, above: set<Entry>, below: set<Entry>) {
    forall a, b | a in above && b in below && Same(cmp, a.key, b.key) :: b.seqno < a.seqno
  }

  ghost function Union(layers: seq<set<Entry>>): set<Entry> {
    if layers == [] then {} else layers[0] + Union(layers[1..])
  }

  /** The first layer that knows the key decides. */
  function FirstHit(results: seq<Lookup>): Lookup {
    if results == [] then Absent else if results[0].Absent? then FirstHit(results[1..]) else results[0]
  }

  /** Each layer up to the first hit was looked up; later ones need not be. */
  ghost predicate Searched(cmp: Comparator, layers: seq<set<Entry>>, results: seq<Lookup>, key: Bytes, s: nat)
    requires |results| == |layers|
  {
    layers == [] || (LooksUp(cmp, layers[0], key, s, results[0])
                     && (results[0].Absent? ==> Searched(cmp, layers[1..], results[1..], key, s)))
  }

  lemma {:induction false} InUnion(layers: seq<set<Entry>>, e: Entry) returns (i: nat)
    requires e in Union(layers)
    ensures i < |layers| && e in layers[i]
  {
    if e in layers[0] {
      i := 0;
    } else {
      var j := InUnion(layers[1..], e);
      i := j + 1;
    }
  }

  /** Searching the layers newest first looks the key up in all of them together. */
  lemma {:induction false} LayeredLookup(cmp: Comparator, layers: seq<set<Entry>>, results: seq<Lookup>, key: Bytes, s: nat)
    requires |results| == |layers| && NewestLayerFirst(cmp, layers)
    requires Searched(cmp, layers, results, key, s)
    ensures LooksUp(cmp, Union(layers), key, s, FirstHit(results))
  {
    if layers != [] {
      if results[0].Absent? {
        LayeredLookup(cmp, layers[1..], results[1..], key, s);
        Widen(cmp, layers[0], Union(layers[1..]), key, s, FirstHit(results));
      } else {
        var e :| NewestFor(cmp, layers[0], key, s, e) && (if results[0].Found? then e.kind.Value? && e.value == results[0].value else e.kind.Deletion?);
        forall other | other in Union(layers) && Candidate(cmp, other, key, s)
          ensures other.seqno <= e.seqno
        {
          if other !in layers[0] {
            var j := InUnion(layers[1..], other);
            SameIsEquivalence(cmp, other.key, key, e.key);
            SameIsEquivalence(cmp, e.key, key, other.key);
            assert NewerLayer(cmp, layers[0], layers[j + 1]);
          }
        }
        assert NewestFor(cmp, Union(layers), key, s, e);
      }
    }
  }

  /** A layer without candidates changes nothing. */
  lemma Widen(cmp: Comparator, empty: set<Entry>, es: set<Entry>, key: Bytes, s: nat, r: Lookup)
    requires LooksUp(cmp, es, key, s, r) && LooksUp(cmp, empty, key, s, Absent)
    ensures LooksUp(cmp, empty + es, key, s, r)
  {
    if !r.Absent? {
      var e :| NewestFor(cmp, es, key, s, e) && (if r.Found? then e.kind.Value? && e.value == r.value else e.kind.Deletion?);
      assert NewestFor(cmp, empty + es, key, s, e);
    }
  }

  lemma ThreeLayers(cmp: Comparator, a: set<Entry>, b: set<Entry>, c: set<Entry>, ra: Lookup, rb: Lookup, rc: Lookup, key: Bytes, s: nat)
    requires NewerLayer(cmp, a, b) && NewerLayer(cmp, a, c) && NewerLayer(cmp, b, c) && Distinct(a + b + c)
    requires LooksUp(cmp, a, key, s, ra)
    requires ra.Absent? ==> LooksUp(cmp, b, key, s, rb)
    requires ra.Absent? && rb.Absent? ==> LooksUp(cmp, c, key, s, rc)
    ensures Answers(cmp, a + b + c, s, key, ToAnswer(if !ra.Absent? then ra else if !rb.Absent? then rb else rc))
  {
    hide LooksUp, NewerLayer, Answers;
    var layers, results := [a, b, c], [ra, rb, rc];
    assert layers[1..] == [b, c] && layers[1..][1..] == [c] && layers[1..][1..][1..] == [];
    assert results[1..] == [rb, rc] && results[1..][1..] == [rc] && results[1..][1..][1..] == [];
    assert Searched(cmp, layers[1..][1..][1..], results[1..][1..][1..], key, s);
    assert ra.Absent? && rb.Absent? ==> Searched(cmp, layers[1..][1..], results[1..][1..], key, s);
    assert ra.Absent? ==> Searched(cmp, layers[1..], results[1..], key, s);
    LayeredLookup(cmp, layers, results, key, s);
    assert Union(layers[1..][1..][1..]) == {} && Union(layers[1..][1..]) == c && Union(layers[1..]) == b + c;
    assert Union(layers) == a + b + c;
    assert FirstHit(results[1..][1..][1..]) == Absent && FirstHit(results[1..][1..]) == rc;
    assert FirstHit(results[1..]) == if rb.Absent? then rc else rb;
    LookupAnswers(cmp, Union(layers), key, s, FirstHit(results));
  }

  /** DBImpl::Get: memtable, then immutable memtable if there is one, then the tables. */
  method Get(mem: Table, imm: Option<Table>, ghost tables: set<Entry>, fromTables: Lookup, key: Bytes, s: nat) returns (answer: Option<Bytes>)
    requires mem.Valid() && (imm.Some? ==> imm.value.Valid() && imm.value.cmp == mem.cmp)
    requires |key| + 8 < TWO_32 && s <= MAX_SEQUENCE
    requires LooksUp(mem.cmp, tables, key, s, fromTables)
    requires NewerLayer(mem.cmp, ToSet(mem.added), Immutable(imm)) && NewerLayer(mem.cmp, ToSet(mem.added), tables)
    requires NewerLayer(mem.cmp, Immutable(imm), tables) && Distinct(ToSet(mem.added) + Immutable(imm) + tables)
    ensures Answers(mem.cmp, ToSet(mem.added) + Immutable(imm) + tables, s, key, answer)
  {
    hide LooksUp, NewerLayer, Answers, Distinct;
    var r := mem.Get(key, s);
    var r' := Absent;
    if r.Absent? {
      if imm.Some? {
        r' := imm.value.Get(key, s);
      } else {
        NothingThere(mem.cmp, key, s);
      }
    }
    ThreeLayers(mem.cmp, ToSet(mem.added), Immutable(imm), tables, r, r', fromTables, key, s);
    answer := ToAnswer(if !r.Absent? then r else if !r'.Absent? then r' else fromTables);
  }

  ghost function Immutable(imm: Option<Table>): set<Entry>
    reads if imm.Some? then {imm.value} else {}
  {
    if imm.Some? then ToSet(imm.value.added) else {}
  }

  lemma NothingThere(cmp: Comparator, key: Bytes, s: nat)
    ensures LooksUp(cmp, {}, key, s, Absent)
  {
  }
}
