/** memcached's hash table: chained buckets that move to a table of twice the size, one item
    at a time, while lookups go on. */
module Assoc {
  import opened Lists
  import opened Store

  /** The address of an item; 0 is the null pointer. */
  type Id = nat
  const NIL: Id := 0

  type Hash = Bytes -> nat

  // ----- low bits

  /** hashsize(n) */
  function Pow2(n: nat): (p: nat)
    ensures 0 < p
  {
    if n == 0 then 1 else 2 * Pow2(n - 1)
  }

  /** h & hashmask(n) */
  function Bits(h: nat, n: nat): (b: nat)
    ensures b < Pow2(n)
    decreases n
  {
    if n == 0 then 0 else h % 2 + 2 * Bits(h / 2, n - 1)
  }

  /** The low m bits of the low n bits are the low m bits. */
  lemma {:induction false} LowBits(h: nat, m: nat, n: nat)
    requires m <= n
    ensures Bits(Bits(h, n), m) == Bits(h, m)
    decreases m
  {
    if m > 0 {
      LowBits(h / 2, m - 1, n - 1);
      var low := Bits(h, n);
      assert low % 2 == h % 2 && low / 2 == Bits(h / 2, n - 1);
    }
  }

  // ----- the tables

  datatype Table = Table(
    power: nat,                 // hashpower
    expanding: bool,
    expandBucket: nat,
    primary: seq<Id>,
    oldTable: seq<Id>,
    next: map<Id, Id>,          // h_next
    keys: map<Id, Bytes>,       // ITEM_key
    items: nat)                 // hash_items

  datatype Bucket = New(i: nat) | Old(i: nat)

  predicate IsBucket(t: Table, b: Bucket) {
    match b
    case New(i) => i < |t.primary|
    case Old(i) => t.expanding && i < |t.oldTable|
  }

  predicate Shape(t: Table) {
    && |t.primary| == Pow2(t.power)
    && (t.expanding ==> 0 < t.power && |t.oldTable| == Pow2(t.power - 1) && t.expandBucket < |t.oldTable|)
  }

  /** The bucket that assoc_find, assoc_insert and _hashitem_before choose. */
  function Where(t: Table, h: nat): (b: Bucket)
    requires Shape(t)
    ensures IsBucket(t, b)
  {
    if t.expanding && Bits(h, t.power - 1) >= t.expandBucket then Old(Bits(h, t.power - 1)) else New(Bits(h, t.power))
  }

  function Head(t: Table, b: Bucket): Id
    requires IsBucket(t, b)
  {
    match b case New(i) => t.primary[i] case Old(i) => t.oldTable[i]
  }

  function SetHead(t: Table, b: Bucket, it: Id): (t': Table)
    requires IsBucket(t, b)
    ensures t' == t.(primary := t'.primary, oldTable := t'.oldTable) && |t'.primary| == |t.primary| && |t'.oldTable| == |t.oldTable|
  {
    match b
    case New(i) => t.(primary := t.primary[i := it])
    case Old(i) => t.(oldTable := t.oldTable[i := it])
  }

  // ----- chains

  /** For each bucket the items its chain runs through. */
  type Chains = map<Bucket, seq<Id>>

  ghost function Chain(c: Chains, b: Bucket): seq<Id> {
    if b in c then c[b] else []
  }

  ghost predicate Linked(next: map<Id, Id>, head: Id, ids: seq<Id>)
    decreases ids
  {
    if ids == [] then head == NIL
    else head == ids[0] && head != NIL && head in next && Linked(next, next[head], ids[1..])
  }

  lemma {:induction false} LinkedFrame(next: map<Id, Id>, next': map<Id, Id>, head: Id, ids: seq<Id>)
    requires Linked(next, head, ids)
    requires forall id | id in ids :: id in next' && (id in next ==> next'[id] == next[id])
    ensures Linked(next', head, ids)
    decreases ids
  {
    if ids != [] {
      LinkedFrame(next, next', next[head], ids[1..]);
    }
  }

  lemma {:induction false} LinkedIds(next: map<Id, Id>, head: Id, ids: seq<Id>, id: Id)
    requires Linked(next, head, ids) && id in ids
    ensures id != NIL && id in next
    decreases ids
  {
    if id != ids[0] {
      LinkedIds(next, next[head], ids[1..], id);
    }
  }

  /** The links from `head` on run through these items. */
  ghost predicate IsChain(next: map<Id, Id>, head: Id, ids: seq<Id>) {
    Linked(next, head, ids) && NoRepeats(ids)
  }

  lemma ChainFrame(next: map<Id, Id>, next': map<Id, Id>, head: Id, ids: seq<Id>)
    requires IsChain(next, head, ids)
    requires forall id | id in ids && id in next :: id in next' && next'[id] == next[id]
    ensures IsChain(next', head, ids)
  {
    LinkedKnown(next, head, ids);
    LinkedFrame(next, next', head, ids);
  }

  /** Where the chain of b starts. While old bucket expandBucket is being moved, what is left
      of its chain starts at the mover's cursor. */
  ghost function Start(t: Table, cursor: Option<Id>, b: Bucket): Id
    requires IsBucket(t, b)
  {
    if cursor.Some? && b == Old(t.expandBucket) then cursor.value else Head(t, b)
  }

  /** An item with hash h may be in bucket b. */
  ghost predicate Fits(t: Table, b: Bucket, h: nat) {
    b == New(Bits(h, t.power)) || (t.expanding && 0 < t.power && b == Old(Bits(h, t.power - 1)))
  }

  /** Old buckets that have been moved, and new buckets whose old one has not. */
  ghost predicate Unused(t: Table, cursor: Option<Id>, b: Bucket) {
    match b
    case Old(i) => i < t.expandBucket
    case New(j) => t.expanding && 0 < t.power &&
                   (Bits(j, t.power - 1) > t.expandBucket || (Bits(j, t.power - 1) == t.expandBucket && cursor.None?))
  }

  ghost predicate ItemsFit(hash: Hash, t: Table, m: map<Bytes, Id>, b: Bucket, ids: seq<Id>) {
    forall id | id in ids :: ItemFits(hash, t, m, b, id)
  }

  ghost predicate ItemFits(hash: Hash, t: Table, m: map<Bytes, Id>, b: Bucket, id: Id) {
    id in t.keys && t.keys[id] in m && m[t.keys[id]] == id && Fits(t, b, hash(t.keys[id]))
  }

  ghost predicate BucketAt(hash: Hash, t: Table, cursor: Option<Id>, c: Chains, m: map<Bytes, Id>, b: Bucket) {
    if IsBucket(t, b) then
      && IsChain(t.next, Start(t, cursor, b), Chain(c, b))
      && ItemsFit(hash, t, m, b, Chain(c, b))
      && (Unused(t, cursor, b) ==> Chain(c, b) == [])
    else Chain(c, b) == []
  }

  /** The item of a key is in one of its two buckets. */
  ghost predicate KeyAt(hash: Hash, t: Table, c: Chains, m: map<Bytes, Id>, key: Bytes) {
    key in m ==> m[key] in t.keys && t.keys[m[key]] == key && exists b :: Fits(t, b, hash(key)) && m[key] in Chain(c, b)
  }

  /** What is left of a bucket being moved and what has been moved do not overlap. */
  ghost predicate Apart(c: Chains, b: Bucket) {
    forall id, j {:trigger ApartAt(c, b, id, j)} :: ApartAt(c, b, id, j)
  }

  ghost predicate ApartAt(c: Chains, b: Bucket, id: Id, j: nat) {
    id in Chain(c, b) ==> id !in Chain(c, New(j))
  }

  /** The tables hold the map m; `cursor` is the mover's, while it works on a bucket. */
  ghost predicate Inv(hash: Hash, t: Table, cursor: Option<Id>, c: Chains, m: map<Bytes, Id>) {
    && Shape(t) && (cursor.Some? ==> t.expanding) && t.items == |m|
    && (forall b {:trigger BucketAt(hash, t, cursor, c, m, b)} :: BucketAt(hash, t, cursor, c, m, b))
    && (forall key {:trigger KeyAt(hash, t, c, m, key)} :: KeyAt(hash, t, c, m, key))
    && Apart(c, Old(t.expandBucket))
  }

  /** No worker may be at a bucket that the mover works on. */
  ghost predicate Undisturbed(t: Table, cursor: Option<Id>, h: nat) {
    cursor.Some? && 0 < t.power ==> Bits(h, t.power - 1) != t.expandBucket
  }

  /** An item is in one chain only. */
  lemma OneHome(hash: Hash, t: Table, cursor: Option<Id>, c: Chains, m: map<Bytes, Id>, b: Bucket, b': Bucket, id: Id)
    requires Inv(hash, t, cursor, c, m) && id in Chain(c, b) && id in Chain(c, b')
    ensures b == b'
  {
    assert BucketAt(hash, t, cursor, c, m, b) && BucketAt(hash, t, cursor, c, m, b');
    assert ItemFits(hash, t, m, b, id) && ItemFits(hash, t, m, b', id);
    assert ApartAt(c, Old(t.expandBucket), id, b.i) && ApartAt(c, Old(t.expandBucket), id, b'.i);
    if b != b' {
      LowBits(hash(t.keys[id]), t.power - 1, t.power);
    }
  }

  /** The chosen bucket has the key's item, if there is one. */
  lemma FoundWhere(hash: Hash, t: Table, cursor: Option<Id>, c: Chains, m: map<Bytes, Id>, key: Bytes)
    requires Inv(hash, t, cursor, c, m) && Undisturbed(t, cursor, hash(key))
    ensures key in m ==> m[key] in Chain(c, Where(t, hash(key)))
  {
    if key in m {
      var h := hash(key);
      assert KeyAt(hash, t, c, m, key);
      var b :| Fits(t, b, h) && m[key] in Chain(c, b);
      assert BucketAt(hash, t, cursor, c, m, b);
      if t.expanding {
        LowBits(h, t.power - 1, t.power);
      }
    }
  }

  /** Walking the chosen chain from its start gives the map's answer. */
  lemma WalkAnswers(hash: Hash, t: Table, cursor: Option<Id>, c: Chains, m: map<Bytes, Id>, key: Bytes, passed: seq<Id>, rest: seq<Id>)
    requires Inv(hash, t, cursor, c, m) && Undisturbed(t, cursor, hash(key))
    requires Chain(c, Where(t, hash(key))) == passed + rest
    requires forall id | id in passed :: id in t.keys && t.keys[id] != key
    ensures rest == [] ==> key !in m
    ensures rest != [] ==> rest[0] in t.keys && (t.keys[rest[0]] == key ==> key in m && m[key] == rest[0])
  {
    var b := Where(t, hash(key));
    FoundWhere(hash, t, cursor, c, m, key);
    assert BucketAt(hash, t, cursor, c, m, b);
    if rest != [] {
      assert rest[0] in Chain(c, b);
      assert ItemFits(hash, t, m, b, rest[0]);
    } else {
      assert KeyAt(hash, t, c, m, key);
    }
  }

  /** A walk along the chosen chain is at item `it`: `passed` lie behind and do not have the
      key, `rest` are to come. */
  ghost predicate WalkAt(hash: Hash, t: Table, cursor: Option<Id>, c: Chains, m: map<Bytes, Id>, key: Bytes,
                         passed: seq<Id>, rest: seq<Id>, it: Id) {
    && Inv(hash, t, cursor, c, m) && Undisturbed(t, cursor, hash(key))
    && Chain(c, Where(t, hash(key))) == passed + rest && Linked(t.next, it, rest)
    && forall id | id in passed :: id in t.keys && t.keys[id] != key
  }

  lemma WalkBegins(hash: Hash, t: Table, cursor: Option<Id>, c: Chains, m: map<Bytes, Id>, key: Bytes)
    requires Inv(hash, t, cursor, c, m) && Undisturbed(t, cursor, hash(key))
    ensures var b := Where(t, hash(key));
            WalkAt(hash, t, cursor, c, m, key, [], Chain(c, b), Head(t, b))
  {
    var b := Where(t, hash(key));
    assert BucketAt(hash, t, cursor, c, m, b);
    assert [] + Chain(c, b) == Chain(c, b);
    StartIsHead(t, cursor, hash(key));
  }

  lemma WalkEnds(hash: Hash, t: Table, cursor: Option<Id>, c: Chains, m: map<Bytes, Id>, key: Bytes,
                 passed: seq<Id>, rest: seq<Id>, it: Id)
    requires WalkAt(hash, t, cursor, c, m, key, passed, rest, it)
    ensures it == NIL ==> key !in m
    ensures it != NIL ==> rest != [] && rest[0] == it && it in t.keys && it in t.next && (t.keys[it] == key ==> key in m && m[key] == it)
  {
    WalkAnswers(hash, t, cursor, c, m, key, passed, rest);
  }

  lemma WalkGoesOn(hash: Hash, t: Table, cursor: Option<Id>, c: Chains, m: map<Bytes, Id>, key: Bytes,
                   passed: seq<Id>, rest: seq<Id>, it: Id)
    requires WalkAt(hash, t, cursor, c, m, key, passed, rest, it)
    requires it != NIL && it in t.keys && it in t.next && t.keys[it] != key && rest != []
    ensures WalkAt(hash, t, cursor, c, m, key, passed + [it], rest[1..], t.next[it])
  {
    assert passed + [it] + rest[1..] == passed + rest;
  }

  // ----- insert

  /** assoc_insert: the item goes to the front of its chain. */
  function PutFront(t: Table, b: Bucket, it: Id, key: Bytes): (t': Table)
    requires IsBucket(t, b)
  {
    var t1 := t.(next := t.next[it := Head(t, b)], keys := t.keys[it := key]);
    SetHead(t1, b, it).(items := t.items + 1)
  }

  ghost predicate Unlinked(m: map<Bytes, Id>, it: Id) {
    it != NIL && forall key | key in m :: m[key] != it
  }

  lemma NotInChains(hash: Hash, t: Table, cursor: Option<Id>, c: Chains, m: map<Bytes, Id>, it: Id, b: Bucket)
    requires Inv(hash, t, cursor, c, m) && Unlinked(m, it)
    ensures it !in Chain(c, b)
  {
    assert BucketAt(hash, t, cursor, c, m, b);
    assert it in Chain(c, b) ==> ItemFits(hash, t, m, b, it);
  }

  /** The chain that gains the item. */
  lemma InsertHere(hash: Hash, t: Table, cursor: Option<Id>, c: Chains, m: map<Bytes, Id>, it: Id, key: Bytes)
    requires Inv(hash, t, cursor, c, m) && Undisturbed(t, cursor, hash(key)) && key !in m && Unlinked(m, it)
    ensures var b := Where(t, hash(key));
            BucketAt(hash, PutFront(t, b, it, key), cursor, c[b := [it] + Chain(c, b)], m[key := it], b)
  {
    hide Bits, IsChain, Apart;
    var h := hash(key);
    var b := Where(t, h);
    var ids := Chain(c, b);
    var t', m' := PutFront(t, b, it, key), m[key := it];
    assert BucketAt(hash, t, cursor, c, m, b);
    NotInChains(hash, t, cursor, c, m, it, b);
    StartIsHead(t, cursor, h);
    StartIsHead(t', cursor, h);
    ChainFront(t.next, Head(t, b), ids, it);
    UnusedNotChosen(t, cursor, h);
    forall id | id in [it] + ids
      ensures ItemFits(hash, t', m', b, id)
    {
      assert id == it || ItemFits(hash, t, m, b, id);
    }
  }

  lemma UnusedNotChosen(t: Table, cursor: Option<Id>, h: nat)
    requires Shape(t) && Undisturbed(t, cursor, h)
    ensures !Unused(t, cursor, Where(t, h)) || !t.expanding
    ensures Fits(t, Where(t, h), h)
  {
    if t.expanding {
      LowBits(h, t.power - 1, t.power);
    }
  }

  lemma ChainFront(next: map<Id, Id>, head: Id, ids: seq<Id>, it: Id)
    requires IsChain(next, head, ids) && it !in ids && it != NIL
    ensures IsChain(next[it := head], it, [it] + ids)
  {
    ChainFrame(next, next[it := head], head, ids);
    assert ([it] + ids)[1..] == ids;
  }

  lemma InsertElsewhere(hash: Hash, t: Table, cursor: Option<Id>, c: Chains, m: map<Bytes, Id>, it: Id, key: Bytes, b': Bucket)
    requires Inv(hash, t, cursor, c, m) && Undisturbed(t, cursor, hash(key)) && key !in m && Unlinked(m, it)
    requires b' != Where(t, hash(key))
    ensures var b := Where(t, hash(key));
            BucketAt(hash, PutFront(t, b, it, key), cursor, c[b := [it] + Chain(c, b)], m[key := it], b')
  {
    hide Bits;
    hide IsChain, Apart;
    var t', m' := PutFront(t, Where(t, hash(key)), it, key), m[key := it];
    assert BucketAt(hash, t, cursor, c, m, b');
    NotInChains(hash, t, cursor, c, m, it, b');
    if IsBucket(t, b') {
      ChainFrame(t.next, t'.next, Start(t, cursor, b'), Chain(c, b'));
      forall id | id in Chain(c, b')
        ensures ItemFits(hash, t', m', b', id)
      {
        assert ItemFits(hash, t, m, b', id);
      }
    }
  }

  lemma LinkedKnown(next: map<Id, Id>, head: Id, ids: seq<Id>)
    ensures Linked(next, head, ids) ==> forall id | id in ids :: id in next
  {
    if Linked(next, head, ids) {
      forall id | id in ids
        ensures id in next
      {
        LinkedIds(next, head, ids, id);
      }
    }
  }

  lemma InsertKey(hash: Hash, t: Table, cursor: Option<Id>, c: Chains, m: map<Bytes, Id>, it: Id, key: Bytes, key': Bytes)
    requires Inv(hash, t, cursor, c, m) && Undisturbed(t, cursor, hash(key)) && key !in m && Unlinked(m, it)
    ensures var b := Where(t, hash(key));
            KeyAt(hash, PutFront(t, b, it, key), c[b := [it] + Chain(c, b)], m[key := it], key')
  {
    hide Bits;
    var b := Where(t, hash(key));
    var t', c' := PutFront(t, b, it, key), c[b := [it] + Chain(c, b)];
    assert KeyAt(hash, t, c, m, key');
    if key' == key {
      assert Fits(t', b, hash(key)) && it in Chain(c', b);
    } else if key' in m {
      var home :| Fits(t, home, hash(key')) && m[key'] in Chain(c, home);
      assert Fits(t', home, hash(key')) && m[key'] in Chain(c', home);
    }
  }

  lemma InsertKeeps(hash: Hash, t: Table, cursor: Option<Id>, c: Chains, m: map<Bytes, Id>, it: Id, key: Bytes)
    requires Inv(hash, t, cursor, c, m) && Undisturbed(t, cursor, hash(key)) && key !in m && Unlinked(m, it)
    ensures var b := Where(t, hash(key));
            Inv(hash, PutFront(t, b, it, key), cursor, c[b := [it] + Chain(c, b)], m[key := it])
  {
    var b := Where(t, hash(key));
    var t', c', m' := PutFront(t, b, it, key), c[b := [it] + Chain(c, b)], m[key := it];
    forall b'
      ensures BucketAt(hash, t', cursor, c', m', b')
    {
      if b' == b {
        InsertHere(hash, t, cursor, c, m, it, key);
      } else {
        InsertElsewhere(hash, t, cursor, c, m, it, key, b');
      }
    }
    forall key'
      ensures KeyAt(hash, t', c', m', key')
    {
      InsertKey(hash, t, cursor, c, m, it, key, key');
    }
    forall b'
      ensures it !in Chain(c, b')
    {
      NotInChains(hash, t, cursor, c, m, it, b');
    }
    InsertApart(hash, t, cursor, c, m, it, key);
  }

  lemma InsertApart(hash: Hash, t: Table, cursor: Option<Id>, c: Chains, m: map<Bytes, Id>, it: Id, key: Bytes)
    requires Inv(hash, t, cursor, c, m) && Undisturbed(t, cursor, hash(key)) && key !in m && Unlinked(m, it)
    ensures var b := Where(t, hash(key));
            Apart(c[b := [it] + Chain(c, b)], Old(t.expandBucket))
  {
    var b, e := Where(t, hash(key)), Old(t.expandBucket);
    var c' := c[b := [it] + Chain(c, b)];
    forall id, j
      ensures ApartAt(c', e, id, j)
    {
      assert ApartAt(c, e, id, j);
      NotInChains(hash, t, cursor, c, m, it, e);
      NotInChains(hash, t, cursor, c, m, it, New(j));
    }
  }

  // ----- delete

  /** assoc_delete: the item's link is cleared, and the pointer to it is set past it. `before`
      is the item that points to it, or NIL if the bucket does. */
  function Unlink(t: Table, b: Bucket, before: Id, it: Id): Table
    requires IsBucket(t, b) && it in t.next && 0 < t.items
  {
    var after := t.next[it];
    var t1 := t.(next := t.next[it := NIL], items := t.items - 1);
    if before == NIL then SetHead(t1, b, after) else t1.(next := t1.next[before := after])
  }

  lemma {:induction false} LinkedWithout(next: map<Id, Id>, head: Id, ids: seq<Id>, i: nat)
    requires Linked(next, head, ids) && NoRepeats(ids) && 0 < i < |ids|
    requires ids[i] in next && ids[i - 1] in next
    ensures Linked(next[ids[i] := NIL][ids[i - 1] := next[ids[i]]], head, Without(ids, i))
    decreases ids
  {
    var next' := next[ids[i] := NIL][ids[i - 1] := next[ids[i]]];
    var ids' := Without(ids, i);
    assert ids'[0] == ids[0];
    if i == 1 {
      assert ids'[1..] == ids[2..] && ids[1..][1..] == ids[2..];
      LinkedKnown(next, next[ids[1]], ids[2..]);
      LinkedFrame(next, next', next[ids[1]], ids[2..]);
    } else {
      assert ids'[1..] == Without(ids[1..], i - 1);
      LinkedWithout(next, next[head], ids[1..], i - 1);
    }
  }

  lemma ChainWithout(next: map<Id, Id>, head: Id, ids: seq<Id>, i: nat)
    requires IsChain(next, head, ids) && i < |ids| && ids[i] in next && (0 < i ==> ids[i - 1] in next)
    ensures NoRepeats(ids)
    ensures if i == 0 then IsChain(next[ids[0] := NIL], next[ids[0]], Without(ids, 0))
            else IsChain(next[ids[i] := NIL][ids[i - 1] := next[ids[i]]], head, Without(ids, i))
  {
    if i == 0 {
      assert Without(ids, 0) == ids[1..];
      ChainFrame(next, next[ids[0] := NIL], next[head], ids[1..]);
    } else {
      LinkedWithout(next, head, ids, i);
    }
  }

  lemma OtherItem(ids: seq<Id>, i: nat, id: Id)
    requires i < |ids| && id in Without(ids, i)
    ensures id in ids && (NoRepeats(ids) ==> id != ids[i])
  {
    var k :| 0 <= k < |ids| - 1 && Without(ids, i)[k] == id;
    assert id == ids[if k < i then k else k + 1];
  }

  ghost predicate Deletable(hash: Hash, t: Table, cursor: Option<Id>, c: Chains, m: map<Bytes, Id>, key: Bytes, i: nat) {
    && Inv(hash, t, cursor, c, m) && Undisturbed(t, cursor, hash(key)) && key in m
    && i < |Chain(c, Where(t, hash(key)))| && Chain(c, Where(t, hash(key)))[i] == m[key]
  }

  ghost function Before(ids: seq<Id>, i: nat): Id
    requires i < |ids|
  {
    if i == 0 then NIL else ids[i - 1]
  }

  lemma DeleteKnown(hash: Hash, t: Table, cursor: Option<Id>, c: Chains, m: map<Bytes, Id>, key: Bytes, i: nat)
    requires Deletable(hash, t, cursor, c, m, key, i)
    ensures var ids := Chain(c, Where(t, hash(key)));
            ids[i] in t.next && ids[i] != NIL && 0 < t.items && (0 < i ==> ids[i - 1] in t.next && ids[i - 1] != NIL)
  {
    var b := Where(t, hash(key));
    assert BucketAt(hash, t, cursor, c, m, b);
    LinkedIds(t.next, Start(t, cursor, b), Chain(c, b), Chain(c, b)[i]);
    if 0 < i {
      LinkedIds(t.next, Start(t, cursor, b), Chain(c, b), Chain(c, b)[i - 1]);
    }
    assert |m| > 0;
  }

  ghost function AfterDelete(hash: Hash, t: Table, cursor: Option<Id>, c: Chains, m: map<Bytes, Id>, key: Bytes, i: nat): Table
    requires Deletable(hash, t, cursor, c, m, key, i)
  {
    DeleteKnown(hash, t, cursor, c, m, key, i);
    var ids := Chain(c, Where(t, hash(key)));
    Unlink(t, Where(t, hash(key)), Before(ids, i), ids[i])
  }

  lemma NotElsewhere(hash: Hash, t: Table, cursor: Option<Id>, c: Chains, m: map<Bytes, Id>, key: Bytes, i: nat, b': Bucket)
    requires Deletable(hash, t, cursor, c, m, key, i) && b' != Where(t, hash(key))
    ensures var ids := Chain(c, Where(t, hash(key)));
            ids[i] !in Chain(c, b') && (0 < i ==> ids[i - 1] !in Chain(c, b'))
  {
    var b := Where(t, hash(key));
    if Chain(c, b)[i] in Chain(c, b') {
      OneHome(hash, t, cursor, c, m, b, b', Chain(c, b)[i]);
    }
    if 0 < i && Chain(c, b)[i - 1] in Chain(c, b') {
      OneHome(hash, t, cursor, c, m, b, b', Chain(c, b)[i - 1]);
    }
  }

  lemma StartIsHead(t: Table, cursor: Option<Id>, h: nat)
    requires Shape(t) && Undisturbed(t, cursor, h)
    ensures Start(t, cursor, Where(t, h)) == Head(t, Where(t, h))
  {
  }

  /** The chain that loses the item. */
  lemma DeleteHere(hash: Hash, t: Table, cursor: Option<Id>, c: Chains, m: map<Bytes, Id>, key: Bytes, i: nat)
    requires Deletable(hash, t, cursor, c, m, key, i)
    ensures var b := Where(t, hash(key));
            var ids := Chain(c, b);
            BucketAt(hash, AfterDelete(hash, t, cursor, c, m, key, i), cursor, c[b := Without(ids, i)], m - {key}, b)
  {
    hide Bits, IsChain, Apart;
    DeleteKnown(hash, t, cursor, c, m, key, i);
    var b := Where(t, hash(key));
    var ids := Chain(c, b);
    var t', m' := Unlink(t, b, Before(ids, i), ids[i]), m - {key};
    assert BucketAt(hash, t, cursor, c, m, b);
    StartIsHead(t, cursor, hash(key));
    StartIsHead(t', cursor, hash(key));
    ChainWithout(t.next, Head(t, b), ids, i);
    UnusedNotChosen(t, cursor, hash(key));
    forall id | id in Without(ids, i)
      ensures ItemFits(hash, t', m', b, id)
    {
      OtherItem(ids, i, id);
      assert ItemFits(hash, t, m, b, id);
    }
  }

  lemma DeleteElsewhere(hash: Hash, t: Table, cursor: Option<Id>, c: Chains, m: map<Bytes, Id>, key: Bytes, i: nat, b': Bucket)
    requires Deletable(hash, t, cursor, c, m, key, i) && b' != Where(t, hash(key))
    ensures var b := Where(t, hash(key));
            var ids := Chain(c, b);
            BucketAt(hash, AfterDelete(hash, t, cursor, c, m, key, i), cursor, c[b := Without(ids, i)], m - {key}, b')
  {
    hide Bits, IsChain, Apart;
    DeleteKnown(hash, t, cursor, c, m, key, i);
    var b := Where(t, hash(key));
    var ids := Chain(c, b);
    var t', m' := Unlink(t, b, Before(ids, i), ids[i]), m - {key};
    assert BucketAt(hash, t, cursor, c, m, b');
    NotElsewhere(hash, t, cursor, c, m, key, i, b');
    if IsBucket(t, b') {
      ChainFrame(t.next, t'.next, Start(t, cursor, b'), Chain(c, b'));
      forall id | id in Chain(c, b')
        ensures ItemFits(hash, t', m', b', id)
      {
        assert ItemFits(hash, t, m, b', id);
      }
    }
  }

  lemma DeleteKey(hash: Hash, t: Table, cursor: Option<Id>, c: Chains, m: map<Bytes, Id>, key: Bytes, i: nat, key': Bytes)
    requires Deletable(hash, t, cursor, c, m, key, i)
    ensures var b := Where(t, hash(key));
            var ids := Chain(c, b);
            KeyAt(hash, AfterDelete(hash, t, cursor, c, m, key, i), c[b := Without(ids, i)], m - {key}, key')
  {
    hide Bits;
    DeleteKnown(hash, t, cursor, c, m, key, i);
    var b := Where(t, hash(key));
    var ids := Chain(c, b);
    var t', c' := Unlink(t, b, Before(ids, i), ids[i]), c[b := Without(ids, i)];
    assert KeyAt(hash, t, c, m, key') && KeyAt(hash, t, c, m, key);
    if key' in m && key' != key {
      var home :| Fits(t, home, hash(key')) && m[key'] in Chain(c, home);
      assert m[key'] != m[key];
      if home == b {
        var k :| 0 <= k < |ids| && ids[k] == m[key'];
        assert k != i;
        assert Without(ids, i)[if k < i then k else k - 1] == m[key'];
      }
      assert Fits(t', home, hash(key')) && m[key'] in Chain(c', home);
    }
  }

  lemma DeleteKeeps(hash: Hash, t: Table, cursor: Option<Id>, c: Chains, m: map<Bytes, Id>, key: Bytes, i: nat)
    requires Deletable(hash, t, cursor, c, m, key, i)
    ensures var b := Where(t, hash(key));
            var ids := Chain(c, b);
            Inv(hash, AfterDelete(hash, t, cursor, c, m, key, i), cursor, c[b := Without(ids, i)], m - {key})
  {
    DeleteKnown(hash, t, cursor, c, m, key, i);
    var b := Where(t, hash(key));
    var ids := Chain(c, b);
    var t', c', m' := Unlink(t, b, Before(ids, i), ids[i]), c[b := Without(ids, i)], m - {key};
    forall b'
      ensures BucketAt(hash, t', cursor, c', m', b')
    {
      if b' == b {
        DeleteHere(hash, t, cursor, c, m, key, i);
      } else {
        DeleteElsewhere(hash, t, cursor, c, m, key, i, b');
      }
    }
    forall key'
      ensures KeyAt(hash, t', c', m', key')
    {
      DeleteKey(hash, t, cursor, c, m, key, i, key');
    }
    assert m == m'[key := m[key]];
    var e := Old(t.expandBucket);
    forall id, j
      ensures ApartAt(c', e, id, j)
    {
      assert ApartAt(c, e, id, j);
    }
  }

  // ----- moving a bucket, one item at a time

  /** The mover takes up old bucket expandBucket. */
  lemma StartKeeps(hash: Hash, t: Table, c: Chains, m: map<Bytes, Id>)
    requires Inv(hash, t, None, c, m) && t.expanding
    ensures Inv(hash, t, Some(t.oldTable[t.expandBucket]), c, m)
  {
    var cursor := Some(t.oldTable[t.expandBucket]);
    forall b
      ensures BucketAt(hash, t, cursor, c, m, b)
    {
      assert BucketAt(hash, t, None, c, m, b);
    }
  }

  /** The item at the cursor goes to the front of its new chain. */
  function MoveOne(hash: Hash, t: Table, it: Id): Table
    requires Shape(t) && it in t.keys
  {
    var b := New(Bits(hash(t.keys[it]), t.power));
    SetHead(t.(next := t.next[it := Head(t, b)]), b, it)
  }

  ghost function MoveChain(hash: Hash, t: Table, c: Chains, it: Id): Chains
    requires it in t.keys && Chain(c, Old(t.expandBucket)) != []
  {
    var b := New(Bits(hash(t.keys[it]), t.power));
    c[Old(t.expandBucket) := Chain(c, Old(t.expandBucket))[1..]][b := [it] + Chain(c, b)]
  }

  ghost predicate Movable(hash: Hash, t: Table, c: Chains, m: map<Bytes, Id>, it: Id) {
    Inv(hash, t, Some(it), c, m) && it != NIL
  }

  lemma CursorItem(hash: Hash, t: Table, c: Chains, m: map<Bytes, Id>, it: Id)
    requires Movable(hash, t, c, m, it)
    ensures Chain(c, Old(t.expandBucket)) != [] && Chain(c, Old(t.expandBucket))[0] == it
    ensures it in t.next && ItemFits(hash, t, m, Old(t.expandBucket), it) && it !in Chain(c, Old(t.expandBucket))[1..]
    ensures Bits(hash(t.keys[it]), t.power - 1) == t.expandBucket
    ensures forall b | b != Old(t.expandBucket) :: it !in Chain(c, b)
  {
    var e := Old(t.expandBucket);
    assert BucketAt(hash, t, Some(it), c, m, e);
    assert it in Chain(c, e);
    assert ItemFits(hash, t, m, e, it);
    forall b | b != e
      ensures it !in Chain(c, b)
    {
      if it in Chain(c, b) {
        OneHome(hash, t, Some(it), c, m, b, e, it);
      }
    }
  }

  lemma MoveFrom(hash: Hash, t: Table, c: Chains, m: map<Bytes, Id>, it: Id)
    requires Movable(hash, t, c, m, it)
    ensures it in t.keys && it in t.next && Chain(c, Old(t.expandBucket)) != []
    ensures BucketAt(hash, MoveOne(hash, t, it), Some(t.next[it]), MoveChain(hash, t, c, it), m, Old(t.expandBucket))
  {
    var e := Old(t.expandBucket);
    CursorItem(hash, t, c, m, it);
    assert BucketAt(hash, t, Some(it), c, m, e);
    var t', ids := MoveOne(hash, t, it), Chain(c, e);
    ChainFrame(t.next, t'.next, t.next[it], ids[1..]);
    forall id | id in ids[1..]
      ensures ItemFits(hash, t', m, e, id)
    {
      assert ItemFits(hash, t, m, e, id);
    }
  }

  lemma MoveTo(hash: Hash, t: Table, c: Chains, m: map<Bytes, Id>, it: Id)
    requires Movable(hash, t, c, m, it)
    ensures it in t.keys && it in t.next && Chain(c, Old(t.expandBucket)) != []
    ensures BucketAt(hash, MoveOne(hash, t, it), Some(t.next[it]), MoveChain(hash, t, c, it), m, New(Bits(hash(t.keys[it]), t.power)))
  {
    hide Bits, IsChain, Apart;
    CursorItem(hash, t, c, m, it);
    var b := New(Bits(hash(t.keys[it]), t.power));
    assert BucketAt(hash, t, Some(it), c, m, b);
    var t', ids := MoveOne(hash, t, it), Chain(c, b);
    ChainFront(t.next, Head(t, b), ids, it);
    LowBits(hash(t.keys[it]), t.power - 1, t.power);
    forall id | id in [it] + ids
      ensures ItemFits(hash, t', m, b, id)
    {
      assert id == it || ItemFits(hash, t, m, b, id);
    }
  }

  lemma MoveElsewhere(hash: Hash, t: Table, c: Chains, m: map<Bytes, Id>, it: Id, b': Bucket)
    requires Movable(hash, t, c, m, it) && b' != Old(t.expandBucket)
    requires it in t.keys ==> b' != New(Bits(hash(t.keys[it]), t.power))
    ensures it in t.keys && it in t.next && Chain(c, Old(t.expandBucket)) != []
    ensures BucketAt(hash, MoveOne(hash, t, it), Some(t.next[it]), MoveChain(hash, t, c, it), m, b')
  {
    hide Bits, IsChain, Apart;
    CursorItem(hash, t, c, m, it);
    assert BucketAt(hash, t, Some(it), c, m, b');
    var t' := MoveOne(hash, t, it);
    if IsBucket(t, b') {
      ChainFrame(t.next, t'.next, Start(t, Some(it), b'), Chain(c, b'));
      forall id | id in Chain(c, b')
        ensures ItemFits(hash, t', m, b', id)
      {
        assert ItemFits(hash, t, m, b', id);
      }
    }
  }

  lemma MoveKey(hash: Hash, t: Table, c: Chains, m: map<Bytes, Id>, it: Id, key: Bytes)
    requires Movable(hash, t, c, m, it)
    ensures it in t.keys && it in t.next && Chain(c, Old(t.expandBucket)) != []
    ensures KeyAt(hash, MoveOne(hash, t, it), MoveChain(hash, t, c, it), m, key)
  {
    hide Bits, Apart;
    CursorItem(hash, t, c, m, it);
    var e, b := Old(t.expandBucket), New(Bits(hash(t.keys[it]), t.power));
    var t', c' := MoveOne(hash, t, it), MoveChain(hash, t, c, it);
    assert KeyAt(hash, t, c, m, key);
    if key in m {
      var home :| Fits(t, home, hash(key)) && m[key] in Chain(c, home);
      if m[key] == it {
        assert Fits(t', b, hash(key)) && it in Chain(c', b);
      } else {
        assert Fits(t', home, hash(key)) && m[key] in Chain(c', home);
      }
    }
  }

  lemma MoveKeeps(hash: Hash, t: Table, c: Chains, m: map<Bytes, Id>, it: Id)
    requires Movable(hash, t, c, m, it)
    ensures it in t.keys && it in t.next && Chain(c, Old(t.expandBucket)) != []
    ensures Inv(hash, MoveOne(hash, t, it), Some(t.next[it]), MoveChain(hash, t, c, it), m)
  {
    hide BucketAt;
    CursorItem(hash, t, c, m, it);
    var e := Old(t.expandBucket);
    var t', c', cursor' := MoveOne(hash, t, it), MoveChain(hash, t, c, it), Some(t.next[it]);
    forall b'
      ensures BucketAt(hash, t', cursor', c', m, b')
    {
      if b' == e {
        MoveFrom(hash, t, c, m, it);
      } else if b' == New(Bits(hash(t.keys[it]), t.power)) {
        MoveTo(hash, t, c, m, it);
      } else {
        MoveElsewhere(hash, t, c, m, it, b');
      }
    }
    forall key
      ensures KeyAt(hash, t', c', m, key)
    {
      MoveKey(hash, t, c, m, it, key);
    }
    forall id, j
      ensures ApartAt(c', e, id, j)
    {
      assert ApartAt(c, e, id, j);
    }
  }

  /** The bucket is empty: on to the next one, or done. */
  function FinishBucket(t: Table): Table
    requires Shape(t) && t.expanding
  {
    var t1 := SetHead(t, Old(t.expandBucket), NIL);
    t1.(expandBucket := t.expandBucket + 1, expanding := t.expandBucket + 1 != Pow2(t.power - 1))
  }

  lemma FinishBucketAt(hash: Hash, t: Table, c: Chains, m: map<Bytes, Id>, b: Bucket)
    requires Inv(hash, t, Some(NIL), c, m)
    ensures BucketAt(hash, FinishBucket(t), None, c, m, b)
  {
    hide Bits, Apart;
    var e, t' := Old(t.expandBucket), FinishBucket(t);
    assert BucketAt(hash, t, Some(NIL), c, m, b) && BucketAt(hash, t, Some(NIL), c, m, e);
    assert Chain(c, e) == [];
    forall id | id in Chain(c, b) && IsBucket(t', b)
      ensures ItemFits(hash, t', m, b, id)
    {
      assert ItemFits(hash, t, m, b, id);
    }
  }

  lemma FinishKeeps(hash: Hash, t: Table, c: Chains, m: map<Bytes, Id>)
    requires Inv(hash, t, Some(NIL), c, m)
    ensures Inv(hash, FinishBucket(t), None, c, m)
  {
    var e, t' := Old(t.expandBucket), FinishBucket(t);
    forall b
      ensures BucketAt(hash, t', None, c, m, b)
    {
      FinishBucketAt(hash, t, c, m, b);
    }
    forall key
      ensures KeyAt(hash, t', c, m, key)
    {
      assert KeyAt(hash, t, c, m, key);
      if key in m {
        var b :| Fits(t, b, hash(key)) && m[key] in Chain(c, b);
        assert BucketAt(hash, t', None, c, m, b);
        assert Fits(t', b, hash(key));
      }
    }
    var e' := Old(t'.expandBucket);
    forall id, j
      ensures ApartAt(c, e', id, j)
    {
      if id in Chain(c, e') && id in Chain(c, New(j)) {
        OneHome(hash, t, Some(NIL), c, m, e', New(j), id);
      }
    }
  }

  // ----- starting an expansion

  function Expanded(t: Table): Table {
    t.(power := t.power + 1, expanding := true, expandBucket := 0,
       oldTable := t.primary, primary := seq(Pow2(t.power + 1), _ => NIL))
  }

  ghost function OldChains(t: Table, c: Chains): Chains {
    map i: nat | 0 <= i < |t.primary| :: Old(i) := Chain(c, New(i))
  }

  lemma OldChain(t: Table, c: Chains, b: Bucket)
    ensures Chain(OldChains(t, c), b) == if b.Old? && b.i < |t.primary| then Chain(c, New(b.i)) else []
  {
  }

  lemma ExpandBucketAt(hash: Hash, t: Table, c: Chains, m: map<Bytes, Id>, b: Bucket)
    requires Inv(hash, t, None, c, m) && !t.expanding
    ensures BucketAt(hash, Expanded(t), None, OldChains(t, c), m, b)
  {
    var t' := Expanded(t);
    OldChain(t, c, b);
    if b.Old? {
      assert BucketAt(hash, t, None, c, m, New(b.i));
      forall id | id in Chain(c, New(b.i))
        ensures ItemFits(hash, t', m, b, id)
      {
        assert ItemFits(hash, t, m, New(b.i), id);
      }
    }
  }

  lemma ExpandKeeps(hash: Hash, t: Table, c: Chains, m: map<Bytes, Id>)
    requires Inv(hash, t, None, c, m) && !t.expanding
    ensures Inv(hash, Expanded(t), None, OldChains(t, c), m)
  {
    var t', c' := Expanded(t), OldChains(t, c);
    forall b
      ensures BucketAt(hash, t', None, c', m, b)
    {
      ExpandBucketAt(hash, t, c, m, b);
    }
    forall key
      ensures KeyAt(hash, t', c', m, key)
    {
      assert KeyAt(hash, t, c, m, key);
      if key in m {
        var b :| Fits(t, b, hash(key)) && m[key] in Chain(c, b);
        OldChain(t, c, Old(b.i));
        assert BucketAt(hash, t, None, c, m, b);
        assert Fits(t', Old(b.i), hash(key)) && m[key] in Chain(c', Old(b.i));
      }
    }
    var e := Old(0);
    forall id, j
      ensures ApartAt(c', e, id, j)
    {
      OldChain(t, c, New(j));
    }
  }

  // ----- the operations, one at a time

  class HashTable {
    const hash: Hash
    var t: Table
    var started: bool           // started_expanding
    ghost var c: Chains
    ghost var contents: map<Bytes, Id>

    ghost predicate Valid()
      reads this
    {
      Inv(hash, t, None, c, contents)
    }

    constructor (hashFunction: Hash, power: nat)
      ensures Valid() && hash == hashFunction && t.power == power && contents == map[]
    {
      hash := hashFunction;
      t := Table(power, false, 0, seq(Pow2(power), _ => NIL), [], map[], map[], 0);
      started, c, contents := false, map[], map[];
      new;
      assert forall b :: BucketAt(hash, t, None, c, contents, b);
    }

    /** assoc_find */
    method Find(key: Bytes) returns (it: Id)
      requires Valid()
      ensures it == if key in contents then contents[key] else NIL
    {
      hide Inv, Where, WalkAt;
      ChosenChain(key);
      WalkBegins(hash, t, None, c, contents, key);
      var b := Where(t, hash(key));
      ghost var passed, rest := [], Chain(c, b);
      it := Head(t, b);
      while it != NIL
        invariant WalkAt(hash, t, None, c, contents, key, passed, rest, it)
        decreases |rest|
      {
        WalkEnds(hash, t, None, c, contents, key, passed, rest, it);
        if t.keys[it] == key {
          return;
        }
        WalkGoesOn(hash, t, None, c, contents, key, passed, rest, it);
        passed, rest := passed + [it], rest[1..];
        it := t.next[it];
      }
      WalkEnds(hash, t, None, c, contents, key, passed, rest, it);
    }

    lemma ChosenChain(key: Bytes)
      requires Valid()
      ensures Shape(t) && Linked(t.next, Head(t, Where(t, hash(key))), Chain(c, Where(t, hash(key))))
    {
      assert BucketAt(hash, t, None, c, contents, Where(t, hash(key)));
    }

    /** assoc_insert: the key must not be there, and the item must be in no chain. */
    method Insert(it: Id, key: Bytes)
      requires Valid() && key !in contents && Unlinked(contents, it)
      modifies this
      ensures Valid() && contents == old(contents)[key := it]
      ensures started == (old(started) || (!t.expanding && t.items > Pow2(t.power) * 3 / 2))
    {
      hide Inv;
      ChosenChain(key);
      var b := Where(t, hash(key));
      InsertKeeps(hash, t, None, c, contents, it, key);
      t, c, contents := PutFront(t, b, it, key), c[b := [it] + Chain(c, b)], contents[key := it];
      if !t.expanding && t.items > Pow2(t.power) * 3 / 2 {
        started := true;
      }
    }

    /** _hashitem_before: the item of the key and the one that points to it, which is NIL
        when the bucket does; the item is NIL if the key is not there. */
    method FindBefore(key: Bytes) returns (before: Id, it: Id, ghost i: nat)
      requires Valid()
      ensures it == if key in contents then contents[key] else NIL
      ensures Shape(t) && (it != NIL ==> var ids := Chain(c, Where(t, hash(key)));
                                          i < |ids| && ids[i] == it && before == Before(ids, i))
    {
      hide Inv, Where, WalkAt;
      ChosenChain(key);
      WalkBegins(hash, t, None, c, contents, key);
      var b := Where(t, hash(key));
      before, it := NIL, Head(t, b);
      ghost var passed, rest := [], Chain(c, b);
      WalkEnds(hash, t, None, c, contents, key, passed, rest, it);
      while it != NIL && t.keys[it] != key
        invariant WalkAt(hash, t, None, c, contents, key, passed, rest, it)
        invariant it != NIL ==> rest != [] && rest[0] == it && it in t.keys && it in t.next
        invariant before == if passed == [] then NIL else passed[|passed| - 1]
        decreases |rest|
      {
        WalkGoesOn(hash, t, None, c, contents, key, passed, rest, it);
        passed, rest := passed + [it], rest[1..];
        before, it := it, t.next[it];
        WalkEnds(hash, t, None, c, contents, key, passed, rest, it);
      }
      i := |passed|;
      WalkEnds(hash, t, None, c, contents, key, passed, rest, it);
      WalkSplits(key, passed, rest, it);
    }

    lemma WalkSplits(key: Bytes, passed: seq<Id>, rest: seq<Id>, it: Id)
      requires WalkAt(hash, t, None, c, contents, key, passed, rest, it)
      ensures Shape(t) && Chain(c, Where(t, hash(key))) == passed + rest
    {
    }

    /** assoc_delete: the key must be there. */
    method Delete(key: Bytes)
      requires Valid() && key in contents
      modifies this
      ensures Valid() && contents == old(contents) - {key}
    {
      hide Inv;
      ChosenChain(key);
      var b := Where(t, hash(key));
      var before, it, i := FindBefore(key);
      NotNil(key);
      DeleteKnown(hash, t, None, c, contents, key, i);
      DeleteKeeps(hash, t, None, c, contents, key, i);
      t, c, contents := Unlink(t, b, before, it), c[b := Without(Chain(c, b), i)], contents - {key};
    }

    lemma NotNil(key: Bytes)
      requires Valid() && key in contents
      ensures contents[key] != NIL
    {
      var b := Where(t, hash(key));
      FoundWhere(hash, t, None, c, contents, key);
      assert BucketAt(hash, t, None, c, contents, b);
      LinkedIds(t.next, Head(t, b), Chain(c, b), contents[key]);
    }

    /** assoc_expand, while every other thread is paused; `granted` if calloc succeeded. */
    method Expand(granted: bool)
      requires Valid() && !t.expanding
      modifies this
      ensures Valid() && contents == old(contents)
      ensures t.expanding == granted && (granted ==> t.power == old(t.power) + 1 && t.expandBucket == 0)
      ensures !granted ==> t == old(t)
    {
      if granted {
        ExpandKeeps(hash, t, c, contents);
        c := OldChains(t, c);
        t := Expanded(t);
      }
    }

    /** One bucket of assoc_maintenance_thread. */
    method MoveBucket()
      requires Valid() && t.expanding
      modifies this
      ensures Valid() && contents == old(contents) && t.power == old(t.power)
      ensures t.expandBucket == old(t.expandBucket) + 1
      ensures t.expanding <==> t.expandBucket < Pow2(t.power - 1)
    {
      StartKeeps(hash, t, c, contents);
      var it := t.oldTable[t.expandBucket];
      while it != NIL
        invariant Inv(hash, t, Some(it), c, contents) && contents == old(contents)
        invariant t.expanding && t.power == old(t.power) && t.expandBucket == old(t.expandBucket)
        decreases |Chain(c, Old(t.expandBucket))|
      {
        MoveKeeps(hash, t, c, contents, it);
        var next := t.next[it];
        c := MoveChain(hash, t, c, it);
        t := MoveOne(hash, t, it);
        it := next;
      }
      FinishKeeps(hash, t, c, contents);
      t := FinishBucket(t);
    }

    /** The maintenance thread runs to the end of an expansion without changing the map. */
    method Migrate()
      requires Valid()
      modifies this
      ensures Valid() && contents == old(contents) && !t.expanding
    {
      while t.expanding
        invariant Valid() && contents == old(contents)
        decreases if t.expanding then Pow2(t.power - 1) - t.expandBucket else 0
      {
        MoveBucket();
      }
      started := false;
    }
  }
}
