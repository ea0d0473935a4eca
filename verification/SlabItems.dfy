/** What the items on slab pages are linked into: the LRU queues and the hash table. Here it is
    the memory they share with the free lists that matters, and which item is in which list. The
    order of a queue and its counts are the subject of `Lru`, which has the same pointer
    operations from `DoublyLinked`; the choice of bucket, the keys and what a lookup finds that of
    `Assoc`. Of a chain only the places of its pointers are kept, for any choice of bucket, so
    every table that `Assoc` allows is covered. */
module SlabItems {
  import opened DoublyLinked
  import opened Lists
  import opened Slabs
  import opened Store

  // ----- the LRU queues, one per class

  /** Beside heads and tails: `queues` are the lists, `cls` tells which one a node is in. */
  datatype Lru = Lru(heads: seq<Option<Chunk>>, tails: seq<Option<Chunk>>, queues: seq<seq<Chunk>>, cls: map<Chunk, nat>)

  function CrawlerOf(c: nat): Chunk {
    Chunk(CRAWLERS, c)
  }

  ghost predicate QueueAt(mem: Pointers, l: Lru, c: int) {
    0 <= c < |l.queues| && |l.heads| == |l.tails| == |l.queues| ==>
      IsList(mem, l.heads[c], l.tails[c], l.queues[c]) && forall ch | ch in l.queues[c] :: ch in l.cls && l.cls[ch] == c
  }

  ghost predicate QueuedAt(l: Lru, ch: Chunk) {
    ch in l.cls ==> l.cls[ch] < |l.queues| && ch in l.queues[l.cls[ch]]
  }

  ghost predicate LruOk(mem: Pointers, l: Lru) {
    && |l.heads| == |l.tails| == |l.queues|
    && (forall c {:trigger QueueAt(mem, l, c)} :: QueueAt(mem, l, c))
    && (forall ch {:trigger QueuedAt(l, ch)} :: QueuedAt(l, ch))
  }

  /** Pointers of nodes in no queue do not matter. */
  lemma LruFrame(mem: Pointers, mem': Pointers, l: Lru)
    requires LruOk(mem, l) && forall ch | ch in l.cls && ch in mem :: ch in mem' && mem'[ch] == mem[ch]
    ensures LruOk(mem', l)
  {
    hide IsList;
    forall c
      ensures QueueAt(mem', l, c)
    {
      assert QueueAt(mem, l, c);
      if 0 <= c < |l.queues| {
        ListFrame(mem, mem', l.heads[c], l.tails[c], l.queues[c]);
      }
    }
  }

  /** Queue c becomes the list `ids`, and the other queues are left alone. */
  ghost predicate Changes(mem: Pointers, l: Lru, mem': Pointers, c: nat, ids: seq<Chunk>, cls': map<Chunk, nat>) {
    && (forall x | x in l.cls && l.cls[x] != c :: x in cls' && cls'[x] == l.cls[x] && (x in mem ==> x in mem' && mem'[x] == mem[x]))
    && (forall x | x in cls' && cls'[x] != c :: x in l.cls && l.cls[x] == cls'[x])
    && (forall x :: x in ids <==> x in cls' && cls'[x] == c)
  }

  lemma OneQueue(mem: Pointers, l: Lru, mem': Pointers, c: nat, head: Option<Chunk>, tail: Option<Chunk>, ids: seq<Chunk>, cls': map<Chunk, nat>)
    requires LruOk(mem, l) && c < |l.queues| && IsList(mem', head, tail, ids) && Changes(mem, l, mem', c, ids, cls')
    ensures LruOk(mem', Lru(l.heads[c := head], l.tails[c := tail], l.queues[c := ids], cls'))
  {
    hide IsList;
    var l' := Lru(l.heads[c := head], l.tails[c := tail], l.queues[c := ids], cls');
    forall j
      ensures QueueAt(mem', l', j)
    {
      assert QueueAt(mem, l, j);
      if 0 <= j < |l.queues| && j != c {
        ListFrame(mem, mem', l.heads[j], l.tails[j], l.queues[j]);
      }
    }
    forall ch
      ensures QueuedAt(l', ch)
    {
      assert QueuedAt(l, ch);
    }
  }

  /** The queue that a node is in. */
  lemma ItsQueue(mem: Pointers, l: Lru, ch: Chunk)
    requires LruOk(mem, l) && ch in l.cls
    ensures var c := l.cls[ch];
            && c < |l.queues| == |l.heads| == |l.tails| && ch in l.queues[c] && IsList(mem, l.heads[c], l.tails[c], l.queues[c])
            && Unhookable(mem, ch) && forall x :: x in l.queues[c] <==> x in l.cls && l.cls[x] == c
  {
    assert QueuedAt(l, ch);
    ThisQueue(mem, l, l.cls[ch]);
    var c := l.cls[ch];
    Neighbours(mem, l.heads[c], l.tails[c], l.queues[c], IndexOf(l.queues[c], ch));
  }

  lemma ThisQueue(mem: Pointers, l: Lru, c: nat)
    requires LruOk(mem, l) && c < |l.queues|
    ensures |l.queues| == |l.heads| == |l.tails| && IsList(mem, l.heads[c], l.tails[c], l.queues[c])
    ensures l.heads[c].Some? ==> l.heads[c].value in mem && l.heads[c].value in l.queues[c]
    ensures l.tails[c].Some? ==> l.tails[c].value in mem && l.tails[c].value in l.queues[c]
    ensures forall x :: x in l.queues[c] <==> x in l.cls && l.cls[x] == c
  {
    assert QueueAt(mem, l, c);
    assert NodeAt(mem, l.queues[c], 0) && NodeAt(mem, l.queues[c], |l.queues[c]| - 1);
    forall x
      ensures x in l.queues[c] <==> x in l.cls && l.cls[x] == c
    {
      assert QueuedAt(l, x);
    }
  }

  /** item_link_q: the pointers, then the queues. */
  function LinkQ(mem: Pointers, l: Lru, ch: Chunk, c: nat): (Pointers, Lru)
    requires c < |l.queues| == |l.heads| == |l.tails| && (l.heads[c].Some? ==> l.heads[c].value in mem)
  {
    (LinkFront(mem, l.heads[c], ch),
     Lru(l.heads[c := Some(ch)], l.tails[c := if l.tails[c].None? then Some(ch) else l.tails[c]],
         l.queues[c := [ch] + l.queues[c]], l.cls[ch := c]))
  }

  lemma LinkQKeeps(mem: Pointers, l: Lru, ch: Chunk, c: nat)
    requires LruOk(mem, l) && c < |l.queues| && ch !in l.cls
    ensures c < |l.queues| == |l.heads| == |l.tails| && (l.heads[c].Some? ==> l.heads[c].value in mem)
    ensures var (mem', l') := LinkQ(mem, l, ch, c);
            && LruOk(mem', l') && forall x | x in mem && x !in l.cls && x != ch :: x in mem' && mem'[x] == mem[x]
  {
    ThisQueue(mem, l, c);
    hide IsList;
    var (mem', l') := LinkQ(mem, l, ch, c);
    FrontList(mem, l.heads[c], l.tails[c], l.queues[c], ch);
    OneQueue(mem, l, mem', c, l'.heads[c], l'.tails[c], l'.queues[c], l'.cls);
  }

  /** item_unlink_q and crawler_unlink_q; the node keeps its own pointers. */
  function UnlinkQ(mem: Pointers, l: Lru, ch: Chunk): (Pointers, Lru)
    requires LruOk(mem, l) && ch in l.cls
  {
    ItsQueue(mem, l, ch);
    var c := l.cls[ch];
    (Unlink(mem, ch),
     Lru(l.heads[c := if l.heads[c] == Some(ch) then mem[ch].next else l.heads[c]],
         l.tails[c := if l.tails[c] == Some(ch) then mem[ch].prev else l.tails[c]],
         l.queues[c := Without(l.queues[c], IndexOf(l.queues[c], ch))], l.cls - {ch}))
  }

  lemma UnlinkQKeeps(mem: Pointers, l: Lru, ch: Chunk)
    requires LruOk(mem, l) && ch in l.cls
    ensures var (mem', l') := UnlinkQ(mem, l, ch);
            && LruOk(mem', l') && l'.cls == l.cls - {ch} && |l'.queues| == |l.queues|
            && forall x | x in mem && x !in l.cls :: x in mem' && mem'[x] == mem[x]
  {
    ItsQueue(mem, l, ch);
    var c := l.cls[ch];
    var k := IndexOf(l.queues[c], ch);
    WithoutNoRepeats(l.queues[c], k);
    WithoutList(mem, l.heads[c], l.tails[c], l.queues[c], k);
    hide IsList;
    var (mem', l') := UnlinkQ(mem, l, ch);
    OneQueue(mem, l, mem', c, l'.heads[c], l'.tails[c], l'.queues[c], l'.cls);
  }

  /** crawler_link_q: the crawler of class c becomes the tail of its queue. */
  function CrawlerOn(mem: Pointers, l: Lru, c: nat): (Pointers, Lru)
    requires c < |l.queues| == |l.heads| == |l.tails| && (l.tails[c].Some? ==> l.tails[c].value in mem)
  {
    var it := CrawlerOf(c);
    (LinkBack(mem, l.tails[c], it),
     Lru(l.heads[c := if l.heads[c].None? then Some(it) else l.heads[c]], l.tails[c := Some(it)],
         l.queues[c := l.queues[c] + [it]], l.cls[it := c]))
  }

  lemma CrawlerOnKeeps(mem: Pointers, l: Lru, c: nat)
    requires LruOk(mem, l) && c < |l.queues| && CrawlerOf(c) !in l.cls
    ensures c < |l.queues| == |l.heads| == |l.tails| && (l.tails[c].Some? ==> l.tails[c].value in mem)
    ensures var (mem', l') := CrawlerOn(mem, l, c);
            && LruOk(mem', l') && forall x | x in mem && x !in l.cls && x != CrawlerOf(c) :: x in mem' && mem'[x] == mem[x]
  {
    ThisQueue(mem, l, c);
    hide IsList;
    var (mem', l') := CrawlerOn(mem, l, c);
    BackList(mem, l.heads[c], l.tails[c], l.queues[c], CrawlerOf(c));
    OneQueue(mem, l, mem', c, l'.heads[c], l'.tails[c], l'.queues[c], l'.cls);
  }

  /** crawler_crawl_q: the crawler changes places with the node before it. */
  function CrawlerAhead(mem: Pointers, l: Lru, c: nat): (Pointers, Lru)
    requires LruOk(mem, l) && CrawlerOf(c) in l.cls && l.cls[CrawlerOf(c)] == c && At(l.heads, c) != Some(Some(CrawlerOf(c)))
  {
    var it := CrawlerOf(c);
    ItsQueue(mem, l, it);
    var k := IndexOf(l.queues[c], it);
    Neighbours(mem, l.heads[c], l.tails[c], l.queues[c], k);
    SwapKnown(mem, l.heads[c], l.tails[c], l.queues[c], k);
    (SwapPrev(mem, it),
     l.(heads := l.heads[c := if l.heads[c] == mem[it].prev then Some(it) else l.heads[c]],
        tails := l.tails[c := if l.tails[c] == Some(it) then mem[it].prev else l.tails[c]],
        queues := l.queues[c := Swapped(l.queues[c], k)]))
  }

  lemma CrawlerAheadKeeps(mem: Pointers, l: Lru, c: nat)
    requires LruOk(mem, l) && CrawlerOf(c) in l.cls && l.cls[CrawlerOf(c)] == c && At(l.heads, c) != Some(Some(CrawlerOf(c)))
    ensures var (mem', l') := CrawlerAhead(mem, l, c);
            && LruOk(mem', l') && forall x | x in mem && x !in l.cls :: x in mem' && mem'[x] == mem[x]
  {
    var it := CrawlerOf(c);
    ItsQueue(mem, l, it);
    var k := IndexOf(l.queues[c], it);
    Neighbours(mem, l.heads[c], l.tails[c], l.queues[c], k);
    SwapKnown(mem, l.heads[c], l.tails[c], l.queues[c], k);
    SwapList(mem, l.heads[c], l.tails[c], l.queues[c], k);
    SwappedHas(l.queues[c], k);
    hide IsList;
    var (mem', l') := CrawlerAhead(mem, l, c);
    OneQueue(mem, l, mem', c, l'.heads[c], l'.tails[c], l'.queues[c], l'.cls);
  }

  lemma SwappedHas(ids: seq<Chunk>, k: nat)
    requires 0 < k < |ids|
    ensures forall x :: x in Swapped(ids, k) <==> x in ids
  {
    var ids' := Swapped(ids, k);
    forall x | x in ids
      ensures x in ids'
    {
      var i :| 0 <= i < |ids| && ids[i] == x;
      assert ids'[if i == k then k - 1 else if i == k - 1 then k else i] == x;
    }
  }

  // ----- the hash table

  /** The buckets of both tables, the pointers h_next, and beside them the chains and the bucket
      that each item is in. */
  datatype Hash = Hash(buckets: seq<Option<Chunk>>, hnext: map<Chunk, Option<Chunk>>, chains: seq<seq<Chunk>>, home: map<Chunk, nat>)

  ghost predicate LinkAt(hnext: map<Chunk, Option<Chunk>>, ids: seq<Chunk>, k: int) {
    0 <= k < |ids| ==> ids[k] in hnext && hnext[ids[k]] == At(ids, k + 1)
  }

  ghost predicate IsChain(hnext: map<Chunk, Option<Chunk>>, head: Option<Chunk>, ids: seq<Chunk>) {
    && head == At(ids, 0) && NoRepeats(ids)
    && forall k {:trigger LinkAt(hnext, ids, k)} :: LinkAt(hnext, ids, k)
  }

  ghost predicate ChainAt(h: Hash, b: int) {
    0 <= b < |h.chains| && |h.buckets| == |h.chains| ==>
      IsChain(h.hnext, h.buckets[b], h.chains[b]) && forall ch | ch in h.chains[b] :: ch in h.home && h.home[ch] == b
  }

  /** An item is in its bucket's chain, and one that is in no chain has no successor. */
  ghost predicate HomedAt(h: Hash, ch: Chunk) {
    && (ch in h.home ==> h.home[ch] < |h.chains| && ch in h.chains[h.home[ch]])
    && (ch in h.hnext && ch !in h.home ==> h.hnext[ch] == None)
  }

  ghost predicate HashOk(h: Hash) {
    && |h.buckets| == |h.chains|
    && (forall b {:trigger ChainAt(h, b)} :: ChainAt(h, b))
    && (forall ch {:trigger HomedAt(h, ch)} :: HomedAt(h, ch))
  }

  lemma ChainFrame(hnext: map<Chunk, Option<Chunk>>, hnext': map<Chunk, Option<Chunk>>, head: Option<Chunk>, ids: seq<Chunk>)
    requires IsChain(hnext, head, ids) && forall x | x in ids && x in hnext :: x in hnext' && hnext'[x] == hnext[x]
    ensures IsChain(hnext', head, ids)
  {
    forall k
      ensures LinkAt(hnext', ids, k)
    {
      assert LinkAt(hnext, ids, k);
    }
  }

  /** Chain b becomes `ids`, and the other chains are left alone. */
  ghost predicate Rechains(h: Hash, h': Hash, b: nat) {
    && b < |h.chains| == |h.buckets| && |h'.chains| == |h'.buckets| == |h.chains|
    && h'.chains == h.chains[b := h'.chains[b]] && h'.buckets == h.buckets[b := h'.buckets[b]]
    && (forall x | x in h.home && h.home[x] != b :: x in h'.home && h'.home[x] == h.home[x] && (x in h.hnext ==> x in h'.hnext && h'.hnext[x] == h.hnext[x]))
    && (forall x | x in h'.home && h'.home[x] != b :: x in h.home && h.home[x] == h'.home[x])
    && (forall x :: x in h'.chains[b] <==> x in h'.home && h'.home[x] == b)
    && (forall x | x in h'.hnext && x !in h'.home :: h'.hnext[x] == None)
  }

  lemma OneChain(h: Hash, h': Hash, b: nat)
    requires HashOk(h) && Rechains(h, h', b) && IsChain(h'.hnext, h'.buckets[b], h'.chains[b])
    ensures HashOk(h')
  {
    hide IsChain;
    forall j
      ensures ChainAt(h', j)
    {
      assert ChainAt(h, j);
      if 0 <= j < |h.chains| && j != b {
        ChainFrame(h.hnext, h'.hnext, h.buckets[j], h.chains[j]);
      }
    }
    forall x
      ensures HomedAt(h', x)
    {
      assert HomedAt(h, x);
    }
  }

  lemma ThisChain(h: Hash, b: nat)
    requires HashOk(h) && b < |h.chains|
    ensures |h.buckets| == |h.chains| && IsChain(h.hnext, h.buckets[b], h.chains[b])
    ensures forall x :: x in h.chains[b] <==> x in h.home && h.home[x] == b
    ensures forall x | x in h.hnext && x !in h.home :: h.hnext[x] == None
  {
    assert ChainAt(h, b);
    forall x
      ensures x in h.chains[b] <==> x in h.home && h.home[x] == b
      ensures x in h.hnext && x !in h.home ==> h.hnext[x] == None
    {
      assert HomedAt(h, x);
    }
  }

  /** assoc_insert into bucket b. */
  function Insert(h: Hash, ch: Chunk, b: nat): Hash
    requires b < |h.buckets| == |h.chains|
  {
    Hash(h.buckets[b := Some(ch)], h.hnext[ch := h.buckets[b]], h.chains[b := [ch] + h.chains[b]], h.home[ch := b])
  }

  lemma InsertKeeps(h: Hash, ch: Chunk, b: nat)
    requires HashOk(h) && b < |h.buckets| && ch !in h.home
    ensures |h.buckets| == |h.chains| && HashOk(Insert(h, ch, b))
  {
    ThisChain(h, b);
    var h', ids := Insert(h, ch, b), [ch] + h.chains[b];
    forall k
      ensures LinkAt(h'.hnext, ids, k)
    {
      assert LinkAt(h.hnext, h.chains[b], k - 1);
      assert 0 < k < |ids| ==> ids[k] == h.chains[b][k - 1];
    }
    OneChain(h, h', b);
  }

  /** assoc_delete: what pointed to the item points to its successor. */
  function Delete(h: Hash, ch: Chunk): Hash
    requires HashOk(h) && ch in h.home
  {
    assert HomedAt(h, ch);
    var b := h.home[ch];
    ThisChain(h, b);
    var k := IndexOf(h.chains[b], ch);
    assert LinkAt(h.hnext, h.chains[b], k);
    var nxt := h.hnext[ch];
    Hash(if k == 0 then h.buckets[b := nxt] else h.buckets,
         (if k == 0 then h.hnext else h.hnext[h.chains[b][k - 1] := nxt])[ch := None],
         h.chains[b := Without(h.chains[b], k)], h.home - {ch})
  }

  lemma DeleteKeeps(h: Hash, ch: Chunk)
    requires HashOk(h) && ch in h.home
    ensures HashOk(Delete(h, ch)) && Delete(h, ch).home == h.home - {ch} && |Delete(h, ch).chains| == |h.chains|
  {
    assert HomedAt(h, ch);
    var b := h.home[ch];
    ThisChain(h, b);
    var h', ids := Delete(h, ch), h.chains[b];
    var k := IndexOf(ids, ch);
    WithoutNoRepeats(ids, k);
    assert LinkAt(h.hnext, ids, k);
    forall j
      ensures LinkAt(h'.hnext, h'.chains[b], j)
    {
      DeleteLink(h, h', ids, k, j);
    }
    assert h'.buckets[b] == At(h'.chains[b], 0);
    assert forall x | x in h.home && h.home[x] != b :: x !in ids;
    OneChain(h, h', b);
  }

  lemma DeleteLink(h: Hash, h': Hash, ids: seq<Chunk>, k: nat, j: int)
    requires IsChain(h.hnext, At(ids, 0), ids) && k < |ids| && ids[k] in h.hnext
    requires h'.hnext == (if k == 0 then h.hnext else h.hnext[ids[k - 1] := h.hnext[ids[k]]])[ids[k] := None]
    ensures LinkAt(h'.hnext, Without(ids, k), j)
  {
    var ids' := Without(ids, k);
    if 0 <= j < |ids'| {
      var i := if j < k then j else j + 1;
      assert ids'[j] == ids[i];
      assert LinkAt(h.hnext, ids, i) && LinkAt(h.hnext, ids, k);
    }
  }

  /** The maintenance thread moves an item to bucket b'. */
  function Rehash(h: Hash, ch: Chunk, b': nat): Hash
    requires HashOk(h) && ch in h.home && b' < |h.buckets|
  {
    DeleteKeeps(h, ch);
    Insert(Delete(h, ch), ch, b')
  }

  lemma RehashKeeps(h: Hash, ch: Chunk, b': nat)
    requires HashOk(h) && ch in h.home && b' < |h.buckets|
    ensures HashOk(Rehash(h, ch, b')) && Rehash(h, ch, b').home == h.home[ch := b']
  {
    DeleteKeeps(h, ch);
    InsertKeeps(Delete(h, ch), ch, b');
  }

  /** A new table of n empty buckets. */
  function Grow(h: Hash, n: nat): Hash {
    h.(buckets := h.buckets + seq(n, _ => None), chains := h.chains + seq(n, _ => []))
  }

  lemma GrowKeeps(h: Hash, n: nat)
    requires HashOk(h)
    ensures HashOk(Grow(h, n))
  {
    var h' := Grow(h, n);
    forall b
      ensures ChainAt(h', b)
    {
      assert ChainAt(h, b);
    }
    forall ch
      ensures HomedAt(h', ch)
    {
      assert HomedAt(h, ch);
    }
  }

  /** h_next of an item in no chain is reset. */
  lemma ResetKeeps(h: Hash, ch: Chunk)
    requires HashOk(h) && ch !in h.home
    ensures HashOk(h.(hnext := h.hnext[ch := None]))
  {
    var h' := h.(hnext := h.hnext[ch := None]);
    forall b
      ensures ChainAt(h', b)
    {
      assert ChainAt(h, b);
      if 0 <= b < |h.chains| {
        ChainFrame(h.hnext, h'.hnext, h.buckets[b], h.chains[b]);
      }
    }
    forall x
      ensures HomedAt(h', x)
    {
      assert HomedAt(h, x);
    }
  }

  // ----- items, queues and hash table together

  datatype State = State(s: Slabs, lru: Lru, hash: Hash)

  /** The chunk holds an item that is linked. */
  ghost predicate LinkedOut(s: Slabs, ch: Chunk) {
    ch in s.out && ch in s.hdr && s.hdr[ch].linked
  }

  /** A linked item is in its class's queue and in the hash table; nothing else is in either,
      except that a queue may have its crawler. */
  ghost predicate TiedAt(s: Slabs, cls: map<Chunk, nat>, home: map<Chunk, nat>, ch: Chunk) {
    && (LinkedOut(s, ch) <==> ch in home)
    && (ch in home ==> ch in cls && ch.page in s.owner && cls[ch] == s.owner[ch.page])
    && (ch in cls && ch !in home ==> ch == CrawlerOf(cls[ch]))
  }

  ghost predicate Tied(s: Slabs, cls: map<Chunk, nat>, home: map<Chunk, nat>) {
    forall ch {:trigger TiedAt(s, cls, home, ch)} :: TiedAt(s, cls, home, ch)
  }

  ghost predicate Sound(st: State) {
    && Inv(st.s) && LruOk(st.s.mem, st.lru) && |st.lru.queues| == |st.s.classes|
    && HashOk(st.hash) && Tied(st.s, st.lru.cls, st.hash.home)
  }

  /** No node of a queue is on a free list: it is handed out, or a crawler. */
  lemma QueuedIsOut(st: State, ch: Chunk)
    requires Sound(st) && ch in st.lru.cls
    ensures ch in st.s.out || ch.page == CRAWLERS
    ensures forall c: nat | c < |st.s.lists| :: ch !in st.s.lists[c]
  {
    assert TiedAt(st.s, st.lru.cls, st.hash.home, ch);
    forall c: nat | c < |st.s.lists|
      ensures ch !in st.s.lists[c]
    {
      if ch in st.s.lists[c] {
        FreeChunkKnown(st.s, c, ch);
      }
    }
  }

  /** A change of the allocator that queues and hash table do not notice. */
  lemma Unnoticed(st: State, s': Slabs)
    requires Sound(st) && Inv(s') && |s'.classes| == |st.s.classes|
    requires forall ch :: LinkedOut(s', ch) <==> LinkedOut(st.s, ch)
    requires forall ch | LinkedOut(st.s, ch) && ch.page in st.s.owner :: ch.page in s'.owner && s'.owner[ch.page] == st.s.owner[ch.page]
    requires forall ch | ch in st.lru.cls && ch in st.s.mem :: ch in s'.mem && s'.mem[ch] == st.s.mem[ch]
    ensures Sound(st.(s := s'))
  {
    LruFrame(st.s.mem, s'.mem, st.lru);
    forall ch
      ensures TiedAt(s', st.lru.cls, st.hash.home, ch)
    {
      assert TiedAt(st.s, st.lru.cls, st.hash.home, ch);
    }
  }

  // ----- do_item_link, do_item_unlink and do_item_update

  /** Taken off its queue and out of the hash table. */
  function Detach(st: State, ch: Chunk): State
    requires LruOk(st.s.mem, st.lru) && HashOk(st.hash) && ch in st.lru.cls && ch in st.hash.home
  {
    var hash' := Delete(st.hash, ch);
    var (mem', lru') := UnlinkQ(st.s.mem, st.lru, ch);
    State(st.s.(mem := mem'), lru', hash')
  }

  lemma DetachKeeps(st: State, ch: Chunk)
    requires Sound(st) && LinkedOut(st.s, ch)
    ensures ch in st.lru.cls && ch in st.hash.home && ch.page in st.s.owner && st.lru.cls[ch] == st.s.owner[ch.page]
    ensures var st' := Detach(st, ch);
            && Inv(st'.s) && LruOk(st'.s.mem, st'.lru) && |st'.lru.queues| == |st.lru.queues| && HashOk(st'.hash)
            && st'.lru.cls == st.lru.cls - {ch} && st'.hash.home == st.hash.home - {ch}
  {
    hide Inv, LruOk, HashOk;
    assert TiedAt(st.s, st.lru.cls, st.hash.home, ch);
    UnlinkQKeeps(st.s.mem, st.lru, ch);
    DeleteKeeps(st.hash, ch);
    QueueMemory(st, Detach(st, ch).s.mem);
  }

  /** Changing pointers of nodes in queues, or of nodes handed out, keeps the free lists. */
  lemma QueueMemory(st: State, mem': Pointers)
    requires Sound(st)
    requires forall x | x in st.s.mem && x !in st.lru.cls && x !in st.s.out && x.page != CRAWLERS :: x in mem' && mem'[x] == st.s.mem[x]
    ensures Inv(st.s.(mem := mem'))
  {
    forall x | x in st.s.mem && x !in st.s.out && x.page != CRAWLERS
      ensures x in mem' && mem'[x] == st.s.mem[x]
    {
      if x in st.lru.cls {
        QueuedIsOut(st, x);
      }
    }
    MemUpdate(st.s, mem');
  }

  /** The item is detached and then has header h, still handed out. */
  lemma UnlinkKeeps(st: State, ch: Chunk, h: Header)
    requires Sound(st) && LinkedOut(st.s, ch) && ch.page in st.s.owner && OutHeader(h, st.s.owner[ch.page]) && !h.linked
    ensures ch in st.lru.cls && ch in st.hash.home
    ensures var st1 := Detach(st, ch); Sound(st1.(s := st1.s.(hdr := st1.s.hdr[ch := h])))
  {
    hide Inv, LruOk, HashOk;
    DetachKeeps(st, ch);
    var st1 := Detach(st, ch);
    var s' := st1.s.(hdr := st1.s.hdr[ch := h]);
    OutUpdate(st1.s, ch, h);
    forall x
      ensures TiedAt(s', st1.lru.cls, st1.hash.home, x)
    {
      assert TiedAt(st.s, st.lru.cls, st.hash.home, x);
    }
  }

  /** The item is detached and its chunk cleared. */
  lemma ClearLinkedKeeps(st: State, ch: Chunk, h: Header)
    requires Sound(st) && LinkedOut(st.s, ch) && IsCleared(h) && Killing(st.s.rebal) == Some(ch.page)
    ensures ch in st.lru.cls && ch in st.hash.home
    ensures var st1 := Detach(st, ch); Sound(st1.(s := ClearOut(st1.s, ch, h)))
  {
    hide Inv, LruOk, HashOk;
    DetachKeeps(st, ch);
    var st1 := Detach(st, ch);
    var s' := ClearOut(st1.s, ch, h);
    ClearKeeps(st1.s, ch, h);
    forall x
      ensures TiedAt(s', st1.lru.cls, st1.hash.home, x)
    {
      assert TiedAt(st.s, st.lru.cls, st.hash.home, x);
    }
  }

  /** Into the hash table, then to the head of the queue. */
  function Attach(st: State, ch: Chunk, c: nat, b: nat): State
    requires c < |st.lru.queues| && LruOk(st.s.mem, st.lru) && b < |st.hash.buckets| == |st.hash.chains|
  {
    ThisQueue(st.s.mem, st.lru, c);
    var hash' := Insert(st.hash, ch, b);
    var (mem', lru') := LinkQ(st.s.mem, st.lru, ch, c);
    State(st.s.(mem := mem'), lru', hash')
  }

  lemma LinkKeeps(st: State, ch: Chunk, b: nat, h: Header)
    requires Sound(st) && ch in st.s.out && ch in st.s.hdr && !st.s.hdr[ch].linked && b < |st.hash.buckets|
    requires ch.page in st.s.owner && OutHeader(h, st.s.owner[ch.page]) && h.linked
    ensures st.s.owner[ch.page] < |st.lru.queues| && |st.hash.buckets| == |st.hash.chains|
    ensures var st1 := Attach(st, ch, st.s.owner[ch.page], b); Sound(st1.(s := st1.s.(hdr := st1.s.hdr[ch := h])))
  {
    OutChunk(st.s, ch);
    var c := st.s.owner[ch.page];
    assert c < |st.lru.queues| && |st.hash.buckets| == |st.hash.chains|;
    NotAttached(st, ch);
    hide Inv, LruOk, HashOk;
    var st1 := Attach(st, ch, c, b);
    LinkQKeeps(st.s.mem, st.lru, ch, c);
    InsertKeeps(st.hash, ch, b);
    QueueMemory(st, st1.s.mem);
    OutUpdate(st1.s, ch, h);
    var s' := st1.s.(hdr := st1.s.hdr[ch := h]);
    forall x
      ensures TiedAt(s', st1.lru.cls, st1.hash.home, x)
    {
      assert TiedAt(st.s, st.lru.cls, st.hash.home, x);
    }
  }

  /** A chunk that is handed out and not linked is in no queue and no chain. */
  lemma NotAttached(st: State, ch: Chunk)
    requires Sound(st) && ch in st.s.out && !LinkedOut(st.s, ch)
    ensures ch !in st.lru.cls && ch !in st.hash.home
  {
    assert TiedAt(st.s, st.lru.cls, st.hash.home, ch);
    OutChunk(st.s, ch);
    assert OwnerAt(st.s.classes, st.s.owner, ch.page);
  }

  /** A header changes and the item stays linked, or not linked. */
  lemma HeaderKeeps(st: State, ch: Chunk, h: Header)
    requires Sound(st) && ch in st.s.out && ch in st.s.hdr && ch.page in st.s.owner
    requires OutHeader(h, st.s.owner[ch.page]) && h.linked == st.s.hdr[ch].linked
    ensures Sound(st.(s := st.s.(hdr := st.s.hdr[ch := h])))
  {
    OutUpdate(st.s, ch, h);
    hide Inv;
    Unnoticed(st, st.s.(hdr := st.s.hdr[ch := h]));
  }

  /** do_item_alloc's initialisation of a chunk's pointers. */
  function Initialised(st: State, ch: Chunk): State {
    State(st.s.(mem := st.s.mem[ch := Links(None, None)]), st.lru, st.hash.(hnext := st.hash.hnext[ch := None]))
  }

  lemma InitialisedKeeps(st: State, ch: Chunk)
    requires Sound(st) && ch in st.s.out && !LinkedOut(st.s, ch)
    ensures Sound(Initialised(st, ch))
  {
    NotAttached(st, ch);
    hide Inv, HashOk, LruOk;
    var st1 := Initialised(st, ch);
    QueueMemory(st, st1.s.mem);
    Unnoticed(st, st1.s);
    ResetKeeps(st.hash, ch);
  }

  /** A queue changes its order, or its crawler comes or goes. */
  lemma QueuesKeep(st: State, mem': Pointers, lru': Lru)
    requires Sound(st) && LruOk(mem', lru') && |lru'.queues| == |st.lru.queues|
    requires forall x | x in st.s.mem && x !in st.lru.cls && x.page != CRAWLERS :: x in mem' && mem'[x] == st.s.mem[x]
    requires forall x: Chunk | x.page != CRAWLERS :: (x in lru'.cls <==> x in st.lru.cls) && (x in lru'.cls ==> lru'.cls[x] == st.lru.cls[x])
    requires forall x: Chunk | x.page == CRAWLERS && x in lru'.cls :: x == CrawlerOf(lru'.cls[x])
    ensures Sound(State(st.s.(mem := mem'), lru', st.hash))
  {
    QueueMemory(st, mem');
    hide LruOk, HashOk;
    var s' := st.s.(mem := mem');
    forall ch
      ensures TiedAt(s', lru'.cls, st.hash.home, ch)
    {
      assert TiedAt(st.s, st.lru.cls, st.hash.home, ch);
      if ch in st.s.out {
        OutChunk(st.s, ch);
        assert OwnerAt(st.s.classes, st.s.owner, ch.page);
      }
    }
  }

  /** do_item_update */
  function Bumped(st: State, ch: Chunk): State
    requires LruOk(st.s.mem, st.lru) && ch in st.lru.cls
  {
    var c := st.lru.cls[ch];
    var (mem1, lru1) := UnlinkQ(st.s.mem, st.lru, ch);
    UnlinkQKeeps(st.s.mem, st.lru, ch);
    ItsQueue(st.s.mem, st.lru, ch);
    LinkQKeeps(mem1, lru1, ch, c);
    var (mem2, lru2) := LinkQ(mem1, lru1, ch, c);
    State(st.s.(mem := mem2), lru2, st.hash)
  }

  lemma BumpedKeeps(st: State, ch: Chunk)
    requires Sound(st) && LinkedOut(st.s, ch)
    ensures ch in st.lru.cls && Sound(Bumped(st, ch))
  {
    assert TiedAt(st.s, st.lru.cls, st.hash.home, ch);
    OutChunk(st.s, ch);
    assert OwnerAt(st.s.classes, st.s.owner, ch.page);
    var c := st.lru.cls[ch];
    var (mem1, lru1) := UnlinkQ(st.s.mem, st.lru, ch);
    UnlinkQKeeps(st.s.mem, st.lru, ch);
    ItsQueue(st.s.mem, st.lru, ch);
    LinkQKeeps(mem1, lru1, ch, c);
    var (mem2, lru2) := LinkQ(mem1, lru1, ch, c);
    CrawlersKnown(st);
    hide Inv, LruOk, HashOk;
    QueuesKeep(st, mem2, lru2);
  }

  lemma CrawlersKnown(st: State)
    requires Sound(st)
    ensures forall x: Chunk | x.page == CRAWLERS && x in st.lru.cls :: x == CrawlerOf(st.lru.cls[x])
  {
    forall x: Chunk | x.page == CRAWLERS && x in st.lru.cls
      ensures x == CrawlerOf(st.lru.cls[x])
    {
      assert TiedAt(st.s, st.lru.cls, st.hash.home, x);
      if x in st.s.out {
        OutChunk(st.s, x);
        assert OwnerAt(st.s.classes, st.s.owner, x.page);
      }
    }
  }
}
