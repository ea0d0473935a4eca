/** memcached's slab allocator: pages cut into chunks, a free list per class, and the
    rebalancer that empties a page to give it to another class. */
module Slabs {
  import opened DoublyLinked
  import opened Lists
  import opened Store

  /** The i-th chunk of a page, as its current class cuts it. */
  datatype Chunk = Chunk(page: nat, i: nat)

  /** The allocator's part of an item's header, apart from the pointers next and prev. */
  datatype Header = Header(refcount: nat, slabbed: bool, linked: bool, clsid: nat)

  type Pointers = map<Chunk, Links<Chunk>>

  const ZERO := Header(0, false, false, 0)
  const CLEARED: nat := 255

  /** The LRU crawlers are nodes too. They lie in an array of their own and not on a page. */
  const CRAWLERS: nat := 0
  const MAX_CLASSES: nat := 201

  /** A slab class: chunks per page, head and length of the free list, and slab_list. */
  datatype Class = Class(perslab: nat, slots: Option<Chunk>, slCurr: nat, pages: seq<nat>)

  /** slab_rebal while a page is being emptied. */
  datatype Rebalance = Rebalance(src: nat, dst: nat, page: nat, pos: nat, busy: nat, done: bool)

  /** `mem` are the pointers next and prev of all chunks, which free lists and LRU queues share.
      Beside the allocator's own state: `lists` are the free lists, `owner` the class of each
      page, `out` the chunks handed out. */
  datatype Slabs = Slabs(
    classes: seq<Class>,
    hdr: map<Chunk, Header>,
    mem: Pointers,
    rebal: Option<Rebalance>,
    lists: seq<seq<Chunk>>,
    owner: map<nat, nat>,
    out: set<Chunk>)

  // ----- free lists

  ghost predicate FreeHeader(hdr: map<Chunk, Header>, ch: Chunk) {
    ch in hdr && hdr[ch].refcount == 0 && hdr[ch].slabbed && !hdr[ch].linked && hdr[ch].clsid == 0
  }

  ghost predicate IsFreeList(hdr: map<Chunk, Header>, mem: Pointers, slots: Option<Chunk>, ids: seq<Chunk>) {
    IsList(mem, slots, At(ids, |ids| - 1), ids) && forall ch | ch in ids :: FreeHeader(hdr, ch)
  }

  lemma FreeListFrame(hdr: map<Chunk, Header>, mem: Pointers, hdr': map<Chunk, Header>, mem': Pointers, slots: Option<Chunk>, ids: seq<Chunk>)
    requires IsFreeList(hdr, mem, slots, ids)
    requires forall ch | ch in ids && ch in hdr :: ch in hdr' && hdr'[ch] == hdr[ch]
    requires forall ch | ch in ids && ch in mem :: ch in mem' && mem'[ch] == mem[ch]
    ensures IsFreeList(hdr', mem', slots, ids)
  {
    ListFrame(mem, mem', slots, At(ids, |ids| - 1), ids);
    forall ch | ch in ids
      ensures FreeHeader(hdr', ch)
    {
      assert FreeHeader(hdr, ch);
    }
  }

  /** do_slabs_free marks the chunk as free. */
  function Freed(h: Header): Header {
    h.(slabbed := true, clsid := 0)
  }

  lemma PushFreeList(hdr: map<Chunk, Header>, mem: Pointers, slots: Option<Chunk>, ids: seq<Chunk>, ch: Chunk)
    requires IsFreeList(hdr, mem, slots, ids) && ch !in ids && ch in hdr && hdr[ch].refcount == 0 && !hdr[ch].linked
    ensures slots.Some? ==> slots.value in mem && slots.value in ids
    ensures IsFreeList(hdr[ch := Freed(hdr[ch])], LinkFront(mem, slots, ch), Some(ch), [ch] + ids)
  {
    FrontList(mem, slots, At(ids, |ids| - 1), ids, ch);
    forall x | x in [ch] + ids
      ensures FreeHeader(hdr[ch := Freed(hdr[ch])], x)
    {
      assert x == ch || FreeHeader(hdr, x);
    }
  }

  /** The chunk's neighbours can be reached. */
  ghost predicate Unhookable(mem: Pointers, ch: Chunk) {
    ch in mem && (mem[ch].next.Some? ==> mem[ch].next.value in mem) && (mem[ch].prev.Some? ==> mem[ch].prev.value in mem)
  }

  /** Taking a chunk out, which then has header h. */
  lemma UnhookFreeList(hdr: map<Chunk, Header>, mem: Pointers, slots: Option<Chunk>, ids: seq<Chunk>, k: nat, h: Header)
    requires IsFreeList(hdr, mem, slots, ids) && k < |ids|
    ensures Unhookable(mem, ids[k])
    ensures IsFreeList(hdr[ids[k] := h], Unlink(mem, ids[k]), if slots == Some(ids[k]) then mem[ids[k]].next else slots, Without(ids, k))
    ensures forall x | x in mem && x !in ids :: Unlink(mem, ids[k])[x] == mem[x]
  {
    hide NodeAt;
    WithoutList(mem, slots, At(ids, |ids| - 1), ids, k);
    WithoutNoRepeats(ids, k);
    forall x | x in Without(ids, k)
      ensures FreeHeader(hdr[ids[k] := h], x)
    {
      assert FreeHeader(hdr, x);
    }
  }

  // ----- the invariant

  ghost predicate ClassesOk(classes: seq<Class>, lists: seq<seq<Chunk>>) {
    |lists| == |classes| <= MAX_CLASSES && forall c | 0 <= c < |classes| :: 1 <= classes[c].perslab
  }

  /** ch is one of the chunks that class c is made of. */
  ghost predicate Member(classes: seq<Class>, owner: map<nat, nat>, c: nat, ch: Chunk) {
    ch.page in owner && owner[ch.page] == c && c < |classes| && ch.i < classes[c].perslab
  }

  ghost predicate ListAt(classes: seq<Class>, hdr: map<Chunk, Header>, mem: Pointers, lists: seq<seq<Chunk>>, owner: map<nat, nat>, c: int) {
    0 <= c < |classes| && c < |lists| ==>
      && IsFreeList(hdr, mem, classes[c].slots, lists[c]) && classes[c].slCurr == |lists[c]|
      && forall ch | ch in lists[c] :: Member(classes, owner, c, ch)
  }

  ghost predicate PagesAt(classes: seq<Class>, owner: map<nat, nat>, c: int) {
    0 <= c < |classes| ==>
      NoRepeats(classes[c].pages) && forall p | p in classes[c].pages :: p in owner && owner[p] == c
  }

  ghost predicate OwnerAt(classes: seq<Class>, owner: map<nat, nat>, p: nat) {
    p in owner ==> p != CRAWLERS && 0 < owner[p] < |classes| && p in classes[owner[p]].pages
  }

  /** A handed-out chunk: at reference count zero it is not marked as free, and while it is
      still marked as free it has not been initialised yet. */
  ghost predicate OutHeader(h: Header, c: nat) {
    && (h.clsid == 0 || h.clsid == c) && (h.refcount == 0 ==> !h.slabbed && !h.linked)
    && (h.slabbed ==> !h.linked && h.clsid == 0) && (h.linked ==> h.clsid == c)
  }

  ghost predicate IsCleared(h: Header) {
    h.clsid == CLEARED && h.refcount == 0 && !h.linked && !h.slabbed
  }

  /** A chunk is handed out, or on its class's free list, or cleared, and only one of these. */
  ghost predicate ChunkAt(classes: seq<Class>, hdr: map<Chunk, Header>, lists: seq<seq<Chunk>>, owner: map<nat, nat>,
                          out: set<Chunk>, killing: Option<nat>, ch: Chunk) {
    if !(ch.page in owner && Member(classes, owner, owner[ch.page], ch)) then ch !in out
    else
      var c := owner[ch.page];
      && ch in hdr && c < |lists|
      && if ch in out then OutHeader(hdr[ch], c) && ch !in lists[c]
         else ch in lists[c] || (IsCleared(hdr[ch]) && killing == Some(ch.page))
  }

  ghost predicate ClearedAt(hdr: map<Chunk, Header>, ch: Chunk) {
    ch in hdr && IsCleared(hdr[ch])
  }

  /** The rebalancer: unless something was busy, all chunks behind it are cleared. */
  ghost predicate RebalanceOk(classes: seq<Class>, hdr: map<Chunk, Header>, r: Rebalance) {
    && 0 < r.src < |classes| && 0 < r.dst < |classes| && r.src != r.dst
    && 2 <= |classes[r.src].pages| && classes[r.src].pages[0] == r.page
    && (if r.done then r.pos == classes[r.src].perslab && r.busy == 0 else r.pos < classes[r.src].perslab)
    && (r.busy == 0 ==> forall i | 0 <= i < r.pos :: ClearedAt(hdr, Chunk(r.page, i)))
  }

  function Killing(rebal: Option<Rebalance>): Option<nat> {
    if rebal.Some? then Some(rebal.value.page) else None
  }

  ghost predicate ListsOk(classes: seq<Class>, hdr: map<Chunk, Header>, mem: Pointers, lists: seq<seq<Chunk>>, owner: map<nat, nat>) {
    forall c {:trigger ListAt(classes, hdr, mem, lists, owner, c)} :: ListAt(classes, hdr, mem, lists, owner, c)
  }

  ghost predicate PagesOk(classes: seq<Class>, owner: map<nat, nat>) {
    && (forall c {:trigger PagesAt(classes, owner, c)} :: PagesAt(classes, owner, c))
    && (forall p {:trigger OwnerAt(classes, owner, p)} :: OwnerAt(classes, owner, p))
  }

  ghost predicate ChunksOk(classes: seq<Class>, hdr: map<Chunk, Header>, lists: seq<seq<Chunk>>, owner: map<nat, nat>,
                           out: set<Chunk>, killing: Option<nat>) {
    forall ch {:trigger ChunkAt(classes, hdr, lists, owner, out, killing, ch)} :: ChunkAt(classes, hdr, lists, owner, out, killing, ch)
  }

  ghost predicate Inv(s: Slabs) {
    && ClassesOk(s.classes, s.lists) && ListsOk(s.classes, s.hdr, s.mem, s.lists, s.owner) && PagesOk(s.classes, s.owner)
    && ChunksOk(s.classes, s.hdr, s.lists, s.owner, s.out, Killing(s.rebal))
    && (s.rebal.Some? ==> RebalanceOk(s.classes, s.hdr, s.rebal.value))
  }

  /** A chunk that is handed out belongs to a class and is on no free list. */
  lemma OutChunk(s: Slabs, ch: Chunk)
    requires Inv(s) && ch in s.out
    ensures ch.page in s.owner && Member(s.classes, s.owner, s.owner[ch.page], ch)
    ensures ch in s.hdr && OutHeader(s.hdr[ch], s.owner[ch.page])
    ensures forall c: nat | c < |s.lists| :: ch !in s.lists[c]
  {
    assert ChunkAt(s.classes, s.hdr, s.lists, s.owner, s.out, Killing(s.rebal), ch);
    forall c: nat | c < |s.lists|
      ensures ch !in s.lists[c]
    {
      assert ListAt(s.classes, s.hdr, s.mem, s.lists, s.owner, c);
      assert ch in s.lists[c] ==> Member(s.classes, s.owner, c, ch);
    }
  }

  // ----- changing pointers that no free list uses

  ghost predicate SameFree(s: Slabs, mem': Pointers) {
    forall x | x in s.mem && x !in s.out && x.page != CRAWLERS :: x in mem' && mem'[x] == s.mem[x]
  }

  lemma MemUpdate(s: Slabs, mem': Pointers)
    requires Inv(s) && SameFree(s, mem')
    ensures Inv(s.(mem := mem'))
  {
    hide IsFreeList;
    forall c
      ensures ListAt(s.classes, s.hdr, mem', s.lists, s.owner, c)
    {
      assert ListAt(s.classes, s.hdr, s.mem, s.lists, s.owner, c);
      if 0 <= c < |s.classes| {
        forall x | x in s.lists[c]
          ensures x !in s.out && x.page != CRAWLERS
        {
          FreeChunkKnown(s, c, x);
        }
        FreeListFrame(s.hdr, s.mem, s.hdr, mem', s.classes[c].slots, s.lists[c]);
      }
    }
  }

  lemma FreeChunkKnown(s: Slabs, c: nat, x: Chunk)
    requires Inv(s) && c < |s.lists| && x in s.lists[c]
    ensures x !in s.out && x.page != CRAWLERS && Member(s.classes, s.owner, c, x) && FreeHeader(s.hdr, x)
  {
    assert ListAt(s.classes, s.hdr, s.mem, s.lists, s.owner, c);
    assert Member(s.classes, s.owner, c, x);
    assert OwnerAt(s.classes, s.owner, x.page);
    assert ChunkAt(s.classes, s.hdr, s.lists, s.owner, s.out, Killing(s.rebal), x);
  }

  // ----- changing the header of a chunk that is handed out

  lemma OutUpdateList(s: Slabs, ch: Chunk, h: Header, c: int)
    requires Inv(s) && ch in s.out
    ensures ListAt(s.classes, s.hdr[ch := h], s.mem, s.lists, s.owner, c)
  {
    OutChunk(s, ch);
    assert ListAt(s.classes, s.hdr, s.mem, s.lists, s.owner, c);
    if 0 <= c < |s.classes| {
      FreeListFrame(s.hdr, s.mem, s.hdr[ch := h], s.mem, s.classes[c].slots, s.lists[c]);
    }
  }

  lemma OutUpdate(s: Slabs, ch: Chunk, h: Header)
    requires Inv(s) && ch in s.out && ch.page in s.owner && OutHeader(h, s.owner[ch.page])
    ensures Inv(s.(hdr := s.hdr[ch := h]))
  {
    hide ListAt;
    var hdr', classes, lists, owner, out, killing := s.hdr[ch := h], s.classes, s.lists, s.owner, s.out, Killing(s.rebal);
    forall c
      ensures ListAt(classes, hdr', s.mem, lists, owner, c)
    {
      OutUpdateList(s, ch, h, c);
    }
    forall x
      ensures ChunkAt(classes, hdr', lists, owner, out, killing, x)
    {
      assert ChunkAt(classes, s.hdr, lists, owner, out, killing, x);
    }
    OutChunk(s, ch);
    NotClearedOut(s, ch);
    ClearedStay(s, s.hdr, hdr', s.rebal);
  }

  lemma NotClearedOut(s: Slabs, ch: Chunk)
    requires Inv(s) && ch in s.out
    ensures ch in s.hdr && !IsCleared(s.hdr[ch])
  {
    OutChunk(s, ch);
    ClassBelowCleared(s, s.owner[ch.page]);
  }

  lemma ClassBelowCleared(s: Slabs, c: nat)
    requires Inv(s) && c < |s.classes|
    ensures c < CLEARED
  {
  }

  lemma ClearedStay(s: Slabs, hdr: map<Chunk, Header>, hdr': map<Chunk, Header>, rebal: Option<Rebalance>)
    requires rebal.Some? ==> RebalanceOk(s.classes, hdr, rebal.value)
    requires forall x | x in hdr && IsCleared(hdr[x]) :: x in hdr' && hdr'[x] == hdr[x]
    ensures rebal.Some? ==> RebalanceOk(s.classes, hdr', rebal.value)
  {
    if rebal.Some? && rebal.value.busy == 0 {
      forall i | 0 <= i < rebal.value.pos
        ensures ClearedAt(hdr', Chunk(rebal.value.page, i))
      {
        assert ClearedAt(hdr, Chunk(rebal.value.page, i));
      }
    }
  }

  // ----- freeing

  /** do_slabs_free, for a chunk of class c. */
  function PushFree(s: Slabs, c: nat, ch: Chunk): Slabs
    requires c < |s.classes| && c < |s.lists| && ch in s.hdr && (s.classes[c].slots.Some? ==> s.classes[c].slots.value in s.mem)
  {
    var p := s.classes[c];
    s.(hdr := s.hdr[ch := Freed(s.hdr[ch])], mem := LinkFront(s.mem, p.slots, ch),
       classes := s.classes[c := p.(slots := Some(ch), slCurr := p.slCurr + 1)],
       lists := s.lists[c := [ch] + s.lists[c]], out := s.out - {ch})
  }

  ghost predicate Freeable(s: Slabs, c: nat, ch: Chunk) {
    Inv(s) && ch in s.out && ch.page in s.owner && s.owner[ch.page] == c && ch in s.hdr && s.hdr[ch].refcount == 0
  }

  lemma FreeKnown(s: Slabs, c: nat, ch: Chunk)
    requires Freeable(s, c, ch)
    ensures c < |s.classes| && c < |s.lists| && (s.classes[c].slots.Some? ==> s.classes[c].slots.value in s.mem && s.classes[c].slots.value in s.lists[c])
    ensures IsFreeList(PushFree(s, c, ch).hdr, PushFree(s, c, ch).mem, Some(ch), [ch] + s.lists[c]) && s.classes[c].slCurr == |s.lists[c]|
    ensures Member(s.classes, s.owner, c, ch)
  {
    OutChunk(s, ch);
    assert ListAt(s.classes, s.hdr, s.mem, s.lists, s.owner, c);
    PushFreeList(s.hdr, s.mem, s.classes[c].slots, s.lists[c], ch);
  }

  lemma ListsDisjoint(s: Slabs, c: nat, c': nat, ch: Chunk)
    requires Inv(s) && c < |s.lists| && c' < |s.lists| && ch in s.lists[c] && ch in s.lists[c']
    ensures c == c'
  {
    assert ListAt(s.classes, s.hdr, s.mem, s.lists, s.owner, c) && ListAt(s.classes, s.hdr, s.mem, s.lists, s.owner, c');
    assert Member(s.classes, s.owner, c, ch) && Member(s.classes, s.owner, c', ch);
  }

  lemma FreeList(s: Slabs, c: nat, ch: Chunk, c': int)
    requires Freeable(s, c, ch)
    ensures c < |s.classes| && c < |s.lists| && (s.classes[c].slots.Some? ==> s.classes[c].slots.value in s.mem)
    ensures var s' := PushFree(s, c, ch); ListAt(s'.classes, s'.hdr, s'.mem, s'.lists, s'.owner, c')
  {
    FreeKnown(s, c, ch);
    var s' := PushFree(s, c, ch);
    assert ListAt(s.classes, s.hdr, s.mem, s.lists, s.owner, c') && ListAt(s.classes, s.hdr, s.mem, s.lists, s.owner, c);
    if 0 <= c' < |s.classes| {
      if c' == c {
        forall x | x in [ch] + s.lists[c]
          ensures Member(s'.classes, s'.owner, c, x)
        {
          assert x == ch || Member(s.classes, s.owner, c, x);
        }
      } else {
        OutChunk(s, ch);
        forall x | x in s.lists[c']
          ensures x in s'.hdr && s'.hdr[x] == s.hdr[x] && Member(s'.classes, s'.owner, c', x)
          ensures x in s.mem ==> x in s'.mem && s'.mem[x] == s.mem[x]
        {
          assert Member(s.classes, s.owner, c', x) && FreeHeader(s.hdr, x);
          if s.classes[c].slots == Some(x) {
            ListsDisjoint(s, c, c', x);
          }
        }
        FreeListFrame(s.hdr, s.mem, s'.hdr, s'.mem, s.classes[c'].slots, s.lists[c']);
      }
    }
  }

  lemma FreeChunk(s: Slabs, c: nat, ch: Chunk, x: Chunk)
    requires Freeable(s, c, ch)
    ensures c < |s.classes| && c < |s.lists| && (s.classes[c].slots.Some? ==> s.classes[c].slots.value in s.mem)
    ensures var s' := PushFree(s, c, ch); ChunkAt(s'.classes, s'.hdr, s'.lists, s'.owner, s'.out, Killing(s'.rebal), x)
  {
    FreeKnown(s, c, ch);
    assert ChunkAt(s.classes, s.hdr, s.lists, s.owner, s.out, Killing(s.rebal), x);
  }

  lemma FreeKeeps(s: Slabs, c: nat, ch: Chunk)
    requires Freeable(s, c, ch)
    ensures c < |s.classes| && c < |s.lists| && (s.classes[c].slots.Some? ==> s.classes[c].slots.value in s.mem)
    ensures Inv(PushFree(s, c, ch))
  {
    hide ListAt, ChunkAt, IsFreeList;
    FreeKnown(s, c, ch);
    var s' := PushFree(s, c, ch);
    forall c'
      ensures ListAt(s'.classes, s'.hdr, s'.mem, s'.lists, s'.owner, c')
    {
      FreeList(s, c, ch, c');
    }
    forall x
      ensures ChunkAt(s'.classes, s'.hdr, s'.lists, s'.owner, s'.out, Killing(s'.rebal), x)
    {
      FreeChunk(s, c, ch, x);
    }
    SamePages(s.classes, s'.classes, s.owner);
    FreeCleared(s, c, ch);
  }

  lemma FreeCleared(s: Slabs, c: nat, ch: Chunk)
    requires Freeable(s, c, ch)
    ensures c < |s.classes| && c < |s.lists| && (s.classes[c].slots.Some? ==> s.classes[c].slots.value in s.mem)
    ensures s.rebal.Some? ==> RebalanceOk(PushFree(s, c, ch).classes, PushFree(s, c, ch).hdr, s.rebal.value)
  {
    FreeKnown(s, c, ch);
    NotClearedOut(s, ch);
    ClearedStay(s, s.hdr, PushFree(s, c, ch).hdr, s.rebal);
  }

  lemma SamePages(classes: seq<Class>, classes': seq<Class>, owner: map<nat, nat>)
    requires PagesOk(classes, owner) && |classes'| == |classes|
    requires forall c | 0 <= c < |classes| :: classes'[c].pages == classes[c].pages
    ensures PagesOk(classes', owner)
  {
    forall c
      ensures PagesAt(classes', owner, c)
    {
      assert PagesAt(classes, owner, c);
    }
    forall p
      ensures OwnerAt(classes', owner, p)
    {
      assert OwnerAt(classes, owner, p);
    }
  }

  // ----- taking a chunk off a free list

  /** The k-th free chunk of class c leaves the list with header h. */
  ghost function TakeFree(s: Slabs, c: nat, k: nat, h: Header, out: set<Chunk>): Slabs
    requires Inv(s) && c < |s.classes| && k < |s.lists[c]|
  {
    var ch, p := s.lists[c][k], s.classes[c];
    assert ListAt(s.classes, s.hdr, s.mem, s.lists, s.owner, c);
    UnhookFreeList(s.hdr, s.mem, p.slots, s.lists[c], k, h);
    s.(hdr := s.hdr[ch := h], mem := Unlink(s.mem, ch), lists := s.lists[c := Without(s.lists[c], k)], out := out,
       classes := s.classes[c := p.(slots := if p.slots == Some(ch) then s.mem[ch].next else p.slots, slCurr := p.slCurr - 1)])
  }

  /** It is handed out, or cleared in the page being emptied. */
  ghost predicate Taking(s: Slabs, c: nat, k: nat, h: Header, out: set<Chunk>) {
    && Inv(s) && c < |s.classes| && k < |s.lists[c]|
    && var ch := s.lists[c][k];
       || (out == s.out + {ch} && OutHeader(h, c))
       || (out == s.out && IsCleared(h) && Killing(s.rebal) == Some(ch.page))
  }

  lemma TakeKnown(s: Slabs, c: nat, k: nat, h: Header, out: set<Chunk>)
    requires Taking(s, c, k, h, out)
    ensures var s', ch, p := TakeFree(s, c, k, h, out), s.lists[c][k], s.classes[c];
            && ch in s.hdr && Member(s.classes, s.owner, c, ch) && ch !in s.out && FreeHeader(s.hdr, ch)
            && IsFreeList(s'.hdr, s'.mem, s'.classes[c].slots, s'.lists[c]) && s'.classes[c].slCurr == |s'.lists[c]|
            && (forall x :: x in s'.lists[c] <==> x in s.lists[c] && x != ch)
            && forall x | x in s.mem && x !in s.lists[c] :: x in s'.mem && s'.mem[x] == s.mem[x]
  {
    hide IsList;
    var ch, p := s.lists[c][k], s.classes[c];
    assert ListAt(s.classes, s.hdr, s.mem, s.lists, s.owner, c);
    assert ch in s.lists[c];
    FreeChunkKnown(s, c, ch);
    UnhookFreeList(s.hdr, s.mem, p.slots, s.lists[c], k, h);
    NoRepeatsFree(s.hdr, s.mem, p.slots, s.lists[c]);
    WithoutNoRepeats(s.lists[c], k);
  }

  lemma NoRepeatsFree(hdr: map<Chunk, Header>, mem: Pointers, slots: Option<Chunk>, ids: seq<Chunk>)
    requires IsFreeList(hdr, mem, slots, ids)
    ensures NoRepeats(ids)
  {
  }

  lemma TakeList(s: Slabs, c: nat, k: nat, h: Header, out: set<Chunk>, c': int)
    requires Taking(s, c, k, h, out)
    ensures var s' := TakeFree(s, c, k, h, out); ListAt(s'.classes, s'.hdr, s'.mem, s'.lists, s'.owner, c')
  {
    hide IsFreeList;
    TakeKnown(s, c, k, h, out);
    var s' := TakeFree(s, c, k, h, out);
    assert ListAt(s.classes, s.hdr, s.mem, s.lists, s.owner, c') && ListAt(s.classes, s.hdr, s.mem, s.lists, s.owner, c);
    if 0 <= c' < |s.classes| {
      forall x | x in s'.lists[c']
        ensures Member(s'.classes, s'.owner, c', x)
      {
        assert Member(s.classes, s.owner, c', x);
      }
      if c' != c {
        forall x | x in s.lists[c']
          ensures x in s.hdr ==> x in s'.hdr && s'.hdr[x] == s.hdr[x]
          ensures x in s.mem ==> x in s'.mem && s'.mem[x] == s.mem[x]
        {
          if x in s.lists[c] {
            ListsDisjoint(s, c, c', x);
          }
        }
        FreeListFrame(s.hdr, s.mem, s'.hdr, s'.mem, s.classes[c'].slots, s.lists[c']);
      }
    }
  }

  lemma TakeChunk(s: Slabs, c: nat, k: nat, h: Header, out: set<Chunk>, x: Chunk)
    requires Taking(s, c, k, h, out)
    ensures var s' := TakeFree(s, c, k, h, out); ChunkAt(s'.classes, s'.hdr, s'.lists, s'.owner, s'.out, Killing(s'.rebal), x)
  {
    hide IsFreeList;
    TakeKnown(s, c, k, h, out);
    assert ChunkAt(s.classes, s.hdr, s.lists, s.owner, s.out, Killing(s.rebal), x);
    assert ListAt(s.classes, s.hdr, s.mem, s.lists, s.owner, c);
    if x in s.lists[c] {
      assert Member(s.classes, s.owner, c, x);
    }
  }

  lemma TakeKeeps(s: Slabs, c: nat, k: nat, h: Header, out: set<Chunk>)
    requires Taking(s, c, k, h, out)
    ensures Inv(TakeFree(s, c, k, h, out))
  {
    hide ListAt, ChunkAt, IsFreeList;
    var s' := TakeFree(s, c, k, h, out);
    forall c'
      ensures ListAt(s'.classes, s'.hdr, s'.mem, s'.lists, s'.owner, c')
    {
      TakeList(s, c, k, h, out, c');
    }
    forall x
      ensures ChunkAt(s'.classes, s'.hdr, s'.lists, s'.owner, s'.out, Killing(s'.rebal), x)
    {
      TakeChunk(s, c, k, h, out, x);
    }
    SamePages(s.classes, s'.classes, s.owner);
    TakeCleared(s, c, k, h, out);
  }

  lemma TakeCleared(s: Slabs, c: nat, k: nat, h: Header, out: set<Chunk>)
    requires Taking(s, c, k, h, out)
    ensures s.rebal.Some? ==> RebalanceOk(TakeFree(s, c, k, h, out).classes, TakeFree(s, c, k, h, out).hdr, s.rebal.value)
  {
    TakeKnown(s, c, k, h, out);
    ClearedStay(s, s.hdr, TakeFree(s, c, k, h, out).hdr, s.rebal);
  }

  // ----- clearing a linked chunk

  /** The chunk is unlinked and cleared in one go. */
  function ClearOut(s: Slabs, ch: Chunk, h: Header): Slabs {
    s.(hdr := s.hdr[ch := h], out := s.out - {ch})
  }

  lemma ClearKeeps(s: Slabs, ch: Chunk, h: Header)
    requires Inv(s) && ch in s.out && IsCleared(h) && Killing(s.rebal) == Some(ch.page)
    ensures Inv(ClearOut(s, ch, h))
  {
    hide ListAt;
    var s' := ClearOut(s, ch, h);
    forall c
      ensures ListAt(s'.classes, s'.hdr, s'.mem, s'.lists, s'.owner, c)
    {
      OutUpdateList(s, ch, h, c);
    }
    forall x
      ensures ChunkAt(s'.classes, s'.hdr, s'.lists, s'.owner, s'.out, Killing(s'.rebal), x)
    {
      assert ChunkAt(s.classes, s.hdr, s.lists, s.owner, s.out, Killing(s.rebal), x);
    }
    NotClearedOut(s, ch);
    ClearedStay(s, s.hdr, s'.hdr, s.rebal);
  }

  // ----- pages

  function ZeroPage(page: nat, n: nat): (m: map<Chunk, Header>)
    ensures forall ch :: ch in m <==> ch.page == page && ch.i < n
    ensures forall ch | ch in m :: m[ch] == ZERO
  {
    map i: nat | 0 <= i < n :: Chunk(page, i) := ZERO
  }

  function PageChunks(page: nat, n: nat): (chunks: set<Chunk>)
    ensures forall ch :: ch in chunks <==> ch.page == page && ch.i < n
  {
    set i: nat | 0 <= i < n :: Chunk(page, i)
  }

  function ZeroPointers(page: nat, n: nat): (m: Pointers)
    ensures forall ch :: ch in m <==> ch.page == page && ch.i < n
    ensures forall ch | ch in m :: m[ch] == Links(None, None)
  {
    map i: nat | 0 <= i < n :: Chunk(page, i) := Links(None, None)
  }

  /** A zeroed page joins class c; its chunks are not on the free list yet. */
  function AddPage(s: Slabs, c: nat, page: nat): Slabs
    requires c < |s.classes|
  {
    var p := s.classes[c];
    s.(classes := s.classes[c := p.(pages := p.pages + [page])], owner := s.owner[page := c],
       hdr := s.hdr + ZeroPage(page, p.perslab), mem := s.mem + ZeroPointers(page, p.perslab), out := s.out + PageChunks(page, p.perslab))
  }

  lemma AddList(s: Slabs, c: nat, page: nat, c': int)
    requires Inv(s) && 0 < c < |s.classes| && page !in s.owner && page != CRAWLERS
    ensures var s' := AddPage(s, c, page); ListAt(s'.classes, s'.hdr, s'.mem, s'.lists, s'.owner, c')
  {
    hide IsFreeList;
    var s' := AddPage(s, c, page);
    assert ListAt(s.classes, s.hdr, s.mem, s.lists, s.owner, c');
    if 0 <= c' < |s.classes| {
      forall x | x in s.lists[c']
        ensures Member(s'.classes, s'.owner, c', x) && x.page != page
      {
        assert Member(s.classes, s.owner, c', x);
      }
      FreeListFrame(s.hdr, s.mem, s'.hdr, s'.mem, s.classes[c'].slots, s.lists[c']);
    }
  }

  lemma AddChunk(s: Slabs, c: nat, page: nat, x: Chunk)
    requires Inv(s) && 0 < c < |s.classes| && page !in s.owner && page != CRAWLERS
    ensures var s' := AddPage(s, c, page); ChunkAt(s'.classes, s'.hdr, s'.lists, s'.owner, s'.out, Killing(s'.rebal), x)
  {
    assert ChunkAt(s.classes, s.hdr, s.lists, s.owner, s.out, Killing(s.rebal), x);
    assert ListAt(s.classes, s.hdr, s.mem, s.lists, s.owner, c);
    if x in s.lists[c] {
      assert Member(s.classes, s.owner, c, x);
    }
  }

  lemma AddPagesOk(s: Slabs, c: nat, page: nat)
    requires Inv(s) && 0 < c < |s.classes| && page !in s.owner && page != CRAWLERS
    ensures PagesOk(AddPage(s, c, page).classes, AddPage(s, c, page).owner)
  {
    var s' := AddPage(s, c, page);
    forall c'
      ensures PagesAt(s'.classes, s'.owner, c')
    {
      assert PagesAt(s.classes, s.owner, c');
    }
    forall p
      ensures OwnerAt(s'.classes, s'.owner, p)
    {
      assert OwnerAt(s.classes, s.owner, p);
    }
  }

  lemma KillingOwned(s: Slabs)
    requires Inv(s) && s.rebal.Some?
    ensures s.rebal.value.page in s.owner && s.owner[s.rebal.value.page] == s.rebal.value.src
  {
    assert PagesAt(s.classes, s.owner, s.rebal.value.src);
    assert s.rebal.value.page in s.classes[s.rebal.value.src].pages;
  }

  lemma AddPageKeeps(s: Slabs, c: nat, page: nat)
    requires Inv(s) && 0 < c < |s.classes| && page !in s.owner && page != CRAWLERS
    ensures Inv(AddPage(s, c, page))
  {
    hide ListAt, ChunkAt;
    var s' := AddPage(s, c, page);
    forall c'
      ensures ListAt(s'.classes, s'.hdr, s'.mem, s'.lists, s'.owner, c')
    {
      AddList(s, c, page, c');
    }
    forall x
      ensures ChunkAt(s'.classes, s'.hdr, s'.lists, s'.owner, s'.out, Killing(s'.rebal), x)
    {
      AddChunk(s, c, page, x);
    }
    AddPagesOk(s, c, page);
    if s.rebal.Some? {
      KillingOwned(s);
      var r := s.rebal.value;
      if r.busy == 0 {
        forall i | 0 <= i < r.pos
          ensures ClearedAt(s'.hdr, Chunk(r.page, i))
        {
          assert ClearedAt(s.hdr, Chunk(r.page, i));
        }
      }
    }
  }

  /** The emptied page leaves its class: the last page of slab_list takes its place. */
  function DropPage(s: Slabs): Slabs
    requires s.rebal.Some? && s.rebal.value.src < |s.classes| && s.classes[s.rebal.value.src].pages != []
  {
    var r := s.rebal.value;
    var p := s.classes[r.src];
    var last := |p.pages| - 1;
    s.(classes := s.classes[r.src := p.(pages := p.pages[0 := p.pages[last]][..last])],
       owner := s.owner - {r.page}, rebal := None)
  }

  /** The chunks of an emptied page are on no free list and not handed out. */
  lemma EmptiedPage(s: Slabs, ch: Chunk)
    requires Inv(s) && s.rebal.Some? && s.rebal.value.done && ch.page == s.rebal.value.page
    ensures ch !in s.out && (forall c: nat | c < |s.lists| :: ch !in s.lists[c])
    ensures ch.i < s.classes[s.rebal.value.src].perslab ==> ClearedAt(s.hdr, ch)
  {
    var r := s.rebal.value;
    KillingOwned(s);
    if ch.i < r.pos {
      assert ClearedAt(s.hdr, Chunk(r.page, ch.i));
    }
    assert ChunkAt(s.classes, s.hdr, s.lists, s.owner, s.out, Killing(s.rebal), ch);
    if ch in s.out {
      NotClearedOut(s, ch);
    }
    forall c: nat | c < |s.lists|
      ensures ch !in s.lists[c]
    {
      assert ListAt(s.classes, s.hdr, s.mem, s.lists, s.owner, c);
      assert ch in s.lists[c] ==> Member(s.classes, s.owner, c, ch) && FreeHeader(s.hdr, ch);
    }
  }

  lemma DropList(s: Slabs, c: int)
    requires Inv(s) && s.rebal.Some? && s.rebal.value.done
    ensures var s' := DropPage(s); ListAt(s'.classes, s'.hdr, s'.mem, s'.lists, s'.owner, c)
  {
    hide IsFreeList;
    var s' := DropPage(s);
    assert ListAt(s.classes, s.hdr, s.mem, s.lists, s.owner, c);
    if 0 <= c < |s.classes| {
      forall x | x in s.lists[c]
        ensures Member(s'.classes, s'.owner, c, x)
      {
        assert Member(s.classes, s.owner, c, x);
        if x.page == s.rebal.value.page {
          EmptiedPage(s, x);
        }
      }
    }
  }

  lemma DropPagesOk(s: Slabs)
    requires Inv(s) && s.rebal.Some? && s.rebal.value.done
    ensures PagesOk(DropPage(s).classes, DropPage(s).owner)
  {
    var r, s' := s.rebal.value, DropPage(s);
    var pages, pages' := s.classes[r.src].pages, s'.classes[r.src].pages;
    assert PagesAt(s.classes, s.owner, r.src);
    DropFirst(pages);
    forall c
      ensures PagesAt(s'.classes, s'.owner, c)
    {
      assert PagesAt(s.classes, s.owner, c);
    }
    forall p
      ensures OwnerAt(s'.classes, s'.owner, p)
    {
      assert OwnerAt(s.classes, s.owner, p);
    }
  }

  lemma DropFirst(pages: seq<nat>)
    requires pages != [] && NoRepeats(pages)
    ensures var last := |pages| - 1;
            var pages' := pages[0 := pages[last]][..last];
            NoRepeats(pages') && forall p :: p in pages' <==> p in pages && p != pages[0]
  {
    var last := |pages| - 1;
    var pages' := pages[0 := pages[last]][..last];
    forall p | p in pages && p != pages[0]
      ensures p in pages'
    {
      var k :| 0 <= k < |pages| && pages[k] == p;
      assert pages'[if k == last then 0 else k] == p;
    }
    forall p | p in pages'
      ensures p in pages && p != pages[0]
    {
      var k :| 0 <= k < |pages'| && pages'[k] == p;
      assert p == pages[if k == 0 then last else k];
    }
  }

  lemma DropPageKeeps(s: Slabs)
    requires Inv(s) && s.rebal.Some? && s.rebal.value.done
    ensures Inv(DropPage(s))
    ensures s.rebal.value.page !in DropPage(s).owner
  {
    hide ListAt;
    var s' := DropPage(s);
    forall c
      ensures ListAt(s'.classes, s'.hdr, s'.mem, s'.lists, s'.owner, c)
    {
      DropList(s, c);
    }
    forall x
      ensures ChunkAt(s'.classes, s'.hdr, s'.lists, s'.owner, s'.out, None, x)
    {
      assert ChunkAt(s.classes, s.hdr, s.lists, s.owner, s.out, Killing(s.rebal), x);
      if x.page == s.rebal.value.page {
        EmptiedPage(s, x);
      }
    }
    DropPagesOk(s);
  }
}
