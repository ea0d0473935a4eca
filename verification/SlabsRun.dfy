/** The allocator at work: its locked sections as methods, and every interleaving of them with
    the life of the items as runs of a state machine. */
module SlabsRun {
  import opened DoublyLinked
  import opened Lists
  import opened Slabs
  import opened SlabItems
  import opened Store

  // ----- locked sections, step by step

  /** do_slabs_alloc from a list that is not empty, and do_item_alloc's reference. */
  function PopFree(s: Slabs, c: nat): Slabs
    requires c < |s.classes| && c < |s.lists| && s.lists[c] != [] && s.classes[c].slots.Some? && s.classes[c].slots.value in s.hdr
    requires s.classes[c].slots.value in s.mem
    requires var next := s.mem[s.classes[c].slots.value].next; next.Some? ==> next.value in s.mem
    requires 0 < s.classes[c].slCurr
  {
    var p := s.classes[c];
    var ch := p.slots.value;
    var next := s.mem[ch].next;
    var mem' := if next.Some? then s.mem[next.value := s.mem[next.value].(prev := None)] else s.mem;
    s.(classes := s.classes[c := p.(slots := next, slCurr := p.slCurr - 1)], hdr := s.hdr[ch := s.hdr[ch].(refcount := 1)],
       mem := mem', lists := s.lists[c := s.lists[c][1..]], out := s.out + {ch})
  }

  /** The first free chunk of class c can be taken. */
  ghost predicate Poppable(s: Slabs, c: nat) {
    && c < |s.classes| && c < |s.lists| && s.lists[c] != [] && s.classes[c].slots == Some(s.lists[c][0]) && 0 < s.classes[c].slCurr
    && s.lists[c][0] in s.hdr && s.lists[c][0] in s.mem
    && var next := s.mem[s.lists[c][0]].next; next.Some? ==> next.value in s.mem
  }

  lemma PopIsTake(s: Slabs, c: nat)
    requires Inv(s) && c < |s.classes| && s.lists[c] != []
    ensures Poppable(s, c)
    ensures var h := s.hdr[s.lists[c][0]].(refcount := 1);
            && Taking(s, c, 0, h, s.out + {s.lists[c][0]})
            && PopFree(s, c) == TakeFree(s, c, 0, h, s.out + {s.lists[c][0]})
  {
    assert ListAt(s.classes, s.hdr, s.mem, s.lists, s.owner, c);
    var ids, ch := s.lists[c], s.lists[c][0];
    FreeChunkKnown(s, c, ch);
    Neighbours(s.mem, s.classes[c].slots, At(ids, |ids| - 1), ids, 0);
    assert Without(ids, 0) == ids[1..];
  }

  lemma PopKeeps(st: State, c: nat)
    requires Sound(st) && c < |st.s.classes| && c < |st.s.lists| && st.s.lists[c] != []
    ensures Poppable(st.s, c) && st.s.lists[c][0] !in st.s.out
    ensures Sound(st.(s := PopFree(st.s, c)))
  {
    PopIsTake(st.s, c);
    var ch := st.s.lists[c][0];
    FreeChunkKnown(st.s, c, ch);
    TakenUnnoticed(st, c, 0, st.s.hdr[ch].(refcount := 1), st.s.out + {ch});
  }

  /** Queues and hash table do not notice that a free chunk is taken. */
  lemma TakenUnnoticed(st: State, c: nat, k: nat, h: Header, out: set<Chunk>)
    requires Sound(st) && Taking(st.s, c, k, h, out) && !h.linked
    ensures Sound(st.(s := TakeFree(st.s, c, k, h, out)))
  {
    hide LruOk, HashOk, IsFreeList, ListAt, ChunkAt;
    TakeKeeps(st.s, c, k, h, out);
    TakeKnown(st.s, c, k, h, out);
    var s' := TakeFree(st.s, c, k, h, out);
    forall ch | ch in st.lru.cls && ch in st.s.mem
      ensures ch in s'.mem && s'.mem[ch] == st.s.mem[ch]
    {
      QueuedIsOut(st, ch);
    }
    Unnoticed(st, s');
  }

  lemma FreeUnnoticed(st: State, c: nat, ch: Chunk)
    requires Sound(st) && Freeable(st.s, c, ch)
    ensures c < |st.s.classes| && c < |st.s.lists| && (st.s.classes[c].slots.Some? ==> st.s.classes[c].slots.value in st.s.mem)
    ensures Sound(st.(s := PushFree(st.s, c, ch)))
  {
    OutChunk(st.s, ch);
    NotAttached(st, ch);
    FreeKnown(st.s, c, ch);
    FreeKeeps(st.s, c, ch);
    hide Inv, LruOk, HashOk, IsFreeList;
    var s' := PushFree(st.s, c, ch);
    forall x | x in st.lru.cls && x in st.s.mem
      ensures x in s'.mem && s'.mem[x] == st.s.mem[x]
    {
      QueuedIsOut(st, x);
    }
    Unnoticed(st, s');
  }

  lemma PageUnnoticed(st: State, c: nat, page: nat)
    requires Sound(st) && 0 < c < |st.s.classes| && page !in st.s.owner && page != CRAWLERS
    ensures Sound(st.(s := AddPage(st.s, c, page)))
  {
    AddPageKeeps(st.s, c, page);
    var s' := AddPage(st.s, c, page);
    forall ch | ch in st.s.out
      ensures ch.page in st.s.owner && ch.page != page
    {
      OutChunk(st.s, ch);
    }
    hide Inv, LruOk, HashOk;
    forall ch | ch in st.lru.cls && ch in st.s.mem
      ensures ch in s'.mem && s'.mem[ch] == st.s.mem[ch]
    {
      QueuedIsOut(st, ch);
    }
    Unnoticed(st, s');
  }

  lemma DropUnnoticed(st: State)
    requires Sound(st) && st.s.rebal.Some? && st.s.rebal.value.done
    ensures Sound(st.(s := DropPage(st.s))) && st.s.rebal.value.page !in DropPage(st.s).owner && st.s.rebal.value.page != CRAWLERS
  {
    KillingOwned(st.s);
    assert OwnerAt(st.s.classes, st.s.owner, st.s.rebal.value.page);
    DropPageKeeps(st.s);
    forall ch | LinkedOut(st.s, ch)
      ensures ch.page != st.s.rebal.value.page
    {
      if ch.page == st.s.rebal.value.page {
        EmptiedPage(st.s, ch);
      }
    }
    var s' := DropPage(st.s);
    assert |s'.classes| == |st.s.classes|;
    hide Inv, LruOk, HashOk;
    Unnoticed(st, s');
  }

  function Clear(h: Header): Header {
    h.(refcount := 0, slabbed := false, linked := false, clsid := CLEARED)
  }

  /** A free chunk of class c is taken off its list and cleared. */
  function ClearFree(s: Slabs, c: nat, ch: Chunk): Slabs
    requires c < |s.classes| && c < |s.lists| && ch in s.lists[c] && ch in s.hdr && 0 < s.classes[c].slCurr
    requires Unhookable(s.mem, ch)
  {
    var p := s.classes[c];
    s.(hdr := s.hdr[ch := Clear(s.hdr[ch])], mem := DoublyLinked.Unlink(s.mem, ch),
       lists := s.lists[c := Without(s.lists[c], IndexOf(s.lists[c], ch))],
       classes := s.classes[c := p.(slots := if p.slots == Some(ch) then s.mem[ch].next else p.slots, slCurr := p.slCurr - 1)])
  }

  /** What slab_rebalance_move can clear. `gotLock` if the item lock could be taken. */
  predicate Movable(h: Header, gotLock: bool) {
    h.clsid == CLEARED || (gotLock && ((h.refcount == 0 && h.slabbed) || (h.refcount == 1 && h.linked)))
  }

  /** What it does to the chunk at its position. */
  ghost predicate MoveChunk(st: State, ch: Chunk, c: nat, gotLock: bool, st': State, busy: nat) {
    && ch in st.s.hdr
    && var h := st.s.hdr[ch];
       && busy == (if Movable(h, gotLock) then 0 else 1)
       && if !Movable(h, gotLock) || h.clsid == CLEARED then st' == st
          else if h.refcount == 0 then
            && c < |st.s.classes| && c < |st.s.lists| && ch in st.s.lists[c] && 0 < st.s.classes[c].slCurr && Unhookable(st.s.mem, ch)
            && st' == st.(s := ClearFree(st.s, c, ch))
          else
            && LruOk(st.s.mem, st.lru) && HashOk(st.hash) && ch in st.lru.cls && ch in st.hash.home
            && st' == Detach(st, ch).(s := ClearOut(Detach(st, ch).s, ch, Clear(h)))
  }

  /** On to the next chunk; at the end start over if anything was busy. */
  function Advance(r: Rebalance, n: nat): Rebalance {
    if r.pos + 1 < n then r.(pos := r.pos + 1)
    else if 0 < r.busy then r.(pos := 0, busy := 0)
    else r.(pos := r.pos + 1, done := true)
  }

  function Advanced(st: State, r: Rebalance, busy: nat, n: nat): State {
    st.(s := st.s.(rebal := Some(Advance(r.(busy := r.busy + busy), n))))
  }

  ghost predicate MoveStep(st: State, gotLock: bool, st': State) {
    && st.s.rebal.Some? && !st.s.rebal.value.done && st.s.rebal.value.src < |st.s.classes|
    && var r := st.s.rebal.value;
       exists st1, busy | MoveChunk(st, Chunk(r.page, r.pos), r.src, gotLock, st1, busy) ::
         st' == Advanced(st1, r, busy, st.s.classes[r.src].perslab)
  }

  /** The chunk at the mover's position belongs to the class being robbed. */
  lemma AtPosition(s: Slabs)
    requires Inv(s) && s.rebal.Some? && !s.rebal.value.done
    ensures var r := s.rebal.value;
            var ch := Chunk(r.page, r.pos);
            && r.src < |s.classes| && ch.page in s.owner && Member(s.classes, s.owner, r.src, ch) && ch in s.hdr
            && ChunkAt(s.classes, s.hdr, s.lists, s.owner, s.out, Killing(s.rebal), ch)
  {
    KillingOwned(s);
    var ch := Chunk(s.rebal.value.page, s.rebal.value.pos);
    assert ChunkAt(s.classes, s.hdr, s.lists, s.owner, s.out, Killing(s.rebal), ch);
  }

  /** A header marked free with no reference is on the free list, not handed out. */
  lemma MarkedFree(s: Slabs, ch: Chunk, c: nat)
    requires Inv(s) && Member(s.classes, s.owner, c, ch) && ch in s.hdr
    requires ChunkAt(s.classes, s.hdr, s.lists, s.owner, s.out, Killing(s.rebal), ch)
    requires s.hdr[ch].clsid != CLEARED && s.hdr[ch].refcount == 0 && s.hdr[ch].slabbed
    ensures c < |s.lists| && ch in s.lists[c] && Unhookable(s.mem, ch) && 0 < s.classes[c].slCurr
    ensures Killing(s.rebal) == Some(ch.page) ==>
              var k := IndexOf(s.lists[c], ch);
              Taking(s, c, k, Clear(s.hdr[ch]), s.out) && ClearFree(s, c, ch) == TakeFree(s, c, k, Clear(s.hdr[ch]), s.out)
  {
    assert ListAt(s.classes, s.hdr, s.mem, s.lists, s.owner, c);
    assert ch in s.lists[c];
    var k := IndexOf(s.lists[c], ch);
    UnhookFreeList(s.hdr, s.mem, s.classes[c].slots, s.lists[c], k, Clear(s.hdr[ch]));
  }

  /** The chunk is cleared unless it is busy, and the rest of the allocator stays as it is. */
  lemma MovedChunk(st: State, gotLock: bool, st1: State, busy: nat)
    requires Sound(st) && st.s.rebal.Some? && !st.s.rebal.value.done && st.s.rebal.value.src < |st.s.classes|
    requires MoveChunk(st, Chunk(st.s.rebal.value.page, st.s.rebal.value.pos), st.s.rebal.value.src, gotLock, st1, busy)
    ensures Sound(st1) && (busy == 0 ==> ClearedAt(st1.s.hdr, Chunk(st.s.rebal.value.page, st.s.rebal.value.pos)))
    ensures st1.s.rebal == st.s.rebal && st1.s.owner == st.s.owner && st1.s.out <= st.s.out
    ensures SamePagesAs(st.s.classes, st1.s.classes)
  {
    hide IsFreeList, LruOk, HashOk, ListsOk, ChunksOk, PagesOk;
    AtPosition(st.s);
    var r := st.s.rebal.value;
    var ch, c := Chunk(r.page, r.pos), r.src;
    var h := st.s.hdr[ch];
    if h.clsid == CLEARED {
      ClearedNotListed(st.s, ch, c);
    } else if Movable(h, gotLock) && h.refcount == 0 {
      MarkedFree(st.s, ch, c);
      TakenUnnoticed(st, c, IndexOf(st.s.lists[c], ch), Clear(h), st.s.out);
    } else if Movable(h, gotLock) {
      ReferencedIsOut(st.s, ch, c);
      ClearLinkedKeeps(st, ch, Clear(h));
    }
  }

  ghost predicate SamePagesAs(classes: seq<Class>, classes': seq<Class>) {
    |classes'| == |classes| && forall c | 0 <= c < |classes| :: classes'[c].perslab == classes[c].perslab && classes'[c].pages == classes[c].pages
  }

  lemma ClearedNotListed(s: Slabs, ch: Chunk, c: nat)
    requires Inv(s) && Member(s.classes, s.owner, c, ch) && ch in s.hdr && s.hdr[ch].clsid == CLEARED
    requires ChunkAt(s.classes, s.hdr, s.lists, s.owner, s.out, Killing(s.rebal), ch)
    ensures IsCleared(s.hdr[ch])
  {
    ClassBelowCleared(s, c);
    if ch in s.lists[c] {
      FreeChunkKnown(s, c, ch);
    }
  }

  lemma ReferencedIsOut(s: Slabs, ch: Chunk, c: nat)
    requires Inv(s) && Member(s.classes, s.owner, c, ch) && ch in s.hdr && 0 < s.hdr[ch].refcount
    requires ChunkAt(s.classes, s.hdr, s.lists, s.owner, s.out, Killing(s.rebal), ch)
    ensures ch in s.out
  {
    assert ListAt(s.classes, s.hdr, s.mem, s.lists, s.owner, c);
    assert ch in s.lists[c] ==> FreeHeader(s.hdr, ch);
  }

  lemma MoveKeeps(st: State, gotLock: bool, st': State)
    requires Sound(st) && MoveStep(st, gotLock, st')
    ensures Sound(st') && st'.s.owner == st.s.owner && st'.s.out <= st.s.out && TotalPages(st'.s.classes) == TotalPages(st.s.classes)
    ensures SamePagesAs(st.s.classes, st'.s.classes)
  {
    hide ListsOk, ChunksOk, PagesOk, LruOk, HashOk;
    var r := st.s.rebal.value;
    var st1, busy :| MoveChunk(st, Chunk(r.page, r.pos), r.src, gotLock, st1, busy) &&
                     st' == Advanced(st1, r, busy, st.s.classes[r.src].perslab);
    MovedChunk(st, gotLock, st1, busy);
    SameTotal(st.s.classes, st1.s.classes);
    var r' := st'.s.rebal.value;
    if r'.busy == 0 {
      forall i | 0 <= i < r'.pos
        ensures ClearedAt(st'.s.hdr, Chunk(r.page, i))
      {
        assert i < r.pos ==> ClearedAt(st1.s.hdr, Chunk(r.page, i));
      }
    }
    assert Inv(st'.s);
    Unnoticed(st1, st'.s);
  }

  /** The chunk can be cleared: it has been already, or its lock was free and it is on the free
      list, or linked and referred to by nobody else. */
  ghost predicate Unheld(st: State, ch: Chunk, c: nat, gotLock: bool) {
    && ch in st.s.hdr && c < |st.s.lists|
    && (|| st.s.hdr[ch].clsid == CLEARED
        || (gotLock && (ch in st.s.lists[c] || (ch in st.hash.home && st.s.hdr[ch].refcount == 1))))
  }

  /** Somebody holds a reference to the chunk, beside the one that being linked counts for. */
  ghost predicate InUse(st: State, ch: Chunk) {
    ch in st.s.out && ch in st.s.hdr && (if st.s.hdr[ch].linked then 1 else 0) < st.s.hdr[ch].refcount
  }

  lemma UnheldIsMovable(st: State, ch: Chunk, c: nat, gotLock: bool)
    requires Sound(st) && Member(st.s.classes, st.s.owner, c, ch) && ch in st.s.hdr
    requires ChunkAt(st.s.classes, st.s.hdr, st.s.lists, st.s.owner, st.s.out, Killing(st.s.rebal), ch)
    ensures Unheld(st, ch, c, gotLock) <==> Movable(st.s.hdr[ch], gotLock)
    ensures InUse(st, ch) ==> !Unheld(st, ch, c, gotLock)
  {
    hide LruOk, HashOk;
    var h := st.s.hdr[ch];
    assert TiedAt(st.s, st.lru.cls, st.hash.home, ch);
    ClassBelowCleared(st.s, c);
    if ch in st.s.lists[c] {
      FreeChunkKnown(st.s, c, ch);
    }
    if h.clsid == CLEARED {
      ClearedNotListed(st.s, ch, c);
    } else if h.refcount == 0 && h.slabbed {
      MarkedFree(st.s, ch, c);
    } else if 0 < h.refcount {
      ReferencedIsOut(st.s, ch, c);
    }
  }

  /** One step of the rebalancer, exactly: the chunk at its position is cleared and taken off
      whatever list it is on if that can be done, and otherwise nothing changes and it is counted
      as busy. */
  lemma MoveExactly(st: State, gotLock: bool, st': State)
    requires Sound(st) && MoveStep(st, gotLock, st')
    ensures var r := st.s.rebal.value;
            var ch := Chunk(r.page, r.pos);
            && ch in st.s.hdr && r.src < |st.s.classes|
            && (Unheld(st, ch, r.src, gotLock) ==>
                  && ClearedAt(st'.s.hdr, ch) && ch !in st'.s.out && ch !in st'.lru.cls && ch !in st'.hash.home
                  && (forall c: nat | c < |st'.s.lists| :: ch !in st'.s.lists[c])
                  && st'.s.rebal == Some(Advance(r, st.s.classes[r.src].perslab)))
            && (!Unheld(st, ch, r.src, gotLock) ==>
                  st' == st.(s := st.s.(rebal := Some(Advance(r.(busy := r.busy + 1), st.s.classes[r.src].perslab)))))
  {
    hide IsFreeList, ListsOk, ChunksOk, PagesOk, LruOk, HashOk;
    AtPosition(st.s);
    var r := st.s.rebal.value;
    var ch := Chunk(r.page, r.pos);
    UnheldIsMovable(st, ch, r.src, gotLock);
    var st1, busy :| MoveChunk(st, ch, r.src, gotLock, st1, busy) && st' == Advanced(st1, r, busy, st.s.classes[r.src].perslab);
    assert r.(busy := r.busy + 0) == r;
    if Unheld(st, ch, r.src, gotLock) {
      MovedChunk(st, gotLock, st1, busy);
      MoveKeeps(st, gotLock, st');
      ClearedIsNowhere(st', ch);
    }
  }

  lemma ClearedIsNowhere(st: State, ch: Chunk)
    requires Sound(st) && ClearedAt(st.s.hdr, ch) && ch.page in st.s.owner
    ensures ch !in st.s.out && ch !in st.lru.cls && ch !in st.hash.home
    ensures forall c: nat | c < |st.s.lists| :: ch !in st.s.lists[c]
  {
    hide LruOk, HashOk;
    if ch in st.s.out {
      NotClearedOut(st.s, ch);
    }
    assert TiedAt(st.s, st.lru.cls, st.hash.home, ch) && OwnerAt(st.s.classes, st.s.owner, ch.page);
    forall c: nat | c < |st.s.lists|
      ensures ch !in st.s.lists[c]
    {
      if ch in st.s.lists[c] {
        FreeChunkKnown(st.s, c, ch);
      }
    }
  }

  /** What is in use stays handed out with its header, and linked if it was. */
  ghost predicate Spared(st: State, st': State) {
    forall ch | InUse(st, ch) :: ch in st'.s.out && ch in st'.s.hdr && st'.s.hdr[ch] == st.s.hdr[ch]
  }

  /** The rebalancer takes no chunk away from its user; one it meets in use it counts as busy. */
  lemma MoveSparesUsers(st: State, gotLock: bool, st': State)
    requires Sound(st) && MoveStep(st, gotLock, st')
    ensures Spared(st, st')
    ensures var r := st.s.rebal.value;
            && r.src < |st.s.classes|
            && (InUse(st, Chunk(r.page, r.pos)) ==>
                  st'.s.rebal == Some(Advance(r.(busy := r.busy + 1), st.s.classes[r.src].perslab)))
  {
    hide IsFreeList, ListsOk, ChunksOk, PagesOk, LruOk, HashOk;
    AtPosition(st.s);
    var r := st.s.rebal.value;
    var at := Chunk(r.page, r.pos);
    UnheldIsMovable(st, at, r.src, gotLock);
    MoveExactly(st, gotLock, st');
    OthersKeepHeaders(st, gotLock, st');
  }

  lemma OthersKeepHeaders(st: State, gotLock: bool, st': State)
    requires Sound(st) && MoveStep(st, gotLock, st')
    ensures var at := Chunk(st.s.rebal.value.page, st.s.rebal.value.pos);
            forall ch | ch in st.s.hdr && ch != at :: ch in st'.s.hdr && st'.s.hdr[ch] == st.s.hdr[ch] && (ch in st.s.out ==> ch in st'.s.out)
  {
  }

  /** The mover is never stuck: a step is possible whatever the locks do. */
  lemma MoveEnabled(st: State, gotLock: bool)
    requires Sound(st) && st.s.rebal.Some? && !st.s.rebal.value.done
    ensures exists st' :: MoveStep(st, gotLock, st')
  {
    AtPosition(st.s);
    var r := st.s.rebal.value;
    var ch, c, st1 := Chunk(r.page, r.pos), r.src, st;
    var h := st.s.hdr[ch];
    if !Movable(h, gotLock) || h.clsid == CLEARED {
    } else if h.refcount == 0 {
      MarkedFree(st.s, ch, c);
      st1 := st.(s := ClearFree(st.s, c, ch));
    } else {
      ReferencedIsOut(st.s, ch, c);
      DetachKeeps(st, ch);
      st1 := Detach(st, ch).(s := ClearOut(Detach(st, ch).s, ch, Clear(h)));
    }
    var busy := if Movable(h, gotLock) then 0 else 1;
    assert MoveChunk(st, ch, c, gotLock, st1, busy);
    assert MoveStep(st, gotLock, Advanced(st1, r, busy, st.s.classes[r.src].perslab));
  }

  // ----- counting pages

  function TotalPages(classes: seq<Class>): nat {
    if classes == [] then 0 else |classes[0].pages| + TotalPages(classes[1..])
  }

  lemma {:induction false} TotalUpdate(classes: seq<Class>, c: nat, p: Class)
    requires c < |classes|
    ensures TotalPages(classes[c := p]) == TotalPages(classes) - |classes[c].pages| + |p.pages|
  {
    var classes' := classes[c := p];
    if c == 0 {
      assert classes'[1..] == classes[1..];
    } else {
      TotalUpdate(classes[1..], c - 1, p);
      assert classes'[1..] == classes[1..][c - 1 := p];
    }
  }

  lemma {:induction false} SameTotal(classes: seq<Class>, classes': seq<Class>)
    requires |classes'| == |classes| && forall c | 0 <= c < |classes| :: classes'[c].pages == classes[c].pages
    ensures TotalPages(classes') == TotalPages(classes)
  {
    if classes != [] {
      SameTotal(classes[1..], classes'[1..]);
    }
  }

  lemma FinishTotal(s: Slabs)
    requires Inv(s) && s.rebal.Some? && s.rebal.value.done
    ensures var r := s.rebal.value;
            TotalPages(AddPage(DropPage(s), r.dst, r.page).classes) == TotalPages(s.classes)
  {
    var r, s1 := s.rebal.value, DropPage(s);
    TotalUpdate(s.classes, r.src, s1.classes[r.src]);
    TotalUpdate(s1.classes, r.dst, AddPage(s1, r.dst, r.page).classes[r.dst]);
  }

  // ----- the state machine

  datatype Action =
    | Alloc(c: nat) | NewPage(c: nat, page: nat) | Free(ch: Chunk)
    | Init(ch: Chunk) | Link(ch: Chunk, b: nat) | Unlink(ch: Chunk) | Get(ch: Chunk) | Drop(ch: Chunk) | Reuse(ch: Chunk) | Bump(ch: Chunk)
    | CrawlerEnters(c: nat) | CrawlerMoves(c: nat) | CrawlerLeaves(c: nat)
    | GrowTable(n: nat) | MoveItem(ch: Chunk, b: nat)
    | Start(src: nat, dst: nat) | Move(gotLock: bool) | Finish

  /** A chunk that is handed out gets header h. */
  function WithHeader(st: State, ch: Chunk, h: Header): State {
    st.(s := st.s.(hdr := st.s.hdr[ch := h]))
  }

  ghost predicate IsOut(st: State, ch: Chunk) {
    ch in st.s.out && ch in st.s.hdr && ch.page in st.s.owner
  }

  /** do_item_alloc goes on with a chunk that was handed out. */
  ghost predicate InitStep(st: State, ch: Chunk, st': State) {
    && IsOut(st, ch)
    && var h := st.s.hdr[ch];
       && 0 < h.refcount && h.clsid == 0
       && st' == WithHeader(Initialised(st, ch), ch, h.(slabbed := false, linked := false, clsid := st.s.owner[ch.page]))
  }

  /** do_item_link: into bucket b of the hash table and to the head of the queue. */
  ghost predicate LinkStep(st: State, ch: Chunk, b: nat, st': State) {
    && IsOut(st, ch) && LruOk(st.s.mem, st.lru) && b < |st.hash.buckets| == |st.hash.chains|
    && var h, c := st.s.hdr[ch], st.s.owner[ch.page];
       && c < |st.lru.queues| && 0 < h.refcount && h.clsid == c && !h.slabbed && !h.linked
       && st' == WithHeader(Attach(st, ch, c, b), ch, h.(linked := true, refcount := h.refcount + 1))
  }

  /** An item that is linked leaves queue and hash table and then has header h'. */
  ghost predicate DetachStep(st: State, ch: Chunk, h': Header, st': State) {
    && IsOut(st, ch) && st.s.hdr[ch].linked
    && LruOk(st.s.mem, st.lru) && HashOk(st.hash) && ch in st.lru.cls && ch in st.hash.home
    && st' == WithHeader(Detach(st, ch), ch, h')
  }

  /** do_item_unlink, and eviction by do_item_alloc, which keeps the chunk for itself. */
  ghost predicate UnlinkStep(st: State, ch: Chunk, reuse: bool, st': State) {
    && IsOut(st, ch) && 0 < st.s.hdr[ch].refcount
    && var h := st.s.hdr[ch];
       if reuse then h.refcount == 1 && DetachStep(st, ch, h.(linked := false, clsid := 0), st')
       else DetachStep(st, ch, h.(linked := false, refcount := h.refcount - 1), st')
  }

  /** do_item_get and do_item_remove. */
  ghost predicate CountStep(st: State, ch: Chunk, get: bool, st': State) {
    && IsOut(st, ch)
    && var h := st.s.hdr[ch];
       if get then h.linked && st' == WithHeader(st, ch, h.(refcount := h.refcount + 1))
       else (if h.linked then 1 else 0) < h.refcount && !h.slabbed && st' == WithHeader(st, ch, h.(refcount := h.refcount - 1))
  }

  ghost predicate BumpStep(st: State, ch: Chunk, st': State) {
    IsOut(st, ch) && st.s.hdr[ch].linked && LruOk(st.s.mem, st.lru) && ch in st.lru.cls && st' == Bumped(st, ch)
  }

  ghost predicate CrawlerStep(st: State, a: Action, c: nat, st': State) {
    && LruOk(st.s.mem, st.lru) && c < |st.lru.queues|
    && var it := CrawlerOf(c);
       match a
       case CrawlerEnters(_) =>
         && it !in st.lru.cls && st.lru.tails[c].Some? && st.lru.tails[c].value in st.s.mem
         && var (mem', lru') := CrawlerOn(st.s.mem, st.lru, c); st' == State(st.s.(mem := mem'), lru', st.hash)
       case CrawlerMoves(_) =>
         && it in st.lru.cls && st.lru.cls[it] == c && st.lru.heads[c] != Some(it)
         && var (mem', lru') := CrawlerAhead(st.s.mem, st.lru, c); st' == State(st.s.(mem := mem'), lru', st.hash)
       case CrawlerLeaves(_) =>
         && it in st.lru.cls
         && var (mem', lru') := UnlinkQ(st.s.mem, st.lru, it); st' == State(st.s.(mem := mem'), lru', st.hash)
       case _ => false
  }

  /** assoc_expand, and the maintenance thread moving the first item of a bucket. */
  ghost predicate TableStep(st: State, a: Action, st': State) {
    && HashOk(st.hash)
    && match a
       case GrowTable(n) => st' == st.(hash := Grow(st.hash, n))
       case MoveItem(ch, b) =>
         && ch in st.hash.home && At(st.hash.buckets, st.hash.home[ch]) == Some(Some(ch)) && b < |st.hash.buckets|
         && st' == st.(hash := Rehash(st.hash, ch, b))
       case _ => false
  }

  ghost predicate AllocStep(st: State, c: nat, st': State) {
    0 < c && Poppable(st.s, c) && st' == st.(s := PopFree(st.s, c))
  }

  ghost predicate FreeStep(st: State, ch: Chunk, st': State) {
    && IsOut(st, ch) && st.s.hdr[ch].refcount == 0
    && var c := st.s.owner[ch.page];
       && c < |st.s.classes| && c < |st.s.lists| && (st.s.classes[c].slots.Some? ==> st.s.classes[c].slots.value in st.s.mem)
       && st' == st.(s := PushFree(st.s, c, ch))
  }

  ghost predicate PageStep(st: State, c: nat, page: nat, st': State) {
    0 < c < |st.s.classes| && page !in st.s.owner && page != CRAWLERS && st' == st.(s := AddPage(st.s, c, page))
  }

  /** slab_rebalance_start's checks. */
  predicate Reassignable(classes: seq<Class>, src: nat, dst: nat) {
    0 < src < |classes| && 0 < dst < |classes| && src != dst && 2 <= |classes[src].pages|
  }

  ghost predicate StartStep(st: State, src: nat, dst: nat, st': State) {
    && st.s.rebal.None? && Reassignable(st.s.classes, src, dst)
    && st' == st.(s := st.s.(rebal := Some(Rebalance(src, dst, st.s.classes[src].pages[0], 0, 0, false))))
  }

  ghost predicate FinishStep(st: State, st': State) {
    && st.s.rebal.Some? && st.s.rebal.value.done
    && var r := st.s.rebal.value;
       && r.src < |st.s.classes| && r.dst < |st.s.classes| && st.s.classes[r.src].pages != []
       && st' == st.(s := AddPage(DropPage(st.s), r.dst, r.page))
  }

  ghost predicate Next(st: State, a: Action, st': State) {
    match a
    case Alloc(c) => AllocStep(st, c, st')
    case NewPage(c, page) => PageStep(st, c, page, st')
    case Free(ch) => FreeStep(st, ch, st')
    case Init(ch) => InitStep(st, ch, st')
    case Link(ch, b) => LinkStep(st, ch, b, st')
    case Unlink(ch) => UnlinkStep(st, ch, false, st')
    case Reuse(ch) => UnlinkStep(st, ch, true, st')
    case Get(ch) => CountStep(st, ch, true, st')
    case Drop(ch) => CountStep(st, ch, false, st')
    case Bump(ch) => BumpStep(st, ch, st')
    case CrawlerEnters(c) => CrawlerStep(st, a, c, st')
    case CrawlerMoves(c) => CrawlerStep(st, a, c, st')
    case CrawlerLeaves(c) => CrawlerStep(st, a, c, st')
    case GrowTable(_) => TableStep(st, a, st')
    case MoveItem(_, _) => TableStep(st, a, st')
    case Start(src, dst) => StartStep(st, src, dst, st')
    case Move(gotLock) => MoveStep(st, gotLock, st')
    case Finish => FinishStep(st, st')
  }

  ghost predicate Initial(st: State) {
    && |st.s.classes| <= MAX_CLASSES
    && (forall c | 0 <= c < |st.s.classes| :: 1 <= st.s.classes[c].perslab && st.s.classes[c] == Class(st.s.classes[c].perslab, None, 0, []))
    && st.s.rebal == None && st.s.lists == seq(|st.s.classes|, _ => []) && st.s.owner == map[] && st.s.out == {}
    && st.lru == Lru(seq(|st.s.classes|, _ => None), seq(|st.s.classes|, _ => None), seq(|st.s.classes|, _ => []), map[])
    && st.hash == Hash(seq(|st.hash.buckets|, _ => None), map[], seq(|st.hash.buckets|, _ => []), map[])
  }

  ghost predicate IsRun(run: seq<State>, actions: seq<Action>) {
    && |run| == |actions| + 1 && Initial(run[0])
    && forall i {:trigger StepAt(run, actions, i)} :: StepAt(run, actions, i)
  }

  ghost predicate StepAt(run: seq<State>, actions: seq<Action>, i: int) {
    0 <= i < |actions| && i + 1 < |run| ==> Next(run[i], actions[i], run[i + 1])
  }

  // ----- what every step keeps

  lemma KeepsInit(st: State, ch: Chunk, st': State)
    requires Sound(st) && InitStep(st, ch, st')
    ensures Sound(st') && st'.s.classes == st.s.classes
  {
    OutChunk(st.s, ch);
    assert OwnerAt(st.s.classes, st.s.owner, ch.page);
    InitialisedKeeps(st, ch);
    HeaderKeeps(Initialised(st, ch), ch, st'.s.hdr[ch]);
  }

  lemma KeepsLink(st: State, ch: Chunk, b: nat, st': State)
    requires Sound(st) && LinkStep(st, ch, b, st')
    ensures Sound(st') && st'.s.classes == st.s.classes
  {
    OutChunk(st.s, ch);
    LinkKeeps(st, ch, b, st'.s.hdr[ch]);
  }

  lemma KeepsUnlink(st: State, ch: Chunk, reuse: bool, st': State)
    requires Sound(st) && UnlinkStep(st, ch, reuse, st')
    ensures Sound(st') && st'.s.classes == st.s.classes
  {
    OutChunk(st.s, ch);
    UnlinkKeeps(st, ch, st'.s.hdr[ch]);
  }

  lemma KeepsCount(st: State, ch: Chunk, get: bool, st': State)
    requires Sound(st) && CountStep(st, ch, get, st')
    ensures Sound(st') && st'.s.classes == st.s.classes
  {
    OutChunk(st.s, ch);
    HeaderKeeps(st, ch, st'.s.hdr[ch]);
  }

  lemma KeepsBump(st: State, ch: Chunk, st': State)
    requires Sound(st) && BumpStep(st, ch, st')
    ensures Sound(st') && st'.s.classes == st.s.classes
  {
    BumpedKeeps(st, ch);
  }

  lemma KeepsCrawler(st: State, a: Action, c: nat, st': State)
    requires Sound(st) && CrawlerStep(st, a, c, st')
    ensures Sound(st') && st'.s.classes == st.s.classes
  {
    hide Inv, HashOk;
    CrawlersKnown(st);
    match a {
      case CrawlerEnters(_) => CrawlerOnKeeps(st.s.mem, st.lru, c);
      case CrawlerMoves(_) => CrawlerAheadKeeps(st.s.mem, st.lru, c);
      case CrawlerLeaves(_) => UnlinkQKeeps(st.s.mem, st.lru, CrawlerOf(c));
    }
    hide LruOk;
    QueuesKeep(st, st'.s.mem, st'.lru);
  }

  lemma KeepsTable(st: State, a: Action, st': State)
    requires Sound(st) && TableStep(st, a, st')
    ensures Sound(st') && st'.s.classes == st.s.classes
  {
    hide Inv, LruOk;
    match a {
      case GrowTable(n) => GrowKeeps(st.hash, n);
      case MoveItem(ch, b) => RehashKeeps(st.hash, ch, b);
    }
    hide HashOk;
    forall x
      ensures TiedAt(st.s, st.lru.cls, st'.hash.home, x)
    {
      assert TiedAt(st.s, st.lru.cls, st.hash.home, x);
    }
  }

  lemma KeepsAlloc(st: State, c: nat, st': State)
    requires Sound(st) && AllocStep(st, c, st')
    ensures Sound(st') && TotalPages(st'.s.classes) == TotalPages(st.s.classes)
  {
    PopKeeps(st, c);
    SameTotal(st.s.classes, st'.s.classes);
  }

  lemma KeepsFree(st: State, ch: Chunk, st': State)
    requires Sound(st) && FreeStep(st, ch, st')
    ensures Sound(st') && TotalPages(st'.s.classes) == TotalPages(st.s.classes)
  {
    FreeUnnoticed(st, st.s.owner[ch.page], ch);
    SameTotal(st.s.classes, st'.s.classes);
  }

  lemma KeepsNewPage(st: State, c: nat, page: nat, st': State)
    requires Sound(st) && PageStep(st, c, page, st')
    ensures Sound(st') && TotalPages(st'.s.classes) == TotalPages(st.s.classes) + 1
  {
    PageUnnoticed(st, c, page);
    TotalUpdate(st.s.classes, c, st'.s.classes[c]);
  }

  lemma KeepsStart(st: State, src: nat, dst: nat, st': State)
    requires Sound(st) && StartStep(st, src, dst, st')
    ensures Sound(st')
  {
    forall ch
      ensures ChunkAt(st.s.classes, st.s.hdr, st.s.lists, st.s.owner, st.s.out, Killing(st'.s.rebal), ch)
    {
      assert ChunkAt(st.s.classes, st.s.hdr, st.s.lists, st.s.owner, st.s.out, None, ch);
    }
    assert Inv(st'.s);
    hide Inv;
    Unnoticed(st, st'.s);
  }

  lemma KeepsFinish(st: State, st': State)
    requires Sound(st) && FinishStep(st, st')
    ensures Sound(st') && TotalPages(st'.s.classes) == TotalPages(st.s.classes)
  {
    DropUnnoticed(st);
    PageUnnoticed(st.(s := DropPage(st.s)), st.s.rebal.value.dst, st.s.rebal.value.page);
    FinishTotal(st.s);
  }

  lemma StepInv(st: State, a: Action, st': State)
    requires Sound(st) && Next(st, a, st')
    ensures Sound(st') && TotalPages(st'.s.classes) == TotalPages(st.s.classes) + if a.NewPage? then 1 else 0
  {
    hide Sound, AllocStep, PageStep, FreeStep, InitStep, LinkStep, UnlinkStep, CountStep, BumpStep, CrawlerStep, TableStep, MoveStep, FinishStep;
    match a
    case Alloc(c) => KeepsAlloc(st, c, st');
    case NewPage(c, page) => KeepsNewPage(st, c, page, st');
    case Free(ch) => KeepsFree(st, ch, st');
    case Init(ch) => KeepsInit(st, ch, st');
    case Link(ch, b) => KeepsLink(st, ch, b, st');
    case Unlink(ch) => KeepsUnlink(st, ch, false, st');
    case Reuse(ch) => KeepsUnlink(st, ch, true, st');
    case Get(ch) => KeepsCount(st, ch, true, st');
    case Drop(ch) => KeepsCount(st, ch, false, st');
    case Bump(ch) => KeepsBump(st, ch, st');
    case CrawlerEnters(c) => KeepsCrawler(st, a, c, st');
    case CrawlerMoves(c) => KeepsCrawler(st, a, c, st');
    case CrawlerLeaves(c) => KeepsCrawler(st, a, c, st');
    case GrowTable(_) => KeepsTable(st, a, st');
    case MoveItem(_, _) => KeepsTable(st, a, st');
    case Start(src, dst) => KeepsStart(st, src, dst, st');
    case Move(gotLock) => MoveKeeps(st, gotLock, st');
    case Finish => KeepsFinish(st, st');
  }

  lemma InitialInv(st: State)
    requires Initial(st)
    ensures Sound(st) && TotalPages(st.s.classes) == 0
  {
    assert forall c :: ListAt(st.s.classes, st.s.hdr, st.s.mem, st.s.lists, st.s.owner, c);
    assert forall c :: PagesAt(st.s.classes, st.s.owner, c);
    assert forall c :: QueueAt(st.s.mem, st.lru, c);
    assert forall b :: ChainAt(st.hash, b);
    NoPages(st.s.classes);
  }

  lemma {:induction false} NoPages(classes: seq<Class>)
    requires forall c | 0 <= c < |classes| :: classes[c].pages == []
    ensures TotalPages(classes) == 0
  {
    if classes != [] {
      NoPages(classes[1..]);
    }
  }

  function NewPages(actions: seq<Action>): nat {
    if actions == [] then 0 else NewPages(actions[..|actions| - 1]) + if actions[|actions| - 1].NewPage? then 1 else 0
  }

  /** The allocator's pages are those it was ever given: rebalancing loses and invents none. */
  lemma {:induction false} RunInv(run: seq<State>, actions: seq<Action>, n: nat)
    requires IsRun(run, actions) && n < |run|
    ensures Sound(run[n]) && TotalPages(run[n].s.classes) == NewPages(actions[..n])
  {
    hide Sound, Next, Initial;
    if n == 0 {
      InitialInv(run[0]);
    } else {
      RunInv(run, actions, n - 1);
      assert StepAt(run, actions, n - 1);
      StepInv(run[n - 1], actions[n - 1], run[n]);
      assert actions[..n][..n - 1] == actions[..n - 1];
    }
  }

  /** In every reachable state a chunk of a class is on the class's free list, handed out or
      cleared, and only one of these; it is on no other list; sl_curr counts the list. */
  lemma ChunksConserved(run: seq<State>, actions: seq<Action>, n: nat, c: nat, ch: Chunk)
    requires IsRun(run, actions) && n < |run| && Member(run[n].s.classes, run[n].s.owner, c, ch)
    ensures var s := run[n].s;
            && c < |s.lists| && ch in s.hdr && s.classes[c].slCurr == |s.lists[c]| && NoRepeats(s.lists[c])
            && (var free, handed, cleared := ch in s.lists[c], ch in s.out, s.hdr[ch].clsid == CLEARED;
                (free || handed || cleared) && !(free && handed) && !(free && cleared) && !(handed && cleared))
            && forall c': nat | c' < |s.lists| && c' != c :: ch !in s.lists[c']
  {
    RunInv(run, actions, n);
    var s := run[n].s;
    assert ListAt(s.classes, s.hdr, s.mem, s.lists, s.owner, c);
    assert ChunkAt(s.classes, s.hdr, s.lists, s.owner, s.out, Killing(s.rebal), ch);
    if ch in s.out {
      NotClearedOut(s, ch);
      ClassBelowCleared(s, c);
    }
    assert ch in s.lists[c] ==> FreeHeader(s.hdr, ch);
    forall c': nat | c' < |s.lists| && c' != c
      ensures ch !in s.lists[c']
    {
      if ch in s.lists[c'] {
        FreeChunkKnown(s, c', ch);
      }
    }
  }

  // ----- an emptied page

  /** The pointer does not lead into the page. */
  ghost predicate Avoids(p: Option<Chunk>, page: nat) {
    p.Some? ==> p.value.page != page
  }

  /** The chunk is on a free list or in a queue, so that its next and prev are in use. */
  ghost predicate Listed(st: State, ch: Chunk) {
    ch in st.lru.cls || exists c :: 0 <= c < |st.s.lists| && ch in st.s.lists[c]
  }

  /** No free list, LRU queue or hash chain has a pointer into the page. */
  ghost predicate NoPointerInto(st: State, page: nat) {
    && (forall c: nat | c < |st.s.classes| :: Avoids(st.s.classes[c].slots, page))
    && (forall c: nat | c < |st.lru.heads| :: Avoids(st.lru.heads[c], page))
    && (forall c: nat | c < |st.lru.tails| :: Avoids(st.lru.tails[c], page))
    && (forall ch | ch in st.s.mem && Listed(st, ch) :: Avoids(st.s.mem[ch].next, page) && Avoids(st.s.mem[ch].prev, page))
    && (forall b: nat | b < |st.hash.buckets| :: Avoids(st.hash.buckets[b], page))
    && (forall ch | ch in st.hash.hnext :: Avoids(st.hash.hnext[ch], page))
  }

  /** Whatever a list points at is on it. */
  lemma ListTargets(mem: Pointers, head: Option<Chunk>, tail: Option<Chunk>, ids: seq<Chunk>)
    requires IsList(mem, head, tail, ids)
    ensures head.Some? ==> head.value in ids
    ensures tail.Some? ==> tail.value in ids
    ensures forall ch | ch in ids :: ch in mem && (mem[ch].next.Some? ==> mem[ch].next.value in ids) && (mem[ch].prev.Some? ==> mem[ch].prev.value in ids)
  {
    forall ch | ch in ids
      ensures ch in mem && (mem[ch].next.Some? ==> mem[ch].next.value in ids) && (mem[ch].prev.Some? ==> mem[ch].prev.value in ids)
    {
      Neighbours(mem, head, tail, ids, IndexOf(ids, ch));
    }
  }

  ghost predicate FreeOfPage(ids: seq<Chunk>, page: nat) {
    forall ch | ch in ids :: ch.page != page
  }

  ghost predicate ListAvoids(mem: Pointers, head: Option<Chunk>, tail: Option<Chunk>, ids: seq<Chunk>, page: nat) {
    && Avoids(head, page) && Avoids(tail, page)
    && forall ch | ch in ids && ch in mem :: Avoids(mem[ch].next, page) && Avoids(mem[ch].prev, page)
  }

  lemma ListStaysOut(mem: Pointers, head: Option<Chunk>, tail: Option<Chunk>, ids: seq<Chunk>, page: nat)
    requires IsList(mem, head, tail, ids) && FreeOfPage(ids, page)
    ensures ListAvoids(mem, head, tail, ids, page)
  {
    ListTargets(mem, head, tail, ids);
  }

  lemma ChainStaysOut(hnext: map<Chunk, Option<Chunk>>, head: Option<Chunk>, ids: seq<Chunk>, page: nat)
    requires IsChain(hnext, head, ids) && FreeOfPage(ids, page)
    ensures Avoids(head, page) && forall ch | ch in ids && ch in hnext :: Avoids(hnext[ch], page)
  {
    forall ch | ch in ids && ch in hnext
      ensures Avoids(hnext[ch], page)
    {
      var k := IndexOf(ids, ch);
      assert LinkAt(hnext, ids, k);
    }
  }

  /** Nothing linked is on an emptied page, and no crawler is. */
  lemma EmptiedIsDetached(st: State, ch: Chunk)
    requires Sound(st) && st.s.rebal.Some? && st.s.rebal.value.done && ch.page == st.s.rebal.value.page
    ensures ch !in st.lru.cls && ch !in st.hash.home
  {
    EmptiedPage(st.s, ch);
    KillingOwned(st.s);
    assert OwnerAt(st.s.classes, st.s.owner, ch.page);
    assert TiedAt(st.s, st.lru.cls, st.hash.home, ch);
  }

  lemma FreeListsStayOut(st: State, c: nat)
    requires Sound(st) && st.s.rebal.Some? && st.s.rebal.value.done && c < |st.s.classes|
    ensures c < |st.s.lists| && ListAvoids(st.s.mem, st.s.classes[c].slots, At(st.s.lists[c], |st.s.lists[c]| - 1), st.s.lists[c], st.s.rebal.value.page)
  {
    assert ListAt(st.s.classes, st.s.hdr, st.s.mem, st.s.lists, st.s.owner, c);
    forall ch | ch in st.s.lists[c]
      ensures ch.page != st.s.rebal.value.page
    {
      if ch.page == st.s.rebal.value.page {
        EmptiedPage(st.s, ch);
      }
    }
    ListStaysOut(st.s.mem, st.s.classes[c].slots, At(st.s.lists[c], |st.s.lists[c]| - 1), st.s.lists[c], st.s.rebal.value.page);
  }

  lemma QueuesStayOut(st: State, c: nat)
    requires Sound(st) && st.s.rebal.Some? && st.s.rebal.value.done && c < |st.lru.queues|
    ensures |st.lru.heads| == |st.lru.tails| == |st.lru.queues|
    ensures ListAvoids(st.s.mem, st.lru.heads[c], st.lru.tails[c], st.lru.queues[c], st.s.rebal.value.page)
  {
    ThisQueue(st.s.mem, st.lru, c);
    forall ch | ch in st.lru.queues[c]
      ensures ch.page != st.s.rebal.value.page
    {
      if ch.page == st.s.rebal.value.page {
        EmptiedIsDetached(st, ch);
      }
    }
    ListStaysOut(st.s.mem, st.lru.heads[c], st.lru.tails[c], st.lru.queues[c], st.s.rebal.value.page);
  }

  lemma ChainsStayOut(st: State, b: nat)
    requires Sound(st) && st.s.rebal.Some? && st.s.rebal.value.done && b < |st.hash.chains|
    ensures |st.hash.buckets| == |st.hash.chains| && Avoids(st.hash.buckets[b], st.s.rebal.value.page)
    ensures forall ch | ch in st.hash.chains[b] && ch in st.hash.hnext :: Avoids(st.hash.hnext[ch], st.s.rebal.value.page)
  {
    ThisChain(st.hash, b);
    forall ch | ch in st.hash.chains[b]
      ensures ch.page != st.s.rebal.value.page
    {
      if ch.page == st.s.rebal.value.page {
        EmptiedIsDetached(st, ch);
      }
    }
    ChainStaysOut(st.hash.hnext, st.hash.buckets[b], st.hash.chains[b], st.s.rebal.value.page);
  }

  lemma EmptiedUnreachable(st: State)
    requires Sound(st) && st.s.rebal.Some? && st.s.rebal.value.done
    ensures NoPointerInto(st, st.s.rebal.value.page)
  {
    var page := st.s.rebal.value.page;
    assert |st.lru.heads| == |st.lru.tails| == |st.lru.queues| && |st.hash.buckets| == |st.hash.chains| && |st.s.lists| == |st.s.classes|;
    hide Inv, IsList, IsChain;
    forall c: nat | c < |st.s.classes|
      ensures Avoids(st.s.classes[c].slots, page)
    {
      FreeListsStayOut(st, c);
    }
    forall c: nat | c < |st.lru.queues|
      ensures Avoids(st.lru.heads[c], page) && Avoids(st.lru.tails[c], page)
    {
      QueuesStayOut(st, c);
    }
    forall ch | ch in st.s.mem && Listed(st, ch)
      ensures Avoids(st.s.mem[ch].next, page) && Avoids(st.s.mem[ch].prev, page)
    {
      if ch in st.lru.cls {
        ItsQueue(st.s.mem, st.lru, ch);
        QueuesStayOut(st, st.lru.cls[ch]);
      } else {
        var c :| 0 <= c < |st.s.lists| && ch in st.s.lists[c];
        FreeListsStayOut(st, c);
      }
    }
    forall b: nat | b < |st.hash.buckets|
      ensures Avoids(st.hash.buckets[b], page)
    {
      ChainsStayOut(st, b);
    }
    forall ch | ch in st.hash.hnext
      ensures Avoids(st.hash.hnext[ch], page)
    {
      assert HomedAt(st.hash, ch);
      if ch in st.hash.home {
        ChainsStayOut(st, st.hash.home[ch]);
      }
    }
  }

  /** When the rebalancer is done with a page, every chunk of it is cleared and not handed out,
      and no free list, LRU queue or hash chain has a pointer into the page. */
  lemma DoneMeansEmpty(run: seq<State>, actions: seq<Action>, n: nat)
    requires IsRun(run, actions) && n < |run| && run[n].s.rebal.Some? && run[n].s.rebal.value.done
    ensures var st, page := run[n], run[n].s.rebal.value.page;
            && NoPointerInto(st, page)
            && (forall ch: Chunk | ch.page == page :: ch !in st.s.out && !Listed(st, ch) && ch !in st.hash.home)
            && st.s.rebal.value.src < |st.s.classes|
            && forall i: nat | i < st.s.classes[st.s.rebal.value.src].perslab :: ClearedAt(st.s.hdr, Chunk(page, i))
  {
    RunInv(run, actions, n);
    var st, page := run[n], run[n].s.rebal.value.page;
    EmptiedUnreachable(st);
    assert st.s.rebal.value.src < |st.s.classes|;
    hide Inv, LruOk, HashOk;
    forall ch: Chunk | ch.page == page
      ensures ch !in st.s.out && !Listed(st, ch) && ch !in st.hash.home
      ensures ch.i < st.s.classes[st.s.rebal.value.src].perslab ==> ClearedAt(st.s.hdr, ch)
    {
      EmptiedPage(st.s, ch);
      EmptiedIsDetached(st, ch);
    }
  }

  // ----- pointers that nobody follows

  /** An item that leaves its queue keeps its own next and prev. If somebody still holds it they
      can lead into a page that is emptied later; it is on no list by then. */
  lemma UnlinkedKeepsPointers(st: State, ch: Chunk, reuse: bool, st': State)
    requires Sound(st) && UnlinkStep(st, ch, reuse, st')
    ensures ch in st.s.mem && ch in st'.s.mem && st'.s.mem[ch] == st.s.mem[ch]
    ensures ch in st'.s.out && !Listed(st', ch)
  {
    ItsQueue(st.s.mem, st.lru, ch);
    var c := st.lru.cls[ch];
    Neighbours(st.s.mem, st.lru.heads[c], st.lru.tails[c], st.lru.queues[c], IndexOf(st.lru.queues[c], ch));
    OutChunk(st.s, ch);
  }

  /** The rebalancer leaves such pointers alone. */
  lemma MoveLeavesUnlisted(st: State, gotLock: bool, st': State, ch: Chunk)
    requires Sound(st) && MoveStep(st, gotLock, st') && ch in st.s.mem && !Listed(st, ch)
    ensures ch in st'.s.mem && st'.s.mem[ch] == st.s.mem[ch]
  {
    hide IsFreeList, LruOk, HashOk, ListsOk, ChunksOk, PagesOk;
    AtPosition(st.s);
    var r := st.s.rebal.value;
    var x := Chunk(r.page, r.pos);
    var h := st.s.hdr[x];
    if h.clsid != CLEARED && Movable(h, gotLock) {
      if h.refcount == 0 {
        MarkedFree(st.s, x, r.src);
        TakeKnown(st.s, r.src, IndexOf(st.s.lists[r.src], x), Clear(h), st.s.out);
      } else {
        UnlinkQKeeps(st.s.mem, st.lru, x);
      }
    }
  }

  // ----- the locked sections as methods

  class Allocator {
    var st: State

    ghost predicate Valid()
      reads this
    {
      Sound(st)
    }

    /** split_slab_page_into_freelist */
    method SplitPage(page: nat, c: nat)
      requires Valid() && c < |st.s.classes| && page in st.s.owner && st.s.owner[page] == c
      requires forall ch | ch in PageChunks(page, st.s.classes[c].perslab) :: ch in st.s.out && ch in st.s.hdr && st.s.hdr[ch].refcount == 0
      modifies this
      ensures Valid() && st.s.owner == old(st.s.owner) && st.s.rebal == old(st.s.rebal) && st.lru == old(st.lru) && st.hash == old(st.hash)
      ensures st.s.out == old(st.s.out) - PageChunks(page, old(st.s.classes[c].perslab)) && SamePagesAs(old(st.s.classes), st.s.classes)
      ensures |st.s.lists| == old(|st.s.lists|) == |st.s.classes|
      ensures |st.s.lists[c]| == |old(st.s.lists[c])| + old(st.s.classes[c].perslab)
      ensures forall c': nat | c' < |st.s.lists| && c' != c :: st.s.lists[c'] == old(st.s.lists[c'])
    {
      hide Sound, Inv;
      ghost var st0, n := st, st.s.classes[c].perslab;
      Lengths(st);
      for x := 0 to st.s.classes[c].perslab
        invariant Sound(st) && st.s.owner == st0.s.owner && st.s.rebal == st0.s.rebal && st.lru == st0.lru && st.hash == st0.hash
        invariant |st.s.classes| == |st0.s.classes| == |st.s.lists| == |st0.s.lists|
        invariant st.s.out == st0.s.out - PageChunks(page, x) && SamePagesAs(st0.s.classes, st.s.classes)
        invariant |st.s.lists[c]| == |st0.s.lists[c]| + x
        invariant forall c': nat | c' < |st.s.lists| && c' != c :: st.s.lists[c'] == st0.s.lists[c']
        invariant forall i: nat | x <= i < n :: Chunk(page, i) in st.s.hdr && st.s.hdr[Chunk(page, i)].refcount == 0
      {
        var ch := Chunk(page, x);
        assert ch in st.s.out;
        Lengths(st);
        FreeUnnoticed(st, c, ch);
        st := st.(s := PushFree(st.s, c, ch));
      }
    }

    lemma Lengths(st: State)
      requires Sound(st)
      ensures |st.s.lists| == |st.s.classes| && Inv(st.s)
    {
    }

    /** do_slabs_newslab; `memory` is the page that could be had, if any. */
    method NewSlab(c: nat, memory: Option<nat>) returns (ok: bool)
      requires Valid() && 0 < c < |st.s.classes| && (memory.Some? ==> memory.value !in st.s.owner && memory.value != CRAWLERS)
      modifies this
      ensures Valid() && ok == memory.Some? && (!ok ==> st == old(st)) && |st.s.classes| == old(|st.s.classes|)
      ensures |st.s.lists| == old(|st.s.lists|) == |st.s.classes| && st.s.out == old(st.s.out) && st.s.rebal == old(st.s.rebal)
      ensures ok ==> && |st.s.lists[c]| == |old(st.s.lists[c])| + old(st.s.classes[c].perslab)
                     && st.s.classes[c].pages == old(st.s.classes[c].pages) + [memory.value]
    {
      Lengths(st);
      if memory.None? {
        return false;
      }
      var page := memory.value;
      PageUnnoticed(st, c, page);
      FreshPage(st.s, page, st.s.classes[c].perslab);
      st := st.(s := AddPage(st.s, c, page));
      SplitPage(page, c);
      assert st.s.out == old(st.s.out);
      return true;
    }

    lemma FreshPage(s: Slabs, page: nat, n: nat)
      requires Inv(s) && page !in s.owner
      ensures s.out !! PageChunks(page, n)
    {
      forall ch | ch in PageChunks(page, n)
        ensures ch !in s.out
      {
        assert ChunkAt(s.classes, s.hdr, s.lists, s.owner, s.out, Killing(s.rebal), ch);
      }
    }

    /** do_slabs_alloc: fails for an unknown class, or when the list is empty and no page is to
        be had. */
    method AllocChunk(c: nat, memory: Option<nat>) returns (r: Option<Chunk>)
      requires Valid() && (memory.Some? ==> memory.value !in st.s.owner && memory.value != CRAWLERS)
      modifies this
      ensures Valid()
      ensures r.None? <==> !(0 < c < old(|st.s.classes|)) || (old(st.s.lists[c]) == [] && memory.None?)
      ensures r.None? ==> st == old(st)
      ensures r.Some? ==> && r.value !in old(st.s.out) && st.s.out == old(st.s.out) + {r.value}
                          && r.value in st.s.hdr && st.s.hdr[r.value].refcount == 1
    {
      Lengths(st);
      if c == 0 || c >= |st.s.classes| {
        return None;
      }
      ListCounted(st.s, c);
      if st.s.classes[c].slCurr == 0 {
        assert 1 <= st.s.classes[c].perslab;
        var ok := NewSlab(c, memory);
        if !ok {
          return None;
        }
      }
      PopKeeps(st, c);
      var ch := st.s.classes[c].slots.value;
      st := st.(s := PopFree(st.s, c));
      return Some(ch);
    }

    lemma ListCounted(s: Slabs, c: nat)
      requires Inv(s) && c < |s.classes|
      ensures s.classes[c].slCurr == |s.lists[c]|
    {
      assert ListAt(s.classes, s.hdr, s.mem, s.lists, s.owner, c);
    }

    /** slab_rebalance_start; `canGrow` if the target's slab_list has room. */
    method RebalanceStart(src: nat, dst: nat, canGrow: bool) returns (code: int)
      requires Valid() && st.s.rebal.None?
      modifies this
      ensures Valid()
      ensures code == 0 <==> Reassignable(old(st.s.classes), src, dst) && canGrow
      ensures code == 0 ==> st == old(st).(s := old(st.s).(rebal := Some(Rebalance(src, dst, old(st.s.classes)[src].pages[0], 0, 0, false))))
      ensures code != 0 ==> st == old(st)
      ensures code == if src < old(|st.s.classes|) && |old(st.s.classes)[src].pages| < 2 then -3
                      else if !canGrow then -1
                      else if Reassignable(old(st.s.classes), src, dst) then 0 else -2
    {
      code := 0;
      if src < 1 || src >= |st.s.classes| || dst < 1 || dst >= |st.s.classes| || src == dst {
        code := -2;
      }
      if !canGrow {
        code := -1;
      }
      if src < |st.s.classes| && |st.s.classes[src].pages| < 2 {
        code := -3;
      }
      if code != 0 {
        return;
      }
      ghost var before := st;
      st := st.(s := st.s.(rebal := Some(Rebalance(src, dst, st.s.classes[src].pages[0], 0, 0, false))));
      KeepsStart(before, src, dst, st);
    }

    /** One chunk of slab_rebalance_move. */
    method MoveOneChunk(gotLock: bool) returns (busy: nat)
      requires Valid() && st.s.rebal.Some? && !st.s.rebal.value.done
      modifies this
      ensures Valid() && MoveStep(old(st), gotLock, st) && Progress(old(st), st, busy, 1) && Spared(old(st), st)
    {
      AtPosition(st.s);
      ghost var st0 := st;
      var r := st.s.rebal.value;
      var ch, c := Chunk(r.page, r.pos), r.src;
      var h := st.s.hdr[ch];
      busy := 0;
      if h.clsid != CLEARED {
        if !gotLock {
          busy := 1;
        } else if h.refcount == 0 {
          if h.slabbed {
            MarkedFree(st.s, ch, c);
            st := st.(s := ClearFree(st.s, c, ch));
          } else {
            busy := 1;
          }
        } else if h.refcount == 1 && h.linked {
          ReferencedIsOut(st.s, ch, c);
          DetachKeeps(st, ch);
          var st1 := Detach(st, ch);
          st := st1.(s := ClearOut(st1.s, ch, Clear(h)));
        } else {
          busy := 1;
        }
      }
      hide Inv, LruOk, HashOk;
      assert MoveChunk(st0, ch, c, gotLock, st, busy);
      MovedChunk(st0, gotLock, st, busy);
      st := Advanced(st, r, busy, st.s.classes[c].perslab);
      assert MoveStep(st0, gotLock, st);
      MoveKeeps(st0, gotLock, st);
      OneStep(st0, gotLock, st, busy);
      MoveSparesUsers(st0, gotLock, st);
    }

    /** slab_rebalance_move: up to |locks| chunks under one hold of the locks. */
    method RebalanceMove(locks: seq<bool>) returns (wasBusy: nat)
      requires Valid() && st.s.rebal.Some? && !st.s.rebal.value.done
      modifies this
      ensures Valid() && Progress(old(st), st, wasBusy, |locks|) && Spared(old(st), st)
      ensures TotalPages(st.s.classes) == old(TotalPages(st.s.classes)) && st.s.out <= old(st.s.out) && st.s.owner == old(st.s.owner)
    {
      hide Sound, MoveStep;
      wasBusy := 0;
      ghost var st0 := st;
      var x := 0;
      while x < |locks|
        invariant x <= |locks| && Valid() && Progress(st0, st, wasBusy, x) && st.s.rebal.Some? && !st.s.rebal.value.done
        invariant Ongoing(st0, st, wasBusy, x) && Spared(st0, st)
        invariant TotalPages(st.s.classes) == TotalPages(st0.s.classes) && st.s.out <= st0.s.out && st.s.owner == st0.s.owner
      {
        ghost var before := st;
        var busy := MoveOneChunk(locks[x]);
        MoveKeeps(before, locks[x], st);
        MoreProgress(st0, before, st, wasBusy, busy, x, |locks|);
        SparedTwice(st0, before, st);
        wasBusy := wasBusy + busy;
        x := x + 1;
        if st.s.rebal.value.done || st.s.rebal.value.pos == 0 {
          break;
        }
      }
    }

    /** slab_rebalance_finish: the cleared page is zeroed and cut up for the other class. */
    method RebalanceFinish()
      requires Valid() && st.s.rebal.Some? && st.s.rebal.value.done
      modifies this
      ensures Valid() && st.s.rebal == None && TotalPages(st.s.classes) == old(TotalPages(st.s.classes)) && st.s.out == old(st.s.out)
      ensures var r := old(st.s.rebal.value);
              && |st.s.classes| == old(|st.s.classes|) && r.src < |st.s.classes| && r.dst < |st.s.classes| && r.dst < |st.s.lists| && r.dst < old(|st.s.lists|)
              && (forall p :: p in st.s.classes[r.src].pages <==> p in old(st.s.classes[r.src].pages) && p != r.page)
              && st.s.classes[r.dst].pages == old(st.s.classes[r.dst].pages) + [r.page]
              && |st.s.lists[r.dst]| == |old(st.s.lists[r.dst])| + st.s.classes[r.dst].perslab
    {
      ghost var st0 := st;
      var r := st.s.rebal.value;
      Lengths(st);
      FinishTotal(st.s);
      DropUnnoticed(st);
      assert PagesAt(st.s.classes, st.s.owner, r.src);
      DropFirst(st.s.classes[r.src].pages);
      st := st.(s := DropPage(st.s));
      PageUnnoticed(st, r.dst, r.page);
      FreshPage(st.s, r.page, st.s.classes[r.dst].perslab);
      st := st.(s := AddPage(st.s, r.dst, r.page));
      ghost var st1 := st;
      hide Sound, Inv;
      SplitPage(r.page, r.dst);
      SameTotal(st1.s.classes, st.s.classes);
      assert st.s.out == st0.s.out;
    }
  }

  lemma SparedTwice(st: State, st1: State, st2: State)
    requires Spared(st, st1) && Spared(st1, st2)
    ensures Spared(st, st2)
  {
    forall ch | InUse(st, ch)
      ensures ch in st2.s.out && ch in st2.s.hdr && st2.s.hdr[ch] == st.s.hdr[ch]
    {
      assert InUse(st1, ch);
    }
  }

  // ----- progress of the rebalancer

  /** Up to n chunks were looked at and `busy` of them found busy: the rebalancer is that much
      further, or has started over because something was busy, or is done because nothing was. */
  ghost predicate Progress(st: State, st': State, busy: nat, n: nat) {
    && st.s.rebal.Some? && st'.s.rebal.Some? && SamePagesAs(st.s.classes, st'.s.classes)
    && var r, r' := st.s.rebal.value, st'.s.rebal.value;
       && r'.page == r.page && r'.src == r.src && r'.dst == r.dst
       && (|| Ongoing(st, st', busy, n)
           || (!r'.done && r'.pos == 0 && r'.busy == 0 && 0 < r.busy + busy)
           || (r'.done && r.busy + busy == 0))
  }

  ghost predicate Ongoing(st: State, st': State, busy: nat, n: nat) {
    && st.s.rebal.Some? && st'.s.rebal.Some?
    && var r, r' := st.s.rebal.value, st'.s.rebal.value;
       !r'.done && r'.pos == r.pos + n && r'.busy == r.busy + busy
  }

  lemma OneStep(st: State, gotLock: bool, st': State, busy: nat)
    requires Sound(st) && Sound(st') && MoveStep(st, gotLock, st') && SamePagesAs(st.s.classes, st'.s.classes)
    requires var r := st.s.rebal.value; st'.s.rebal == Some(Advance(r.(busy := r.busy + busy), st.s.classes[r.src].perslab))
    ensures Progress(st, st', busy, 1)
  {
  }

  lemma MoreProgress(st: State, st1: State, st2: State, busy1: nat, busy2: nat, x: nat, n: nat)
    requires Progress(st, st1, busy1, x) && Ongoing(st, st1, busy1, x) && Progress(st1, st2, busy2, 1) && x < n
    ensures Progress(st, st2, busy1 + busy2, x + 1)
    ensures !Ongoing(st, st2, busy1 + busy2, x + 1) ==> Progress(st, st2, busy1 + busy2, n)
    ensures st2.s.rebal.Some? && (!st2.s.rebal.value.done && st2.s.rebal.value.pos != 0 ==> Ongoing(st, st2, busy1 + busy2, x + 1))
  {
  }

  /** A pass over the whole page that finds nothing busy is the last one. */
  lemma QuietPassEnds(st: State, st': State, n: nat)
    requires Sound(st') && Progress(st, st', 0, n) && st.s.rebal.value.busy == 0
    requires st.s.rebal.value.src < |st.s.classes| && st.s.classes[st.s.rebal.value.src].perslab <= st.s.rebal.value.pos + n
    ensures st'.s.rebal.value.done
  {
  }
}
