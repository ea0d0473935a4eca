/** A run of the allocator at whose end a pointer that nobody follows leads into an emptied page. */
module StalePointers {
  import opened DoublyLinked
  import opened Lists
  import opened Slabs
  import opened SlabItems
  import opened SlabsRun
  import opened Store

  /** The only chunks of pages 1 and 2. */
  const A := Chunk(1, 0)
  const B := Chunk(2, 0)

  const PLAIN := Header(1, false, false, 1)
  const LINKED := Header(2, false, true, 1)

  // ----- two pages of one chunk each for class 1

  function Classes(slots: Option<Chunk>, slCurr: nat, pages: seq<nat>): seq<Class> {
    [Class(1, None, 0, []), Class(1, slots, slCurr, pages), Class(1, None, 0, [])]
  }

  function Start0(): State {
    State(Slabs(Classes(None, 0, []), map[], map[], None, [[], [], []], map[], {}),
          Lru([None, None, None], [None, None, None], [[], [], []], map[]), Hash([None], map[], [[]], map[]))
  }

  lemma StartIsInitial()
    ensures Initial(Start0()) && Sound(Start0())
  {
    var st := Start0();
    assert st.s.lists == seq(3, _ => []);
    assert st.lru.heads == seq(3, _ => None) && st.lru.queues == seq(3, _ => []);
    assert st.hash.buckets == seq(1, _ => None) && st.hash.chains == seq(1, _ => []);
    InitialInv(st);
  }

  /** What stays the same once both pages are there. */
  ghost predicate BothPages(st: State) {
    && Sound(st) && |st.s.classes| == |st.s.lists| == |st.lru.queues| == |st.lru.heads| == |st.lru.tails| == 3 && st.s.classes[1].perslab == 1
    && st.s.classes[1].pages == [1, 2] && st.s.owner == map[1 := 1, 2 := 1] && st.s.rebal.None?
    && |st.hash.buckets| == |st.hash.chains| == 1
  }

  lemma OnePage(st: State, page: nat) returns (st': State)
    requires Sound(st) && |st.s.classes| == 3 && st.s.classes[1].perslab == 1 && page !in st.s.owner && page != CRAWLERS
    ensures Next(st, NewPage(1, page), st') && Sound(st') && st' == st.(s := AddPage(st.s, 1, page))
    ensures st'.s.out == st.s.out + {Chunk(page, 0)} && Chunk(page, 0) in st'.s.hdr && st'.s.hdr[Chunk(page, 0)] == ZERO
    ensures forall x | x in st.s.hdr && x.page != page :: x in st'.s.hdr && st'.s.hdr[x] == st.s.hdr[x]
  {
    st' := st.(s := AddPage(st.s, 1, page));
    assert PageStep(st, 1, page, st');
    StepInv(st, NewPage(1, page), st');
    assert PageChunks(page, 1) == {Chunk(page, 0)};
  }

  lemma TwoPages() returns (st1: State, st2: State)
    ensures Next(Start0(), NewPage(1, 1), st1) && Next(st1, NewPage(1, 2), st2)
    ensures BothPages(st2) && st2.s.out == {A, B} && st2.s.lists[1] == [] && st2.lru.heads[1] == None
    ensures A in st2.s.hdr && B in st2.s.hdr && st2.s.hdr[A] == st2.s.hdr[B] == ZERO
  {
    StartIsInitial();
    hide Sound, Initial, Next;
    st1 := OnePage(Start0(), 1);
    st2 := OnePage(st1, 2);
    assert st2.s.classes[1].pages == [] + [1] + [2] == [1, 2];
  }

  lemma BothFreed(st: State) returns (st1: State, st2: State)
    requires BothPages(st) && st.s.out == {A, B} && st.s.lists[1] == [] && st.lru.heads[1] == None
    requires A in st.s.hdr && B in st.s.hdr && st.s.hdr[A] == st.s.hdr[B] == ZERO
    ensures Next(st, Free(A), st1) && Next(st1, Free(B), st2)
    ensures BothPages(st2) && st2.s.out == {} && st2.s.lists[1] == [B, A] && st2.lru.heads[1] == None
  {
    hide Sound;
    st1 := OneFreed(st, A);
    st2 := OneFreed(st1, B);
    assert st2.s.lists[1] == [B] + ([A] + []) == [B, A];
  }

  lemma OneFreed(st: State, ch: Chunk) returns (st': State)
    requires BothPages(st) && (ch == A || ch == B) && ch in st.s.out && ch in st.s.hdr && st.s.hdr[ch].refcount == 0
    ensures Next(st, Free(ch), st') && BothPages(st') && st'.s.out == st.s.out - {ch} && st'.s.lists[1] == [ch] + st.s.lists[1]
    ensures st'.lru == st.lru && forall x | x in st.s.hdr && x != ch :: x in st'.s.hdr && st'.s.hdr[x] == st.s.hdr[x]
  {
    FreeUnnoticed(st, 1, ch);
    st' := st.(s := PushFree(st.s, 1, ch));
    hide Sound;
    assert FreeStep(st, ch, st');
  }

  // ----- two items

  lemma BothAllocated(st: State) returns (st1: State, st2: State)
    requires BothPages(st) && st.s.out == {} && st.s.lists[1] == [B, A] && st.lru.heads[1] == None
    ensures Next(st, Alloc(1), st1) && Next(st1, Alloc(1), st2)
    ensures BothPages(st2) && Fresh(st2, A) && Fresh(st2, B) && st2.lru.heads[1] == None
  {
    hide Sound;
    st1 := OneAllocated(st, B);
    st2 := OneAllocated(st1, A);
  }

  /** Handed out and not initialised yet. */
  ghost predicate Fresh(st: State, ch: Chunk) {
    ch in st.s.out && ch in st.s.hdr && st.s.hdr[ch] == Header(1, true, false, 0)
  }

  lemma OneAllocated(st: State, ch: Chunk) returns (st': State)
    requires BothPages(st) && st.s.lists[1] != [] && st.s.lists[1][0] == ch
    ensures Next(st, Alloc(1), st') && BothPages(st') && Fresh(st', ch) && st'.s.lists[1] == st.s.lists[1][1..] && st'.lru == st.lru
    ensures forall x | Fresh(st, x) && x != ch :: Fresh(st', x)
  {
    PopKeeps(st, 1);
    FreeChunkKnown(st.s, 1, ch);
    st' := st.(s := PopFree(st.s, 1));
    hide Sound;
    assert AllocStep(st, 1, st');
  }

  lemma BothInitialised(st: State) returns (st1: State, st2: State)
    requires BothPages(st) && Fresh(st, A) && Fresh(st, B) && st.lru.heads[1] == None
    ensures Next(st, Init(B), st1) && Next(st1, Init(A), st2)
    ensures BothPages(st2) && Held(st2, A, PLAIN) && Held(st2, B, PLAIN) && st2.lru.heads[1] == None
  {
    hide Sound;
    st1 := OneInitialised(st, B);
    st2 := OneInitialised(st1, A);
  }

  ghost predicate Held(st: State, ch: Chunk, h: Header) {
    ch in st.s.out && ch in st.s.hdr && st.s.hdr[ch] == h
  }

  lemma OneInitialised(st: State, ch: Chunk) returns (st': State)
    requires BothPages(st) && (ch == A || ch == B) && Fresh(st, ch)
    ensures Next(st, Init(ch), st') && BothPages(st') && Held(st', ch, PLAIN) && st'.lru == st.lru
    ensures forall x | Fresh(st, x) && x != ch :: Fresh(st', x)
    ensures forall x, h | Held(st, x, h) && x != ch :: Held(st', x, h)
  {
    st' := WithHeader(Initialised(st, ch), ch, PLAIN);
    assert InitStep(st, ch, st');
    KeepsInit(st, ch, st');
  }

  // ----- both are linked, the one on page 2 in front

  lemma OneLinked(st: State, ch: Chunk) returns (st': State)
    requires BothPages(st) && (ch == A || ch == B) && Held(st, ch, PLAIN)
    ensures Next(st, Link(ch, 0), st') && BothPages(st') && Held(st', ch, LINKED) && st'.lru.heads[1] == Some(ch)
    ensures ch in st'.s.mem && (st.lru.heads[1] != Some(ch) ==> st'.s.mem[ch] == Links(st.lru.heads[1], None))
    ensures forall x, h | Held(st, x, h) && x != ch :: Held(st', x, h)
  {
    ThisQueue(st.s.mem, st.lru, 1);
    st' := WithHeader(Attach(st, ch, 1, 0), ch, LINKED);
    assert LinkStep(st, ch, 0, st');
    KeepsLink(st, ch, 0, st');
  }

  lemma BothLinked(st: State) returns (st1: State, st2: State, st3: State)
    requires BothPages(st) && Held(st, A, PLAIN) && Held(st, B, PLAIN)
    ensures Next(st, Link(A, 0), st1) && Next(st1, Link(B, 0), st2) && Next(st2, Drop(A), st3)
    ensures BothPages(st3) && Held(st3, A, LINKED.(refcount := 1)) && Held(st3, B, LINKED)
    ensures B in st3.s.mem && st3.s.mem[B].next == Some(A)
  {
    hide Sound;
    st1 := OneLinked(st, A);
    st2 := OneLinked(st1, B);
    st3 := Released(st2);
  }

  lemma Released(st: State) returns (st': State)
    requires BothPages(st) && Held(st, A, LINKED) && Held(st, B, LINKED)
    ensures Next(st, Drop(A), st') && BothPages(st') && Held(st', A, LINKED.(refcount := 1)) && Held(st', B, LINKED)
    ensures st'.s.mem == st.s.mem
  {
    st' := WithHeader(st, A, LINKED.(refcount := 1));
    assert CountStep(st, A, false, st');
    KeepsCount(st, A, false, st');
  }

  // ----- the item on page 2 is unlinked while it is held, and page 1 is emptied

  lemma Unlinked(st: State) returns (st': State)
    requires BothPages(st) && Held(st, A, LINKED.(refcount := 1)) && Held(st, B, LINKED) && B in st.s.mem && st.s.mem[B].next == Some(A)
    ensures Next(st, Unlink(B), st') && BothPages(st') && Held(st', A, LINKED.(refcount := 1)) && Held(st', B, PLAIN)
    ensures B in st'.s.mem && st'.s.mem[B].next == Some(A) && !Listed(st', B)
  {
    DetachKeeps(st, B);
    DeleteKeeps(st.hash, B);
    st' := WithHeader(Detach(st, B), B, PLAIN);
    assert DetachStep(st, B, PLAIN, st');
    assert UnlinkStep(st, B, false, st');
    KeepsUnlink(st, B, false, st');
    UnlinkedKeepsPointers(st, B, false, st');
  }

  lemma Emptied(st: State) returns (st1: State, st2: State)
    requires BothPages(st) && Held(st, A, LINKED.(refcount := 1)) && Held(st, B, PLAIN)
    requires B in st.s.mem && st.s.mem[B].next == Some(A) && !Listed(st, B)
    ensures Next(st, SlabsRun.Start(1, 2), st1) && Next(st1, Move(true), st2)
    ensures st2.s.rebal.Some? && st2.s.rebal.value.done && st2.s.rebal.value.page == 1
    ensures B in st2.s.out && B in st2.s.mem && st2.s.mem[B].next == Some(A)
  {
    var r := Rebalance(1, 2, 1, 0, 0, false);
    st1 := st.(s := st.s.(rebal := Some(r)));
    assert StartStep(st, 1, 2, st1);
    KeepsStart(st, 1, 2, st1);
    st2 := MovedAway(st1, r);
    MoveLeavesUnlisted(st1, true, st2, B);
  }

  lemma MovedAway(st: State, r: Rebalance) returns (st': State)
    requires Sound(st) && st.s.rebal == Some(r) && r == Rebalance(1, 2, 1, 0, 0, false) && 1 < |st.s.classes| && st.s.classes[1].perslab == 1
    requires Held(st, A, LINKED.(refcount := 1)) && B in st.s.out
    ensures MoveStep(st, true, st') && st'.s.rebal == Some(Rebalance(1, 2, 1, 1, 0, true)) && B in st'.s.out
  {
    DetachKeeps(st, A);
    var st1 := Detach(st, A).(s := ClearOut(Detach(st, A).s, A, Clear(st.s.hdr[A])));
    hide Inv, IsList, IsChain;
    assert MoveChunk(st, A, 1, true, st1, 0);
    st' := Advanced(st1, r, 0, 1);
    assert Chunk(r.page, r.pos) == A;
  }

  /** The run. At its end page 1 has been emptied, and the item on page 2, unlinked and still held,
      points into it. */
  lemma StalePointer() returns (run: seq<State>, actions: seq<Action>)
    ensures IsRun(run, actions)
    ensures var st := run[|run| - 1];
            && st.s.rebal.Some? && st.s.rebal.value.done && B in st.s.out && B in st.s.mem
            && !Avoids(st.s.mem[B].next, st.s.rebal.value.page)
  {
    hide Next, Initial, Sound, BothPages, Fresh, Held, Listed, Start0;
    StartIsInitial();
    var st0 := Start0();
    var st1, st2 := TwoPages();
    var st3, st4 := BothFreed(st2);
    var st5, st6 := BothAllocated(st4);
    var st7, st8 := BothInitialised(st6);
    var st9, st10, st11 := BothLinked(st8);
    var st12 := Unlinked(st11);
    var st13, st14 := Emptied(st12);
    run := [st0, st1, st2, st3, st4, st5, st6, st7, st8, st9, st10, st11, st12, st13, st14];
    actions := [NewPage(1, 1), NewPage(1, 2), Free(A), Free(B), Alloc(1), Alloc(1), Init(B), Init(A), Link(A, 0), Link(B, 0), Drop(A),
                SlabsRun.Unlink(B), SlabsRun.Start(1, 2), Move(true)];
    FourteenSteps(run, actions);
  }

  lemma FourteenSteps(run: seq<State>, actions: seq<Action>)
    requires |run| == 15 && |actions| == 14 && Initial(run[0])
    requires Next(run[0], actions[0], run[1]) && Next(run[1], actions[1], run[2]) && Next(run[2], actions[2], run[3])
    requires Next(run[3], actions[3], run[4]) && Next(run[4], actions[4], run[5]) && Next(run[5], actions[5], run[6])
    requires Next(run[6], actions[6], run[7]) && Next(run[7], actions[7], run[8]) && Next(run[8], actions[8], run[9])
    requires Next(run[9], actions[9], run[10]) && Next(run[10], actions[10], run[11]) && Next(run[11], actions[11], run[12])
    requires Next(run[12], actions[12], run[13]) && Next(run[13], actions[13], run[14])
    ensures IsRun(run, actions)
  {
    hide Next, Initial;
  }
}
