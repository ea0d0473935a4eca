/** Reference counts are what they should be: the holders of an item, and one for being linked. */
module SlabRefs {
  import opened Lists
  import opened Slabs
  import opened SlabItems
  import opened SlabsRun
  import opened Store

  /** What a step adds to the references held to a chunk: do_item_alloc and do_item_get take one,
      do_item_remove gives one back. */
  ghost function Taken(st: State, a: Action, ch: Chunk): int {
    match a
    case Alloc(c) => if c < |st.s.lists| && st.s.lists[c] != [] && st.s.lists[c][0] == ch then 1 else 0
    case Get(x) => if x == ch then 1 else 0
    case Reuse(x) => if x == ch then 1 else 0
    case Drop(x) => if x == ch then -1 else 0
    case _ => 0
  }

  /** The references held to a chunk after n steps. */
  ghost function Holders(run: seq<State>, actions: seq<Action>, n: nat, ch: Chunk): int
    requires n < |run| && n <= |actions|
  {
    if n == 0 then 0 else Holders(run, actions, n - 1, ch) + Taken(run[n - 1], actions[n - 1], ch)
  }

  ghost predicate Counted(st: State, ch: Chunk, holders: int) {
    if ch in st.s.out then ch in st.s.hdr && st.s.hdr[ch].refcount == holders + (if st.s.hdr[ch].linked then 1 else 0)
    else holders == 0
  }

  lemma CountedNonNegative(st: State, ch: Chunk, holders: int)
    requires Sound(st) && Counted(st, ch, holders)
    ensures 0 <= holders
  {
    if ch in st.s.out {
      OutChunk(st.s, ch);
    }
  }

  lemma CountsAlloc(st: State, c: nat, st': State, ch: Chunk, holders: int)
    requires Sound(st) && AllocStep(st, c, st') && Counted(st, ch, holders)
    ensures Counted(st', ch, holders + Taken(st, Alloc(c), ch))
  {
    FreeChunkKnown(st.s, c, st.s.lists[c][0]);
  }

  lemma CountsFree(st: State, x: Chunk, st': State, ch: Chunk, holders: int)
    requires Sound(st) && FreeStep(st, x, st') && Counted(st, ch, holders)
    ensures Counted(st', ch, holders)
  {
    OutChunk(st.s, x);
  }

  lemma CountsPage(st: State, c: nat, page: nat, st': State, ch: Chunk, holders: int)
    requires Sound(st) && PageStep(st, c, page, st') && Counted(st, ch, holders)
    ensures Counted(st', ch, holders)
  {
    if ch in st.s.out {
      OutChunk(st.s, ch);
    }
  }

  lemma CountsItem(st: State, a: Action, st': State, ch: Chunk, holders: int)
    requires Sound(st) && Next(st, a, st') && Counted(st, ch, holders)
    requires a.Init? || a.Link? || a.Unlink? || a.Reuse? || a.Get? || a.Drop?
    ensures Counted(st', ch, holders + Taken(st, a, ch))
  {
    OutChunk(st.s, a.ch);
    assert OwnerAt(st.s.classes, st.s.owner, a.ch.page);
  }

  lemma CountsMove(st: State, gotLock: bool, st': State, ch: Chunk, holders: int)
    requires Sound(st) && MoveStep(st, gotLock, st') && Counted(st, ch, holders)
    ensures Counted(st', ch, holders)
  {
    hide LruOk, HashOk, ListsOk, ChunksOk, PagesOk;
    MoveExactly(st, gotLock, st');
    OthersKeepHeaders(st, gotLock, st');
    OutShrinks(st, gotLock, st');
    AtPosition(st.s);
    var r := st.s.rebal.value;
    var at := Chunk(r.page, r.pos);
    UnheldIsMovable(st, at, r.src, gotLock);
    if ch == at && ch in st.s.out && Unheld(st, at, r.src, gotLock) {
      NotClearedOut(st.s, ch);
      assert TiedAt(st.s, st.lru.cls, st.hash.home, ch);
      OutOnly(st, ch);
    }
  }

  lemma OutOnly(st: State, ch: Chunk)
    requires Sound(st) && ch in st.s.out
    ensures ch in st.s.hdr && st.s.hdr[ch].clsid != CLEARED && forall c: nat | c < |st.s.lists| :: ch !in st.s.lists[c]
  {
    OutChunk(st.s, ch);
    ClassBelowCleared(st.s, st.s.owner[ch.page]);
  }

  lemma OutShrinks(st: State, gotLock: bool, st': State)
    requires Sound(st) && MoveStep(st, gotLock, st')
    ensures st'.s.out <= st.s.out
  {
    MoveKeeps(st, gotLock, st');
  }

  lemma CountsFinish(st: State, st': State, ch: Chunk, holders: int)
    requires Sound(st) && FinishStep(st, st') && Counted(st, ch, holders)
    ensures Counted(st', ch, holders)
  {
    DropUnnoticed(st);
    if ch in st.s.out {
      OutChunk(st.s, ch);
      if ch.page == st.s.rebal.value.page {
        EmptiedPage(st.s, ch);
      }
    }
  }

  lemma StepCounts(st: State, a: Action, st': State, ch: Chunk, holders: int)
    requires Sound(st) && Next(st, a, st') && Counted(st, ch, holders)
    ensures Counted(st', ch, holders + Taken(st, a, ch))
  {
    hide Sound, Counted, AllocStep, PageStep, FreeStep, MoveStep, FinishStep, StartStep, BumpStep, CrawlerStep, TableStep,
         InitStep, LinkStep, UnlinkStep, CountStep;
    match a
    case Alloc(c) => CountsAlloc(st, c, st', ch, holders);
    case NewPage(c, page) => CountsPage(st, c, page, st', ch, holders);
    case Free(x) => CountsFree(st, x, st', ch, holders);
    case Move(gotLock) => CountsMove(st, gotLock, st', ch, holders);
    case Finish => CountsFinish(st, st', ch, holders);
    case Start(_, _) => CountsOther(st, a, st', ch, holders);
    case Bump(_) => CountsOther(st, a, st', ch, holders);
    case CrawlerEnters(_) => CountsOther(st, a, st', ch, holders);
    case CrawlerMoves(_) => CountsOther(st, a, st', ch, holders);
    case CrawlerLeaves(_) => CountsOther(st, a, st', ch, holders);
    case GrowTable(_) => CountsOther(st, a, st', ch, holders);
    case MoveItem(_, _) => CountsOther(st, a, st', ch, holders);
    case _ => CountsItem(st, a, st', ch, holders);
  }

  lemma CountsOther(st: State, a: Action, st': State, ch: Chunk, holders: int)
    requires Next(st, a, st') && Counted(st, ch, holders)
    requires a.Start? || a.Bump? || a.CrawlerEnters? || a.CrawlerMoves? || a.CrawlerLeaves? || a.GrowTable? || a.MoveItem?
    ensures Counted(st', ch, holders)
  {
  }

  /** In every state of every run the reference count of a chunk that is handed out is the number
      of its holders, and one more if it is linked; nobody holds a chunk that is not handed out. */
  lemma {:induction false} RefcountIsHolders(run: seq<State>, actions: seq<Action>, n: nat, ch: Chunk)
    requires IsRun(run, actions) && n < |run|
    ensures Counted(run[n], ch, Holders(run, actions, n, ch))
  {
    hide Sound, Next, Initial;
    if n == 0 {
      NothingOut(run[0]);
    } else {
      RefcountIsHolders(run, actions, n - 1, ch);
      RunInv(run, actions, n - 1);
      assert StepAt(run, actions, n - 1);
      StepCounts(run[n - 1], actions[n - 1], run[n], ch, Holders(run, actions, n - 1, ch));
    }
  }

  lemma NothingOut(st: State)
    requires Initial(st)
    ensures st.s.out == {}
  {
  }

  /** So a chunk that somebody holds is on no free list and not cleared, whatever runs meanwhile. */
  lemma HeldIsSafe(run: seq<State>, actions: seq<Action>, n: nat, ch: Chunk)
    requires IsRun(run, actions) && n < |run| && Holders(run, actions, n, ch) != 0
    ensures var s := run[n].s;
            ch in s.out && ch in s.hdr && s.hdr[ch].clsid != CLEARED && forall c: nat | c < |s.lists| :: ch !in s.lists[c]
  {
    RefcountIsHolders(run, actions, n, ch);
    RunInv(run, actions, n);
    OutOnly(run[n], ch);
  }

  /** A chunk that is newly handed out, or taken from an evicted item, has no other holder. */
  lemma NewOwnerIsAlone(run: seq<State>, actions: seq<Action>, n: nat, ch: Chunk)
    requires IsRun(run, actions) && n < |actions|
    requires match actions[n]
             case Alloc(c) => c < |run[n].s.lists| && run[n].s.lists[c] != [] && run[n].s.lists[c][0] == ch
             case Reuse(x) => x == ch
             case _ => false
    ensures Holders(run, actions, n, ch) == 0 && Holders(run, actions, n + 1, ch) == 1
  {
    RefcountIsHolders(run, actions, n, ch);
    RunInv(run, actions, n);
    assert StepAt(run, actions, n);
    if actions[n].Alloc? {
      FreeChunkKnown(run[n].s, actions[n].c, ch);
    }
  }
}
