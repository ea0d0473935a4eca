/** Readers searching the skip list without locks while a writer inserts: every load of a
    search and every store of Insert is a step of its own, in any interleaving. */
module SkipListConcurrent {
  import opened Store
  import opened SkipList
  import opened SkipListOps

  /** The writer: idle, about to raise max_height_, or linking node `n` level by level;
      `own` once the node's own link at level i is set but not yet published. */
  datatype Writer =
    | Idle
    | Searched(key: Bytes, height: nat, prev: seq<nat>)
    | Linking(n: nat, height: nat, prev: seq<nat>, i: nat, own: bool)

  /** A reader: between two loads of its search, or done with the last nodes it saw. */
  datatype Reader =
    | Searching(target: Option<Bytes>, level: int, x: nat)
    | Found(target: Option<Bytes>, x: nat, next: nat)

  /** `levels` describes the lists the links spell out; no step reads it. */
  datatype State = State(m: Memory, levels: seq<Level>, writer: Writer, readers: seq<Reader>)

  function Initial(): State {
    State(Memory([[]], [seq(MAX_HEIGHT, _ => NIL)], 1), seq(MAX_HEIGHT, _ => []), Idle, [])
  }

  // ----- steps of the writer

  ghost predicate SearchStep(cmp: Comparator, st: State, key: Bytes, height: nat, prev: seq<nat>, st': State) {
    && st.writer.Idle? && LevelsOk(cmp, st.m, st.levels)
    && 1 <= height <= MAX_HEIGHT && NoEqual(cmp, st.m.keys, st.levels[0], key, NIL)
    // what FindGreaterOrEqual fills in
    && |prev| == MAX_HEIGHT && Places(cmp, st.m, st.levels, Some(key), prev, 0, st.m.maxHeight)
    && (forall i | st.m.maxHeight <= i < MAX_HEIGHT :: prev[i] == HEAD)
    && st' == st.(writer := Searched(key, height, prev))
  }

  /** max_height_ is stored; the node itself is still private. */
  ghost predicate RaiseStep(st: State, st': State) {
    && st.writer.Searched?
    && var w := st.writer;
       var m := Alloc(st.m, w.key, w.height);
       st' == st.(m := if m.maxHeight < w.height then m.(maxHeight := w.height) else m,
                  writer := Linking(|st.m.keys|, w.height, w.prev, 0, false))
  }

  ghost predicate OwnStep(st: State, st': State) {
    && st.writer.Linking? && !st.writer.own
    && var w := st.writer;
       && w.i < w.height && w.i < |w.prev| && w.prev[w.i] < |st.m.next| && w.i < |st.m.next[w.prev[w.i]]|
       && w.n < |st.m.next| && w.i < |st.m.next[w.n]|
       && st' == st.(m := SetNext(st.m, w.n, w.i, st.m.next[w.prev[w.i]][w.i]), writer := w.(own := true))
  }

  ghost predicate PublishStep(cmp: Comparator, st: State, st': State) {
    && st.writer.Linking? && st.writer.own
    && var w := st.writer;
       && w.i < w.height && w.i < |w.prev| && w.prev[w.i] < |st.m.next| && w.i < |st.m.next[w.prev[w.i]]|
       && w.n < |st.m.keys| && w.i < |st.levels|
       && st' == st.(m := SetNext(st.m, w.prev[w.i], w.i, w.n), levels := Grown(cmp, st.m, st.levels, w.n, w.i),
                     writer := w.(i := w.i + 1, own := false))
  }

  ghost predicate EndStep(st: State, st': State) {
    st.writer.Linking? && st.writer.i == st.writer.height && st' == st.(writer := Idle)
  }

  // ----- steps of readers

  /** The load of max_height_. */
  ghost predicate BeginStep(st: State, target: Option<Bytes>, st': State) {
    st' == st.(readers := st.readers + [Searching(target, st.m.maxHeight - 1, HEAD)])
  }

  /** The load of x->Next(level) and the comparison. */
  ghost predicate LoadStep(cmp: Comparator, st: State, k: nat, st': State) {
    && k < |st.readers| && st.readers[k].Searching?
    && var r := st.readers[k];
       && 0 <= r.level && r.x < |st.m.next| && r.level < |st.m.next[r.x]| && st.m.next[r.x][r.level] < |st.m.keys|
       && var next := st.m.next[r.x][r.level];
          st' == st.(readers := st.readers[k :=
            if GoesOn(cmp, st.m, r.target, next) then Searching(r.target, r.level, next)
            else if r.level == 0 then Found(r.target, r.x, next)
            else Searching(r.target, r.level - 1, r.x)])
  }

  ghost predicate Next(cmp: Comparator, st: State, st': State) {
    || (exists key, height: nat, prev :: SearchStep(cmp, st, key, height, prev, st'))
    || RaiseStep(st, st') || OwnStep(st, st') || PublishStep(cmp, st, st') || EndStep(st, st')
    || (exists target :: BeginStep(st, target, st'))
    || (exists k: nat :: LoadStep(cmp, st, k, st'))
  }

  ghost predicate StepAt(cmp: Comparator, run: seq<State>, i: int) {
    0 <= i < |run| - 1 ==> Next(cmp, run[i], run[i + 1])
  }

  ghost predicate IsRun(cmp: Comparator, run: seq<State>) {
    run != [] && run[0] == Initial() && forall i {:trigger StepAt(cmp, run, i)} :: StepAt(cmp, run, i)
  }

  // ----- what every step keeps

  ghost predicate WriterOk(cmp: Comparator, m: Memory, levels: seq<Level>, w: Writer) {
    && LevelsOk(cmp, m, levels)
    && (forall i | m.maxHeight <= i < MAX_HEIGHT :: levels[i] == [])
    && match w
       case Idle => true
       case Searched(key, height, prev) =>
         && 1 <= height <= MAX_HEIGHT && |prev| == MAX_HEIGHT && NoEqual(cmp, m.keys, levels[0], key, NIL)
         && Places(cmp, m, levels, Some(key), prev, 0, m.maxHeight)
         && (forall i | m.maxHeight <= i < MAX_HEIGHT :: prev[i] == HEAD)
       case Linking(n, height, prev, i, own) =>
         && Inserting(cmp, m, levels, n, height, prev, i) && 1 <= height <= m.maxHeight
         && (own ==> i < height && m.next[n][i] == Succ(levels[i], Rank(cmp, m.keys, levels[i], Some(m.keys[n]))))
  }

  /** A search stands on a node of its current level that is not past the target. */
  ghost predicate ReaderOk(cmp: Comparator, keys: seq<Bytes>, levels: seq<Level>, r: Reader) {
    r.Searching? ==>
      && 0 <= r.level < |levels|
      && (r.x == HEAD || (r.x in levels[r.level] && r.x < |keys| && Passes(cmp, keys, r.target, r.x)))
  }

  ghost predicate Inv(cmp: Comparator, st: State) {
    && WriterOk(cmp, st.m, st.levels, st.writer)
    && forall k | 0 <= k < |st.readers| :: ReaderOk(cmp, st.m.keys, st.levels, st.readers[k])
  }

  /** Nodes are never unlinked and keys never change. */
  ghost predicate Extends(st: State, st': State) {
    && |st.levels| == |st'.levels| && st.m.keys <= st'.m.keys
    && forall i | 0 <= i < |st.levels| :: Sublist(st.levels[i], st'.levels[i])
  }

  lemma ReadersKeep(cmp: Comparator, st: State, st': State)
    requires Inv(cmp, st) && Extends(st, st') && st'.readers == st.readers
    ensures forall k | 0 <= k < |st.readers| :: ReaderOk(cmp, st'.m.keys, st'.levels, st'.readers[k])
  {
    forall k | 0 <= k < |st.readers|
      ensures ReaderOk(cmp, st'.m.keys, st'.levels, st'.readers[k])
    {
      var r := st.readers[k];
      if r.Searching? && r.x != HEAD {
        assert Sublist(st.levels[r.level], st'.levels[r.level]);
      }
    }
  }

  lemma RaiseKeepsInv(cmp: Comparator, st: State, st': State)
    requires Inv(cmp, st) && RaiseStep(st, st')
    ensures Inv(cmp, st') && Extends(st, st')
  {
    var w := st.writer;
    BeginInsert(cmp, st.m, st.levels, w.key, w.height, w.prev);
    if st.m.maxHeight < w.height {
      RaiseKeeps(cmp, Alloc(st.m, w.key, w.height), st.levels, w.height);
    }
    ReadersKeep(cmp, st, st');
  }

  lemma OwnKeepsInv(cmp: Comparator, st: State, st': State)
    requires Inv(cmp, st) && OwnStep(st, st')
    ensures Inv(cmp, st') && Extends(st, st')
  {
    var w := st.writer;
    OwnLink(cmp, st.m, st.levels, w.n, w.height, w.prev, w.i);
    ReadersKeep(cmp, st, st');
  }

  lemma PublishKeepsInv(cmp: Comparator, st: State, st': State)
    requires Inv(cmp, st) && PublishStep(cmp, st, st')
    ensures Inv(cmp, st') && Extends(st, st')
  {
    var w := st.writer;
    PublishLink(cmp, st.m, st.levels, w.n, w.height, w.prev, w.i);
    InsertSublists(st.levels[w.i], Rank(cmp, st.m.keys, st.levels[w.i], Some(st.m.keys[w.n])), w.n);
    ReadersKeep(cmp, st, st');
  }

  /** A reader's place on its level, as a position in the list. */
  lemma ReaderPosition(cmp: Comparator, m: Memory, levels: seq<Level>, r: Reader) returns (p: nat)
    requires LevelsOk(cmp, m, levels) && ReaderOk(cmp, m.keys, levels, r) && r.Searching?
    ensures Position(cmp, m, levels, r.target, r.level, r.x, p)
  {
    assert LevelAt(cmp, m, levels, r.level);
    if r.x == HEAD {
      p := 0;
    } else {
      var k :| 0 <= k < |levels[r.level]| && levels[r.level][k] == r.x;
      RankPast(cmp, m.keys, levels[r.level], r.target, k);
      p := k + 1;
    }
  }

  lemma LoadKeepsInv(cmp: Comparator, st: State, k: nat, st': State)
    requires Inv(cmp, st) && LoadStep(cmp, st, k, st')
    ensures Inv(cmp, st') && Extends(st, st')
  {
    var r := st.readers[k];
    var p := ReaderPosition(cmp, st.m, st.levels, r);
    Load(cmp, st.m, st.levels, r.target, r.level, r.x, p);
    if r.x != HEAD && 0 < r.level {
      assert LevelAt(cmp, st.m, st.levels, r.level);
    }
  }

  lemma StepInv(cmp: Comparator, st: State, st': State)
    requires Inv(cmp, st) && Next(cmp, st, st')
    ensures Inv(cmp, st') && Extends(st, st')
  {
    if RaiseStep(st, st') {
      RaiseKeepsInv(cmp, st, st');
    } else if OwnStep(st, st') {
      OwnKeepsInv(cmp, st, st');
    } else if PublishStep(cmp, st, st') {
      PublishKeepsInv(cmp, st, st');
    } else if k: nat :| LoadStep(cmp, st, k, st') {
      LoadKeepsInv(cmp, st, k, st');
    }
  }

  lemma {:induction false} RunInv(cmp: Comparator, run: seq<State>, i: nat)
    requires IsRun(cmp, run) && i < |run|
    ensures Inv(cmp, run[i])
  {
    if i == 0 {
      assert forall j :: LevelAt(cmp, run[0].m, run[0].levels, j);
    } else {
      RunInv(cmp, run, i - 1);
      assert StepAt(cmp, run, i - 1);
      StepInv(cmp, run[i - 1], run[i]);
    }
  }

  lemma ExtendsTransitive(a: State, b: State, c: State)
    requires Extends(a, b) && Extends(b, c)
    ensures Extends(a, c)
  {
    forall i | 0 <= i < |a.levels|
      ensures Sublist(a.levels[i], c.levels[i])
    {
      assert Sublist(a.levels[i], b.levels[i]) && Sublist(b.levels[i], c.levels[i]);
    }
  }

  lemma {:induction false} RunExtends(cmp: Comparator, run: seq<State>, i: nat, j: nat)
    requires IsRun(cmp, run) && i <= j < |run|
    ensures Extends(run[i], run[j])
    decreases j
  {
    if i < j {
      RunExtends(cmp, run, i, j - 1);
      RunInv(cmp, run, j - 1);
      assert StepAt(cmp, run, j - 1);
      StepInv(cmp, run[j - 1], run[j]);
      ExtendsTransitive(run[i], run[j - 1], run[j]);
    }
  }

  // ----- the results

  /** The bottom list. */
  ghost function Bottom(st: State): Level {
    if st.levels == [] then [] else st.levels[0]
  }

  /** In every state of every run, mid-insert included, each level is a sorted sublist of
      the level below. */
  lemma AlwaysSorted(cmp: Comparator, run: seq<State>, i: nat)
    requires IsRun(cmp, run) && i < |run|
    ensures LevelsOk(cmp, run[i].m, run[i].levels)
  {
    RunInv(cmp, run, i);
  }

  /** A search returns the two bottom-level neighbours of its target in the list as it
      stands at the search's last load, whatever was inserted meanwhile. */
  lemma SearchIsExact(cmp: Comparator, run: seq<State>, i: nat, k: nat)
    requires IsRun(cmp, run) && i + 1 < |run| && LoadStep(cmp, run[i], k, run[i + 1]) && run[i + 1].readers[k].Found?
    ensures var st, r := run[i], run[i + 1].readers[k];
            var rank := Rank(cmp, st.m.keys, Bottom(st), r.target);
            r.x == Pred(Bottom(st), rank) && r.next == Succ(Bottom(st), rank)
  {
    RunInv(cmp, run, i);
    var st, r := run[i], run[i].readers[k];
    var p := ReaderPosition(cmp, st.m, st.levels, r);
    Load(cmp, st.m, st.levels, r.target, r.level, r.x, p);
  }

  /** A key whose insertion had reached the bottom list before is never missed. */
  lemma SearchNeverMisses(cmp: Comparator, run: seq<State>, start: nat, i: nat, k: nat, key: Bytes, n: nat)
    requires IsRun(cmp, run) && start <= i && i + 1 < |run|
    requires n in Bottom(run[start]) && n < |run[start].m.keys| && cmp(run[start].m.keys[n], key) == 0
    requires LoadStep(cmp, run[i], k, run[i + 1])
    requires run[i + 1].readers[k].Found? && run[i + 1].readers[k].target == Some(key)
    ensures var st, r := run[i], run[i + 1].readers[k];
            r.next != NIL && r.next < |st.m.keys| && cmp(key, st.m.keys[r.next]) == 0
  {
    SearchIsExact(cmp, run, i, k);
    RunExtends(cmp, run, start, i);
    RunInv(cmp, run, i);
    var st := run[i];
    assert LevelAt(cmp, st.m, st.levels, 0);
    assert Sublist(Bottom(run[start]), Bottom(st));
    SameIsEquivalence(cmp, key, key, key);
    EqualIsFirst(cmp, st.m.keys, Bottom(st), key);
    NeverHead(cmp, st, n);
  }

  lemma NeverHead(cmp: Comparator, st: State, n: nat)
    requires Inv(cmp, st) && n in Bottom(st)
    ensures n != NIL
  {
    assert LevelAt(cmp, st.m, st.levels, 0);
  }

  // ----- an insert takes effect

  /** The writer is inserting this key. */
  ghost predicate Writes(st: State, key: Bytes) {
    match st.writer
    case Idle => false
    case Searched(k, _, _) => k == key
    case Linking(n, _, _, _, _) => n < |st.m.keys| && st.m.keys[n] == key
  }

  lemma StillWrites(cmp: Comparator, st: State, st': State, key: Bytes)
    requires Inv(cmp, st) && Next(cmp, st, st') && Writes(st, key) && !st'.writer.Idle?
    ensures Writes(st', key)
  {
    StepInv(cmp, st, st');
    if st.writer.Linking? && st'.writer.Linking? {
      assert st'.writer.n == st.writer.n && st.m.keys[st.writer.n] == st'.m.keys[st.writer.n];
    }
  }

  /** When the writer is done the node is in the bottom list, and on each level below its height
      and no other. */
  lemma InsertEnds(cmp: Comparator, st: State, st': State, key: Bytes)
    requires Inv(cmp, st) && Next(cmp, st, st') && Writes(st, key) && st'.writer.Idle?
    ensures st.writer.Linking? && st'.m == st.m && st'.levels == st.levels && st.m.keys[st.writer.n] == key
    ensures forall j | 0 <= j < |st.levels| :: st.writer.n in st.levels[j] <==> j < st.writer.height
  {
    assert EndStep(st, st');
    forall j | 0 <= j < |st.levels|
      ensures st.writer.n in st.levels[j] <==> j < st.writer.height
    {
      assert LinkedAt(st.levels, st.writer.n, st.writer.i, j);
    }
  }

  /** An insert that has begun and ended has put its key into the list. */
  lemma {:induction false} InsertTakesEffect(cmp: Comparator, run: seq<State>, a: nat, b: nat, key: Bytes)
    requires IsRun(cmp, run) && a < b < |run| && Writes(run[a], key)
    requires (forall k | a <= k < b :: !run[k].writer.Idle?) && run[b].writer.Idle?
    ensures exists n :: n in Bottom(run[b]) && n < |run[b].m.keys| && run[b].m.keys[n] == key
    decreases b - a
  {
    RunInv(cmp, run, a);
    assert StepAt(cmp, run, a);
    if a + 1 < b {
      StillWrites(cmp, run[a], run[a + 1], key);
      InsertTakesEffect(cmp, run, a + 1, b, key);
    } else {
      InsertEnds(cmp, run[a], run[b], key);
      var st := run[a];
      NodeHasHeight(cmp, st);
      assert st.writer.n in st.levels[0];
    }
  }

  lemma NodeHasHeight(cmp: Comparator, st: State)
    requires Inv(cmp, st) && st.writer.Linking?
    ensures 0 < |st.levels| && st.writer.n < |st.m.keys|
    ensures st.writer.i == st.writer.height ==> 0 < st.writer.height
  {
    assert LevelAt(cmp, st.m, st.levels, 0);
  }
}
