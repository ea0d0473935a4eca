/** The memtable's skip list: one writer at a time, any number of lock-free readers. */
module SkipList {
  import opened Store

  const MAX_HEIGHT: nat := 12

  /** Nodes live in an arena and are named by their index. The head is node 0; since it is
      never anybody's successor, 0 also serves as the null pointer. */
  const HEAD: nat := 0
  const NIL: nat := 0

  /** `next[n][i]` is node n's link at level i; a node has as many links as it is high. */
  datatype Memory = Memory(keys: seq<Bytes>, next: seq<seq<nat>>, maxHeight: nat)

  type Level = seq<nat>

  /** What a search looks for: nodes before a key, or (FindLast) all nodes. */
  ghost predicate Passes(cmp: Comparator, keys: seq<Bytes>, target: Option<Bytes>, n: nat) {
    target.Some? && n < |keys| ==> cmp(keys[n], target.value) < 0
  }

  ghost function Pred(level: Level, p: nat): nat
    requires p <= |level|
  {
    if p == 0 then HEAD else level[p - 1]
  }

  ghost function Succ(level: Level, p: nat): nat
    requires p <= |level|
  {
    if p == |level| then NIL else level[p]
  }

  ghost predicate SortedLevel(cmp: Comparator, keys: seq<Bytes>, level: Level) {
    && (forall k | 0 <= k < |level| :: 0 < level[k] < |keys|)
    && (forall j, k | 0 <= j < k < |level| :: cmp(keys[level[j]], keys[level[k]]) < 0)
  }

  /** The links at level i spell out `level`. */
  ghost predicate Linked(m: Memory, i: nat, level: Level) {
    forall p | 0 <= p <= |level| ::
      Pred(level, p) < |m.next| && i < |m.next[Pred(level, p)]| && m.next[Pred(level, p)][i] == Succ(level, p)
  }

  ghost predicate LevelOk(cmp: Comparator, m: Memory, i: nat, level: Level) {
    SortedLevel(cmp, m.keys, level) && Linked(m, i, level)
  }

  /** Every level is a sorted sublist of the one below. */
  ghost predicate LevelsOk(cmp: Comparator, m: Memory, levels: seq<Level>) {
    && |levels| == MAX_HEIGHT && |m.keys| == |m.next| && 1 <= m.maxHeight <= MAX_HEIGHT
    && (forall i {:trigger LevelAt(cmp, m, levels, i)} :: LevelAt(cmp, m, levels, i))
  }

  ghost predicate LevelAt(cmp: Comparator, m: Memory, levels: seq<Level>, i: int) {
    0 <= i < |levels| ==> LevelOk(cmp, m, i, levels[i]) && (0 < i ==> Sublist(levels[i], levels[i - 1]))
  }

  ghost predicate Sublist(upper: Level, lower: Level) {
    forall n | n in upper :: n in lower
  }

  /** How many nodes of a level come before the target. */
  ghost function Rank(cmp: Comparator, keys: seq<Bytes>, level: Level, target: Option<Bytes>): (r: nat)
    ensures r <= |level|
    ensures forall k | 0 <= k < r :: Passes(cmp, keys, target, level[k])
    ensures r < |level| ==> !Passes(cmp, keys, target, level[r])
  {
    if level == [] || !Passes(cmp, keys, target, level[0]) then 0 else 1 + Rank(cmp, keys, level[1..], target)
  }

  lemma PassesDown(cmp: Comparator, keys: seq<Bytes>, level: Level, target: Option<Bytes>, j: nat, k: nat)
    requires SortedLevel(cmp, keys, level) && j <= k < |level| && Passes(cmp, keys, target, level[k])
    ensures Passes(cmp, keys, target, level[j])
  {
    if target.Some? && j < k {
      SameIsEquivalence(cmp, keys[level[j]], keys[level[k]], target.value);
    }
  }

  /** In a sorted level, the place where nodes stop passing is the rank. */
  lemma RankIs(cmp: Comparator, keys: seq<Bytes>, level: Level, target: Option<Bytes>, p: nat)
    requires SortedLevel(cmp, keys, level) && p <= |level|
    requires p == 0 || Passes(cmp, keys, target, level[p - 1])
    requires p == |level| || !Passes(cmp, keys, target, level[p])
    ensures p == Rank(cmp, keys, level, target)
  {
    var r := Rank(cmp, keys, level, target);
    if r < p {
      PassesDown(cmp, keys, level, target, r, p - 1);
    }
  }

  /** A node of an upper level also has its place in the level below. */
  lemma Descend(cmp: Comparator, keys: seq<Bytes>, upper: Level, lower: Level, target: Option<Bytes>, p: nat) returns (q: nat)
    requires SortedLevel(cmp, keys, lower) && Sublist(upper, lower) && p <= |upper|
    requires p == 0 || Passes(cmp, keys, target, upper[p - 1])
    ensures q <= |lower| && Pred(lower, q) == Pred(upper, p) && q <= Rank(cmp, keys, lower, target)
  {
    if p == 0 {
      q := 0;
    } else {
      assert upper[p - 1] in lower;
      var k :| 0 <= k < |lower| && lower[k] == upper[p - 1];
      q := k + 1;
      var r := Rank(cmp, keys, lower, target);
      if r < q {
        PassesDown(cmp, keys, lower, target, r, k);
      }
    }
  }

  lemma RankPast(cmp: Comparator, keys: seq<Bytes>, level: Level, target: Option<Bytes>, p: nat)
    requires SortedLevel(cmp, keys, level) && p < |level| && Passes(cmp, keys, target, level[p])
    ensures p < Rank(cmp, keys, level, target)
  {
    var r := Rank(cmp, keys, level, target);
    if r <= p {
      PassesDown(cmp, keys, level, target, r, p);
    }
  }

  // ----- searching

  /** A search at node x of the given level: x is the p-th there and not past the target. */
  ghost predicate Position(cmp: Comparator, m: Memory, levels: seq<Level>, target: Option<Bytes>, level: int, x: nat, p: nat) {
    0 <= level < |levels| && p <= Rank(cmp, m.keys, levels[level], target) && x == Pred(levels[level], p)
  }

  /** The search keeps to this level. */
  predicate GoesOn(cmp: Comparator, m: Memory, target: Option<Bytes>, next: nat)
    requires next < |m.keys|
  {
    next != NIL && (target.None? || cmp(m.keys[next], target.value) < 0)
  }

  /** One load of a search, and where it leads. */
  lemma Load(cmp: Comparator, m: Memory, levels: seq<Level>, target: Option<Bytes>, level: int, x: nat, p: nat)
    requires LevelsOk(cmp, m, levels) && Position(cmp, m, levels, target, level, x, p)
    ensures x < |m.next| && level < |m.next[x]| && m.next[x][level] < |m.keys|
    ensures m.next[x][level] == Succ(levels[level], p)
    ensures if GoesOn(cmp, m, target, m.next[x][level])
            then p < |levels[level]| && Position(cmp, m, levels, target, level, m.next[x][level], p + 1)
            else p == Rank(cmp, m.keys, levels[level], target)
  {
    assert LevelAt(cmp, m, levels, level);
    var next := m.next[x][level];
    if GoesOn(cmp, m, target, next) {
      RankPast(cmp, m.keys, levels[level], target, p);
    } else {
      RankIs(cmp, m.keys, levels[level], target, p);
    }
  }

  lemma Down(cmp: Comparator, m: Memory, levels: seq<Level>, target: Option<Bytes>, level: int, x: nat, p: nat) returns (q: nat)
    requires LevelsOk(cmp, m, levels) && Position(cmp, m, levels, target, level, x, p) && 0 < level
    ensures Position(cmp, m, levels, target, level - 1, x, q)
  {
    assert LevelAt(cmp, m, levels, level) && LevelAt(cmp, m, levels, level - 1);
    q := Descend(cmp, m.keys, levels[level], levels[level - 1], target, p);
  }

  ghost predicate Places(cmp: Comparator, m: Memory, levels: seq<Level>, target: Option<Bytes>, prev: seq<nat>, lo: nat, hi: nat)
    requires hi <= |levels| && hi <= |prev|
  {
    forall i | lo <= i < hi :: prev[i] == Pred(levels[i], Rank(cmp, m.keys, levels[i], target))
  }

  /** The loop shared by FindGreaterOrEqual, FindLessThan and FindLast: the node before the
      target at level 0, the one after it, and the predecessor at each level it went through. */
  method Search(cmp: Comparator, m: Memory, target: Option<Bytes>, ghost levels: seq<Level>)
    returns (x: nat, next: nat, prev: seq<nat>)
    requires LevelsOk(cmp, m, levels)
    ensures var r := Rank(cmp, m.keys, levels[0], target); x == Pred(levels[0], r) && next == Succ(levels[0], r)
    ensures |prev| == MAX_HEIGHT && Places(cmp, m, levels, target, prev, 0, m.maxHeight)
    ensures forall i | m.maxHeight <= i < MAX_HEIGHT :: prev[i] == HEAD
  {
    x := HEAD;
    prev := seq(MAX_HEIGHT, _ => HEAD);
    var level := m.maxHeight - 1;
    ghost var p: nat := 0;
    while true
      invariant 0 <= level < m.maxHeight && |prev| == MAX_HEIGHT
      invariant Position(cmp, m, levels, target, level, x, p)
      invariant Places(cmp, m, levels, target, prev, level + 1, m.maxHeight)
      invariant forall i | m.maxHeight <= i < MAX_HEIGHT :: prev[i] == HEAD
      decreases level, |levels[level]| - p
    {
      Load(cmp, m, levels, target, level, x, p);
      next := m.next[x][level];
      if GoesOn(cmp, m, target, next) {
        x := next;
        p := p + 1;
      } else {
        prev := prev[level := x];
        if level == 0 {
          return;
        }
        p := Down(cmp, m, levels, target, level, x, p);
        level := level - 1;
      }
    }
  }

  // ----- the stores of Insert, one by one

  function Alloc(m: Memory, key: Bytes, height: nat): Memory {
    m.(keys := m.keys + [key], next := m.next + [seq(height, _ => NIL)])
  }

  function SetNext(m: Memory, n: nat, i: nat, v: nat): Memory
    requires n < |m.next| && i < |m.next[n]|
  {
    var links: seq<nat> := m.next[n][i := v];
    m.(next := m.next[n := links])
  }

  function InsertAt(level: Level, p: nat, n: nat): Level
    requires p <= |level|
  {
    level[..p] + [n] + level[p..]
  }

  lemma AllocKeeps(cmp: Comparator, m: Memory, levels: seq<Level>, key: Bytes, height: nat)
    requires LevelsOk(cmp, m, levels)
    ensures LevelsOk(cmp, Alloc(m, key, height), levels)
  {
    var m' := Alloc(m, key, height);
    forall i
      ensures LevelAt(cmp, m', levels, i)
    {
      assert LevelAt(cmp, m, levels, i);
    }
  }

  lemma RaiseKeeps(cmp: Comparator, m: Memory, levels: seq<Level>, h: nat)
    requires LevelsOk(cmp, m, levels) && 1 <= h <= MAX_HEIGHT
    ensures LevelsOk(cmp, m.(maxHeight := h), levels)
  {
    var m' := m.(maxHeight := h);
    forall i
      ensures LevelAt(cmp, m', levels, i)
    {
      assert LevelAt(cmp, m, levels, i);
    }
  }

  /** A link of a node not yet on level i is private. */
  lemma StoreOwnKeeps(cmp: Comparator, m: Memory, levels: seq<Level>, n: nat, i: nat, v: nat)
    requires LevelsOk(cmp, m, levels) && 0 < n < |m.next| && i < |m.next[n]| && i < MAX_HEIGHT && n !in levels[i]
    ensures LevelsOk(cmp, SetNext(m, n, i, v), levels)
  {
    var m' := SetNext(m, n, i, v);
    forall j
      ensures LevelAt(cmp, m', levels, j)
    {
      assert LevelAt(cmp, m, levels, j);
    }
  }

  lemma PredInjective(cmp: Comparator, keys: seq<Bytes>, level: Level, p: nat, q: nat)
    requires SortedLevel(cmp, keys, level) && p < q <= |level|
    ensures Pred(level, p) != Pred(level, q)
  {
    if 0 < p {
      SameIsEquivalence(cmp, keys[level[p - 1]], keys[level[p - 1]], keys[level[p - 1]]);
    }
  }

  lemma PublishLevel(cmp: Comparator, m: Memory, level: Level, n: nat, i: nat, p: nat)
    requires LevelOk(cmp, m, i, level) && |m.keys| == |m.next| && p <= |level|
    requires 0 < n < |m.next| && i < |m.next[n]| && n !in level && m.next[n][i] == Succ(level, p)
    requires 0 < p ==> cmp(m.keys[level[p - 1]], m.keys[n]) < 0
    requires p < |level| ==> cmp(m.keys[n], m.keys[level[p]]) < 0
    ensures Pred(level, p) < |m.next| && i < |m.next[Pred(level, p)]|
    ensures LevelOk(cmp, SetNext(m, Pred(level, p), i, n), i, InsertAt(level, p, n))
  {
    hide SortedLevel;
    var level' := InsertAt(level, p, n);
    var m' := SetNext(m, Pred(level, p), i, n);
    PublishSorted(cmp, m.keys, level, n, p);
    forall q | 0 <= q <= |level'|
      ensures Pred(level', q) < |m'.next| && i < |m'.next[Pred(level', q)]| && m'.next[Pred(level', q)][i] == Succ(level', q)
    {
      if q < p {
        PredInjective(cmp, m.keys, level, q, p);
        assert Pred(level', q) == Pred(level, q) && Succ(level', q) == Succ(level, q);
      } else if p + 1 < q {
        PredInjective(cmp, m.keys, level, p, q - 1);
        assert Pred(level', q) == Pred(level, q - 1) && Succ(level', q) == Succ(level, q - 1);
      }
    }
  }

  lemma PublishSorted(cmp: Comparator, keys: seq<Bytes>, level: Level, n: nat, p: nat)
    requires SortedLevel(cmp, keys, level) && p <= |level| && 0 < n < |keys|
    requires 0 < p ==> cmp(keys[level[p - 1]], keys[n]) < 0
    requires p < |level| ==> cmp(keys[n], keys[level[p]]) < 0
    ensures SortedLevel(cmp, keys, InsertAt(level, p, n))
  {
    var level' := InsertAt(level, p, n);
    forall j, k | 0 <= j < k < |level'|
      ensures cmp(keys[level'[j]], keys[level'[k]]) < 0
    {
      if j == p && p + 1 < k {
        SameIsEquivalence(cmp, keys[n], keys[level[p]], keys[level[k - 1]]);
      } else if k == p && j + 1 < p {
        SameIsEquivalence(cmp, keys[level[j]], keys[level[p - 1]], keys[n]);
      }
    }
  }

  lemma OtherLevel(cmp: Comparator, m: Memory, j: nat, level: Level, x: nat, i: nat, v: nat)
    requires LevelOk(cmp, m, j, level) && j != i && x < |m.next| && i < |m.next[x]|
    ensures LevelOk(cmp, SetNext(m, x, i, v), j, level)
  {
  }

  lemma InsertSublists(level: Level, p: nat, n: nat)
    requires p <= |level|
    ensures forall x :: x in InsertAt(level, p, n) <==> x == n || x in level
  {
    assert level == level[..p] + level[p..];
  }

  /** The store that makes node n visible at level i puts it in its sorted place. */
  lemma PublishKeeps(cmp: Comparator, m: Memory, levels: seq<Level>, n: nat, i: nat)
    requires LevelsOk(cmp, m, levels) && i < MAX_HEIGHT
    requires 0 < n < |m.next| && i < |m.next[n]| && n !in levels[i] && (0 < i ==> n in levels[i - 1])
    requires forall x | x in levels[0] && x < |m.keys| && x != n :: cmp(m.keys[x], m.keys[n]) != 0
    requires forall x | x in levels[i] :: x in levels[0]
    requires m.next[n][i] == Succ(levels[i], Rank(cmp, m.keys, levels[i], Some(m.keys[n])))
    ensures var r := Rank(cmp, m.keys, levels[i], Some(m.keys[n]));
            && Pred(levels[i], r) < |m.next| && i < |m.next[Pred(levels[i], r)]|
            && LevelsOk(cmp, SetNext(m, Pred(levels[i], r), i, n), levels[i := InsertAt(levels[i], r, n)])
  {
    var r := Rank(cmp, m.keys, levels[i], Some(m.keys[n]));
    assert LevelAt(cmp, m, levels, i);
    assert r < |levels[i]| ==> levels[i][r] in levels[0] && Pair(m.keys[n], m.keys[levels[i][r]]);
    PublishLevel(cmp, m, levels[i], n, i, r);
    var m', levels' := SetNext(m, Pred(levels[i], r), i, n), levels[i := InsertAt(levels[i], r, n)];
    InsertSublists(levels[i], r, n);
    forall j
      ensures LevelAt(cmp, m', levels', j)
    {
      assert LevelAt(cmp, m, levels, j);
      if 0 <= j < |levels| && j != i {
        OtherLevel(cmp, m, j, levels[j], Pred(levels[i], r), i, n);
      }
    }
  }

  /** All levels are sublists of the bottom one. */
  lemma {:induction false} InBottom(cmp: Comparator, m: Memory, levels: seq<Level>, i: nat, x: nat)
    requires LevelsOk(cmp, m, levels) && i < MAX_HEIGHT && x in levels[i]
    ensures x in levels[0]
  {
    if 0 < i {
      assert LevelAt(cmp, m, levels, i);
      InBottom(cmp, m, levels, i - 1, x);
    }
  }
}
