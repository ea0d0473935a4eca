/** Insert and the searches, called one at a time. */
module SkipListOps {
  import opened Store
  import opened SkipList

  ghost predicate NoEqual(cmp: Comparator, keys: seq<Bytes>, level: Level, key: Bytes, except: nat) {
    forall x | x in level && x != except && x < |keys| :: cmp(keys[x], key) != 0
  }

  /** Where Insert stands after linking node n into levels below i. */
  ghost predicate Inserting(cmp: Comparator, m: Memory, levels: seq<Level>, n: nat, height: nat, prev: seq<nat>, i: nat) {
    && LevelsOk(cmp, m, levels) && |prev| == MAX_HEIGHT
    && 0 < n < |m.keys| && |m.next[n]| == height <= MAX_HEIGHT && i <= height
    && (forall j {:trigger LinkedAt(levels, n, i, j)} :: LinkedAt(levels, n, i, j))
    && (forall j {:trigger PlacedAt(cmp, m.keys, levels, n, prev, j)} ::
          i <= j < height ==> PlacedAt(cmp, m.keys, levels, n, prev, j))
    && NoEqual(cmp, m.keys, levels[0], m.keys[n], n)
  }

  ghost predicate LinkedAt(levels: seq<Level>, n: nat, i: nat, j: int) {
    0 <= j < |levels| ==> (n in levels[j] <==> j < i)
  }

  ghost predicate PlacedAt(cmp: Comparator, keys: seq<Bytes>, levels: seq<Level>, n: nat, prev: seq<nat>, j: int) {
    && 0 <= j < |levels| && j < |prev| && n < |keys|
    && prev[j] == Pred(levels[j], Rank(cmp, keys, levels[j], Some(keys[n])))
  }

  ghost function Grown(cmp: Comparator, m: Memory, levels: seq<Level>, n: nat, i: nat): seq<Level>
    requires i < |levels| && n < |m.keys|
  {
    levels[i := InsertAt(levels[i], Rank(cmp, m.keys, levels[i], Some(m.keys[n])), n)]
  }

  lemma RankAlloc(cmp: Comparator, keys: seq<Bytes>, key: Bytes, level: Level, target: Option<Bytes>)
    requires SortedLevel(cmp, keys, level)
    ensures Rank(cmp, keys + [key], level, target) == Rank(cmp, keys, level, target)
  {
    RankIs(cmp, keys + [key], level, target, Rank(cmp, keys, level, target));
  }

  /** After the search and the allocation, before the first link is set. */
  lemma BeginInsert(cmp: Comparator, m: Memory, levels: seq<Level>, key: Bytes, height: nat, prev: seq<nat>)
    requires LevelsOk(cmp, m, levels) && 1 <= height <= MAX_HEIGHT && |prev| == MAX_HEIGHT
    requires NoEqual(cmp, m.keys, levels[0], key, NIL)
    requires Places(cmp, m, levels, Some(key), prev, 0, m.maxHeight)
    requires forall i | m.maxHeight <= i < MAX_HEIGHT :: prev[i] == HEAD && levels[i] == []
    ensures Inserting(cmp, Alloc(m, key, height), levels, |m.keys|, height, prev, 0)
  {
    AllocKeeps(cmp, m, levels, key, height);
    var m', n := Alloc(m, key, height), |m.keys|;
    forall j
      ensures LinkedAt(levels, n, 0, j)
    {
      assert LevelAt(cmp, m, levels, j);
    }
    forall j | 0 <= j < height
      ensures PlacedAt(cmp, m'.keys, levels, n, prev, j)
    {
      assert LevelAt(cmp, m, levels, j);
      RankAlloc(cmp, m.keys, key, levels[j], Some(key));
      if m.maxHeight <= j {
        assert levels[j] == [];
      }
    }
    assert LevelAt(cmp, m, levels, 0);
  }

  lemma OwnLink(cmp: Comparator, m: Memory, levels: seq<Level>, n: nat, height: nat, prev: seq<nat>, i: nat)
    requires Inserting(cmp, m, levels, n, height, prev, i) && i < height
    ensures prev[i] < |m.next| && i < |m.next[prev[i]]|
    ensures m.next[prev[i]][i] == Succ(levels[i], Rank(cmp, m.keys, levels[i], Some(m.keys[n])))
    ensures Inserting(cmp, SetNext(m, n, i, m.next[prev[i]][i]), levels, n, height, prev, i)
  {
    assert LevelAt(cmp, m, levels, i) && LinkedAt(levels, n, i, i) && PlacedAt(cmp, m.keys, levels, n, prev, i);
    StoreOwnKeeps(cmp, m, levels, n, i, m.next[prev[i]][i]);
  }

  lemma PublishLink(cmp: Comparator, m: Memory, levels: seq<Level>, n: nat, height: nat, prev: seq<nat>, i: nat)
    requires Inserting(cmp, m, levels, n, height, prev, i) && i < height
    requires m.next[n][i] == Succ(levels[i], Rank(cmp, m.keys, levels[i], Some(m.keys[n])))
    ensures prev[i] < |m.next| && i < |m.next[prev[i]]|
    ensures Inserting(cmp, SetNext(m, prev[i], i, n), Grown(cmp, m, levels, n, i), n, height, prev, i + 1)
  {
    assert LinkedAt(levels, n, i, i) && LinkedAt(levels, n, i, i - 1) && PlacedAt(cmp, m.keys, levels, n, prev, i);
    forall x | x in levels[i]
      ensures x in levels[0]
    {
      InBottom(cmp, m, levels, i, x);
    }
    PublishKeeps(cmp, m, levels, n, i);
    var levels', next := Grown(cmp, m, levels, n, i), i + 1;
    InsertSublists(levels[i], Rank(cmp, m.keys, levels[i], Some(m.keys[n])), n);
    forall j
      ensures LinkedAt(levels', n, next, j)
    {
      assert LinkedAt(levels, n, i, j);
    }
    forall j | i + 1 <= j < height
      ensures PlacedAt(cmp, m.keys, levels', n, prev, j)
    {
      assert PlacedAt(cmp, m.keys, levels, n, prev, j);
    }
  }

  /** The list as a whole. `levels` are the contents of each level, without the head. */
  class List {
    const cmp: Comparator
    var mem: Memory
    ghost var levels: seq<Level>

    ghost predicate Valid()
      reads this
    {
      LevelsOk(cmp, mem, levels) && forall i | mem.maxHeight <= i < MAX_HEIGHT :: levels[i] == []
    }

    constructor (compare: Comparator)
      ensures Valid() && cmp == compare && |mem.keys| == 1 && levels[0] == []
    {
      cmp := compare;
      mem := Memory([[]], [seq(MAX_HEIGHT, _ => NIL)], 1);
      levels := seq(MAX_HEIGHT, _ => []);
      new;
      assert forall i :: LevelAt(cmp, mem, levels, i);
    }

    /** The earliest node at or after the key, or NIL. */
    method FindGreaterOrEqual(key: Bytes) returns (node: nat)
      requires Valid()
      ensures node == Succ(levels[0], Rank(cmp, mem.keys, levels[0], Some(key)))
    {
      var _, n, _ := Search(cmp, mem, Some(key), levels);
      node := n;
    }

    /** The latest node before the key, or HEAD. */
    method FindLessThan(key: Bytes) returns (node: nat)
      requires Valid()
      ensures node == Pred(levels[0], Rank(cmp, mem.keys, levels[0], Some(key)))
    {
      var x, _, _ := Search(cmp, mem, Some(key), levels);
      node := x;
    }

    /** The last node, or HEAD. */
    method FindLast() returns (node: nat)
      requires Valid()
      ensures node == Pred(levels[0], |levels[0]|)
    {
      var x, _, _ := Search(cmp, mem, None, levels);
      node := x;
      assert LevelAt(cmp, mem, levels, 0);
      RankIs(cmp, mem.keys, levels[0], None, |levels[0]|);
    }

    method Contains(key: Bytes) returns (found: bool)
      requires Valid()
      ensures found <==> !NoEqual(cmp, mem.keys, levels[0], key, NIL)
    {
      var n := FindGreaterOrEqual(key);
      assert LevelAt(cmp, mem, levels, 0);
      found := n != NIL && cmp(key, mem.keys[n]) == 0;
      EqualIsFirst(cmp, mem.keys, levels[0], key);
    }

    /** `height` is what RandomHeight drew. The new node takes its sorted place in every
        level below its height, and nothing else moves. */
    method Insert(key: Bytes, height: nat)
      requires Valid() && 1 <= height <= MAX_HEIGHT
      requires NoEqual(cmp, mem.keys, levels[0], key, NIL)
      modifies this
      ensures Valid() && mem.keys == old(mem.keys) + [key]
      ensures forall i | 0 <= i < MAX_HEIGHT ::
                levels[i] == if i < height then InsertAt(old(levels[i]), Rank(cmp, old(mem.keys), old(levels[i]), Some(key)), |old(mem.keys)|)
                             else old(levels[i])
    {
      ghost var keys, before := mem.keys, levels;
      var _, _, prev := Search(cmp, mem, Some(key), levels);
      var n := |mem.keys|;
      BeginInsert(cmp, mem, levels, key, height, prev);
      var top := if height > mem.maxHeight then height else mem.maxHeight;
      RaiseKeeps(cmp, Alloc(mem, key, height), levels, top);
      mem := Alloc(mem, key, height).(maxHeight := top);
      assert Inserting(cmp, mem, levels, n, height, prev, 0);
      for i := 0 to height
        invariant Inserting(cmp, mem, levels, n, height, prev, i)
        invariant mem.keys == keys + [key] && mem.maxHeight == top && |levels| == |before|
        invariant forall j | i <= j < MAX_HEIGHT :: levels[j] == before[j]
        invariant forall j | 0 <= j < i :: levels[j] == InsertAt(before[j], Rank(cmp, keys, before[j], Some(key)), n)
      {
        OwnLink(cmp, mem, levels, n, height, prev, i);
        mem := SetNext(mem, n, i, mem.next[prev[i]][i]);
        PublishLink(cmp, mem, levels, n, height, prev, i);
        assert LevelAt(cmp, mem, levels, i);
        LevelsOld(cmp, old(mem), before, i);
        RankAlloc(cmp, keys, key, before[i], Some(key));
        levels := Grown(cmp, mem, levels, n, i);
        mem := SetNext(mem, prev[i], i, n);
      }
    }
  }

  lemma LevelsOld(cmp: Comparator, m: Memory, levels: seq<Level>, i: nat)
    requires LevelsOk(cmp, m, levels) && i < MAX_HEIGHT
    ensures SortedLevel(cmp, m.keys, levels[i])
  {
    assert LevelAt(cmp, m, levels, i);
  }

  /** If any node is equal to the key, the first one not before it is. */
  lemma EqualIsFirst(cmp: Comparator, keys: seq<Bytes>, level: Level, key: Bytes)
    requires SortedLevel(cmp, keys, level)
    ensures var n := Succ(level, Rank(cmp, keys, level, Some(key)));
            (n != NIL && n < |keys| && cmp(key, keys[n]) == 0) <==> !NoEqual(cmp, keys, level, key, NIL)
  {
    var r := Rank(cmp, keys, level, Some(key));
    if !NoEqual(cmp, keys, level, key, NIL) {
      var x :| x in level && x < |keys| && cmp(keys[x], key) == 0;
      var k :| 0 <= k < |level| && level[k] == x;
      assert r <= k;
      if r < k {
        SameIsEquivalence(cmp, keys[level[r]], keys[x], key);
        assert false;
      }
      SameIsEquivalence(cmp, keys[x], key, key);
    } else if r < |level| && cmp(key, keys[level[r]]) == 0 {
      SameIsEquivalence(cmp, key, keys[level[r]], key);
    }
  }
}
