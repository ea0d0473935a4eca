/** Doubly linked lists threaded through the nodes, as memcached's free lists and LRU queues
    are. */
module DoublyLinked {
  import opened Lists
  import opened Store

  /** The two pointers of a node. */
  datatype Links<N> = Links(next: Option<N>, prev: Option<N>)

  ghost predicate NodeAt<N>(mem: map<N, Links<N>>, ids: seq<N>, k: int) {
    0 <= k < |ids| ==> ids[k] in mem && mem[ids[k]] == Links(At(ids, k + 1), At(ids, k - 1))
  }

  /** `head`, `tail` and the links of the nodes spell out the list. */
  ghost predicate IsList<N>(mem: map<N, Links<N>>, head: Option<N>, tail: Option<N>, ids: seq<N>) {
    && head == At(ids, 0) && tail == At(ids, |ids| - 1) && NoRepeats(ids)
    && forall k {:trigger NodeAt(mem, ids, k)} :: NodeAt(mem, ids, k)
  }

  lemma ListFrame<N>(mem: map<N, Links<N>>, mem': map<N, Links<N>>, head: Option<N>, tail: Option<N>, ids: seq<N>)
    requires IsList(mem, head, tail, ids)
    requires forall n | n in ids && n in mem :: n in mem' && mem'[n] == mem[n]
    ensures IsList(mem', head, tail, ids)
  {
    forall k
      ensures NodeAt(mem', ids, k)
    {
      assert NodeAt(mem, ids, k);
    }
  }

  lemma Neighbours<N>(mem: map<N, Links<N>>, head: Option<N>, tail: Option<N>, ids: seq<N>, k: nat)
    requires IsList(mem, head, tail, ids) && k < |ids|
    ensures ids[k] in mem && mem[ids[k]] == Links(At(ids, k + 1), At(ids, k - 1))
    ensures 0 < k ==> ids[k - 1] in mem && ids[k - 1] != ids[k]
    ensures k + 1 < |ids| ==> ids[k + 1] in mem && ids[k + 1] != ids[k]
    ensures head == Some(ids[k]) <==> k == 0
    ensures tail == Some(ids[k]) <==> k + 1 == |ids|
  {
    assert NodeAt(mem, ids, k) && NodeAt(mem, ids, k - 1) && NodeAt(mem, ids, k + 1);
  }

  // ----- a new head (item_link_q, do_slabs_free)

  function LinkFront<N(==)>(mem: map<N, Links<N>>, head: Option<N>, it: N): map<N, Links<N>>
    requires head.Some? ==> head.value in mem
  {
    var mem1 := mem[it := Links(head, None)];
    if head.Some? then mem1[head.value := mem1[head.value].(prev := Some(it))] else mem1
  }

  lemma FrontList<N>(mem: map<N, Links<N>>, head: Option<N>, tail: Option<N>, ids: seq<N>, it: N)
    requires IsList(mem, head, tail, ids) && it !in ids
    ensures head.Some? ==> head.value in mem && head.value in ids
    ensures IsList(LinkFront(mem, head, it), Some(it), if tail.None? then Some(it) else tail, [it] + ids)
  {
    assert NodeAt(mem, ids, 0);
    var mem', ids' := LinkFront(mem, head, it), [it] + ids;
    forall k
      ensures NodeAt(mem', ids', k)
    {
      assert NodeAt(mem, ids, k - 1);
      assert 0 < k < |ids'| ==> ids'[k] == ids[k - 1];
    }
  }

  // ----- a new tail (crawler_link_q)

  function LinkBack<N(==)>(mem: map<N, Links<N>>, tail: Option<N>, it: N): map<N, Links<N>>
    requires tail.Some? ==> tail.value in mem
  {
    var mem1 := mem[it := Links(None, tail)];
    if tail.Some? then mem1[tail.value := mem1[tail.value].(next := Some(it))] else mem1
  }

  lemma BackList<N>(mem: map<N, Links<N>>, head: Option<N>, tail: Option<N>, ids: seq<N>, it: N)
    requires IsList(mem, head, tail, ids) && it !in ids
    ensures tail.Some? ==> tail.value in mem && tail.value in ids
    ensures IsList(LinkBack(mem, tail, it), if head.None? then Some(it) else head, Some(it), ids + [it])
  {
    assert NodeAt(mem, ids, |ids| - 1);
    var mem', ids' := LinkBack(mem, tail, it), ids + [it];
    forall k
      ensures NodeAt(mem', ids', k)
    {
      assert NodeAt(mem, ids, k);
    }
  }

  // ----- taking a node out (item_unlink_q, crawler_unlink_q, slab_rebalance_move)

  function Unlink<N(==)>(mem: map<N, Links<N>>, it: N): map<N, Links<N>>
    requires it in mem && (mem[it].next.Some? ==> mem[it].next.value in mem) && (mem[it].prev.Some? ==> mem[it].prev.value in mem)
  {
    var next, prev := mem[it].next, mem[it].prev;
    var mem1 := if next.Some? then mem[next.value := mem[next.value].(prev := prev)] else mem;
    if prev.Some? then mem1[prev.value := mem1[prev.value].(next := next)] else mem1
  }

  lemma WithoutNode<N>(mem: map<N, Links<N>>, head: Option<N>, tail: Option<N>, ids: seq<N>, k: nat, j: int)
    requires IsList(mem, head, tail, ids) && k < |ids|
    requires ids[k] in mem && (mem[ids[k]].next.Some? ==> mem[ids[k]].next.value in mem) && (mem[ids[k]].prev.Some? ==> mem[ids[k]].prev.value in mem)
    ensures NodeAt(Unlink(mem, ids[k]), Without(ids, k), j)
  {
    var ids' := Without(ids, k);
    if 0 <= j < |ids'| {
      var i := if j < k then j else j + 1;
      assert ids'[j] == ids[i];
      assert NodeAt(mem, ids, i) && NodeAt(mem, ids, k);
    }
  }

  lemma WithoutList<N>(mem: map<N, Links<N>>, head: Option<N>, tail: Option<N>, ids: seq<N>, k: nat)
    requires IsList(mem, head, tail, ids) && k < |ids|
    ensures ids[k] in mem && (mem[ids[k]].next.Some? ==> mem[ids[k]].next.value in mem && mem[ids[k]].next.value in ids)
    ensures mem[ids[k]].prev.Some? ==> mem[ids[k]].prev.value in mem && mem[ids[k]].prev.value in ids
    ensures IsList(Unlink(mem, ids[k]), if head == Some(ids[k]) then mem[ids[k]].next else head,
                   if tail == Some(ids[k]) then mem[ids[k]].prev else tail, Without(ids, k))
    ensures forall n | n in mem && n !in ids :: Unlink(mem, ids[k])[n] == mem[n]
  {
    Neighbours(mem, head, tail, ids, k);
    var mem', ids' := Unlink(mem, ids[k]), Without(ids, k);
    forall j
      ensures NodeAt(mem', ids', j)
    {
      WithoutNode(mem, head, tail, ids, k, j);
    }
  }

  // ----- one place towards the head (crawler_crawl_q)

  /** The node and its predecessor change places, in the order of the source's stores. */
  function SwapPrev<N(==)>(mem: map<N, Links<N>>, it: N): map<N, Links<N>>
    requires it in mem && mem[it].prev.Some? && mem[it].prev.value in mem && mem[it].prev.value != it
    requires mem[it].next.Some? ==> mem[it].next.value in mem && mem[it].next.value != it
    requires mem[mem[it].prev.value].prev.Some? ==> mem[mem[it].prev.value].prev.value in mem
  {
    var p, n := mem[it].prev.value, mem[it].next;
    var mem1 := mem[p := mem[p].(next := n)];
    var mem2 := if n.Some? then mem1[n.value := mem1[n.value].(prev := Some(p))] else mem1;
    var mem3 := mem2[it := mem2[it].(next := Some(p))];
    var q := mem3[p].prev;
    var mem4 := mem3[it := mem3[it].(prev := q)];
    var mem5 := mem4[p := mem4[p].(prev := Some(it))];
    if q.Some? then mem5[q.value := mem5[q.value].(next := Some(it))] else mem5
  }

  function Swapped<N(==)>(ids: seq<N>, k: nat): seq<N>
    requires 0 < k < |ids|
  {
    ids[k - 1 := ids[k]][k := ids[k - 1]]
  }

  ghost predicate Swappable<N>(mem: map<N, Links<N>>, it: N) {
    && it in mem && mem[it].prev.Some? && mem[it].prev.value in mem && mem[it].prev.value != it
    && (mem[it].next.Some? ==> mem[it].next.value in mem && mem[it].next.value != it && mem[it].next != mem[it].prev)
    && (mem[mem[it].prev.value].prev.Some? ==> mem[mem[it].prev.value].prev.value in mem)
  }

  lemma SwapKnown<N>(mem: map<N, Links<N>>, head: Option<N>, tail: Option<N>, ids: seq<N>, k: nat)
    requires IsList(mem, head, tail, ids) && 0 < k < |ids|
    ensures Swappable(mem, ids[k])
  {
    Neighbours(mem, head, tail, ids, k);
    Neighbours(mem, head, tail, ids, k - 1);
  }

  lemma SwapNode<N>(mem: map<N, Links<N>>, head: Option<N>, tail: Option<N>, ids: seq<N>, k: nat, j: int)
    requires IsList(mem, head, tail, ids) && 0 < k < |ids| && Swappable(mem, ids[k])
    ensures NodeAt(SwapPrev(mem, ids[k]), Swapped(ids, k), j)
  {
    assert NodeAt(mem, ids, j) && NodeAt(mem, ids, k) && NodeAt(mem, ids, k - 1) && NodeAt(mem, ids, k + 1) && NodeAt(mem, ids, k - 2);
  }

  lemma SwapList<N>(mem: map<N, Links<N>>, head: Option<N>, tail: Option<N>, ids: seq<N>, k: nat)
    requires IsList(mem, head, tail, ids) && 0 < k < |ids| && Swappable(mem, ids[k])
    ensures IsList(SwapPrev(mem, ids[k]), if head == mem[ids[k]].prev then Some(ids[k]) else head,
                   if tail == Some(ids[k]) then mem[ids[k]].prev else tail, Swapped(ids, k))
    ensures forall n | n in mem && n !in ids :: SwapPrev(mem, ids[k])[n] == mem[n]
  {
    Neighbours(mem, head, tail, ids, k);
    Neighbours(mem, head, tail, ids, k - 1);
    var mem', ids' := SwapPrev(mem, ids[k]), Swapped(ids, k);
    forall j
      ensures NodeAt(mem', ids', j)
    {
      SwapNode(mem, head, tail, ids, k, j);
    }
    if 1 < k {
      assert ids[k - 2] in ids;
    }
  }

  /** Once it has stepped out, unlinking the crawler changes nothing. */
  lemma NoEffect<N>(mem: map<N, Links<N>>, head: Option<N>, tail: Option<N>, ids: seq<N>, it: N)
    requires IsList(mem, head, tail, ids) && ids != [] && it !in ids && it in mem && mem[it] == Links(Some(ids[0]), None)
    ensures ids[0] in mem && Unlink(mem, it) == mem && head != Some(it) && tail != Some(it)
  {
    Neighbours(mem, head, tail, ids, 0);
    Neighbours(mem, head, tail, ids, |ids| - 1);
  }

  lemma SwapMembers<N>(ids: seq<N>, k: nat)
    requires 0 < k < |ids|
    ensures forall n | n in Swapped(ids, k) :: n in ids
  {
  }
}
