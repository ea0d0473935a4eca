/** memcached's LRU queues: one doubly linked list per slab class, and the crawler, a node that
    moves through a list from tail to head. */
module Lru {
  import opened DoublyLinked
  import opened Lists
  import opened Store

  datatype Node = Item(id: nat) | Crawler(cls: nat)

  type Memory = map<Node, Links<Node>>

  // ----- the items of a list

  /** The real items, in order. */
  function Items(ids: seq<Node>): (items: seq<Node>)
    ensures |items| <= |ids|
  {
    if ids == [] then [] else (if ids[0].Item? then [ids[0]] else []) + Items(ids[1..])
  }

  lemma {:induction false} ItemsConcat(a: seq<Node>, b: seq<Node>)
    ensures Items(a + b) == Items(a) + Items(b)
  {
    if a == [] {
      assert a + b == b;
    } else {
      assert (a + b)[0] == a[0] && (a + b)[1..] == a[1..] + b;
      ItemsConcat(a[1..], b);
    }
  }

  lemma ItemsOne(n: Node)
    ensures Items([n]) == if n.Item? then [n] else []
  {
    assert [n][1..] == [];
  }

  lemma ItemsThree(a: seq<Node>, x: Node, b: seq<Node>)
    ensures Items(a + [x] + b) == if x.Item? then Items(a) + [x] + Items(b) else Items(a) + Items(b)
  {
    hide Items;
    ItemsConcat(a + [x], b);
    ItemsConcat(a, [x]);
    ItemsOne(x);
    assert Items(a) + [] == Items(a);
  }

  lemma ItemsWithout(ids: seq<Node>, k: nat)
    requires k < |ids|
    ensures ids[k].Crawler? ==> Items(Without(ids, k)) == Items(ids)
    ensures ids[k].Item? ==> Items(ids) == Items(ids[..k]) + [ids[k]] + Items(ids[k + 1..]) && Items(Without(ids, k)) == Items(ids[..k]) + Items(ids[k + 1..])
  {
    hide Items;
    assert ids == ids[..k] + [ids[k]] + ids[k + 1..];
    ItemsThree(ids[..k], ids[k], ids[k + 1..]);
    ItemsConcat(ids[..k], ids[k + 1..]);
  }

  /** A crawler step does not change the order of the items. */
  lemma SwapShape(ids: seq<Node>, k: nat)
    requires 0 < k < |ids|
    ensures ids == (ids[..k - 1] + [ids[k - 1]]) + [ids[k]] + ids[k + 1..]
    ensures Swapped(ids, k) == ids[..k - 1] + [ids[k]] + ([ids[k - 1]] + ids[k + 1..])
  {
  }

  lemma SwapKeepsItems(ids: seq<Node>, k: nat)
    requires 0 < k < |ids| && ids[k].Crawler?
    ensures Items(Swapped(ids, k)) == Items(ids)
  {
    SwapShape(ids, k);
    ItemsSwap(ids[..k - 1], ids[k - 1], ids[k], ids[k + 1..]);
  }

  lemma ItemsSwap(a: seq<Node>, p: Node, it: Node, b: seq<Node>)
    requires it.Crawler?
    ensures Items(a + [it] + ([p] + b)) == Items((a + [p]) + [it] + b)
  {
    hide Items;
    calc {
      Items((a + [p]) + [it] + b);
      { ItemsThree(a + [p], it, b); }
      Items(a + [p]) + Items(b);
      { ItemsConcat(a, [p]); }
      (Items(a) + Items([p])) + Items(b);
      { Associative(Items(a), Items([p]), Items(b)); }
      Items(a) + (Items([p]) + Items(b));
      { ItemsConcat([p], b); }
      Items(a) + Items([p] + b);
      { ItemsThree(a, it, [p] + b); }
      Items(a + [it] + ([p] + b));
    }
  }

  // ----- the queues

  /** Queue c, given where its list starts and ends and how many items it counts. */
  ghost predicate QueueOk(mem: Memory, clsid: map<Node, nat>, head: Option<Node>, tail: Option<Node>, size: int, ids: seq<Node>, c: nat) {
    && IsList(mem, head, tail, ids) && size == |Items(ids)|
    && (forall n | n in ids :: n in clsid && clsid[n] == c)
    && (forall n | n in ids && n.Crawler? :: n == Crawler(c))
  }

  /** A queue does not see changes to nodes that are not in it. */
  lemma OtherQueue(mem: Memory, clsid: map<Node, nat>, mem': Memory, clsid': map<Node, nat>, head: Option<Node>, tail: Option<Node>,
                   size: int, ids: seq<Node>, c: nat)
    requires QueueOk(mem, clsid, head, tail, size, ids, c)
    requires forall n | n in ids && n in mem :: n in mem' && mem'[n] == mem[n]
    requires forall n | n in ids && n in clsid :: n in clsid' && clsid'[n] == clsid[n]
    ensures QueueOk(mem', clsid', head, tail, size, ids, c)
  {
    ListFrame(mem, mem', head, tail, ids);
  }

  lemma QueueNeighbours(mem: Memory, clsid: map<Node, nat>, head: Option<Node>, tail: Option<Node>, size: int, ids: seq<Node>, c: nat, k: nat)
    requires QueueOk(mem, clsid, head, tail, size, ids, c) && k < |ids|
    ensures ids[k] in mem && mem[ids[k]] == Links(At(ids, k + 1), At(ids, k - 1)) && (head == Some(ids[k]) <==> k == 0)
    ensures k + 1 < |ids| ==> ids[k + 1] in mem && ids[k + 1] != ids[k] && tail != Some(ids[k])
  {
    Neighbours(mem, head, tail, ids, k);
  }

  /** A queue that loses its k-th node. */
  lemma WithoutQueue(mem: Memory, clsid: map<Node, nat>, head: Option<Node>, tail: Option<Node>, size: int, ids: seq<Node>, c: nat, k: nat)
    requires QueueOk(mem, clsid, head, tail, size, ids, c) && k < |ids|
    ensures ids[k] in mem && (mem[ids[k]].next.Some? ==> mem[ids[k]].next.value in mem) && (mem[ids[k]].prev.Some? ==> mem[ids[k]].prev.value in mem)
    ensures QueueOk(Unlink(mem, ids[k]), clsid, if head == Some(ids[k]) then mem[ids[k]].next else head,
                    if tail == Some(ids[k]) then mem[ids[k]].prev else tail, size - (if ids[k].Item? then 1 else 0), Without(ids, k), c)
    ensures forall n | n in mem && n !in ids :: Unlink(mem, ids[k])[n] == mem[n]
    ensures ids[k] !in Without(ids, k)
  {
    hide NodeAt;
    WithoutList(mem, head, tail, ids, k);
    ItemsWithout(ids, k);
  }

  ghost predicate QueueAt(mem: Memory, clsid: map<Node, nat>, heads: seq<Option<Node>>, tails: seq<Option<Node>>, sizes: seq<int>,
                          lists: seq<seq<Node>>, c: int) {
    0 <= c < |lists| && |heads| == |tails| == |sizes| == |lists| ==>
      QueueOk(mem, clsid, heads[c], tails[c], sizes[c], lists[c], c)
  }

  ghost predicate QueuesOk(mem: Memory, clsid: map<Node, nat>, heads: seq<Option<Node>>, tails: seq<Option<Node>>, sizes: seq<int>,
                           lists: seq<seq<Node>>) {
    && |heads| == |tails| == |sizes| == |lists|
    && forall c {:trigger QueueAt(mem, clsid, heads, tails, sizes, lists, c)} :: QueueAt(mem, clsid, heads, tails, sizes, lists, c)
  }

  /** Changing one queue, and no node outside it, keeps all of them well formed. */
  lemma OneQueueChanged(mem: Memory, clsid: map<Node, nat>, heads: seq<Option<Node>>, tails: seq<Option<Node>>, sizes: seq<int>,
                        lists: seq<seq<Node>>, mem': Memory, clsid': map<Node, nat>, c: nat, head: Option<Node>, tail: Option<Node>,
                        size: int, ids: seq<Node>, touched: set<Node>)
    requires QueuesOk(mem, clsid, heads, tails, sizes, lists) && c < |lists| && QueueOk(mem', clsid', head, tail, size, ids, c)
    requires forall n | n in mem && n !in touched :: n in mem' && mem'[n] == mem[n]
    requires forall n | n in clsid && n !in touched :: n in clsid' && clsid'[n] == clsid[n]
    requires forall n, j: nat | n in touched && j < |lists| && j != c :: n !in lists[j]
    ensures QueuesOk(mem', clsid', heads[c := head], tails[c := tail], sizes[c := size], lists[c := ids])
  {
    hide QueueOk;
    var heads', tails', sizes', lists' := heads[c := head], tails[c := tail], sizes[c := size], lists[c := ids];
    forall j
      ensures QueueAt(mem', clsid', heads', tails', sizes', lists', j)
    {
      assert QueueAt(mem, clsid, heads, tails, sizes, lists, j);
      if 0 <= j < |lists| && j != c {
        OtherQueue(mem, clsid, mem', clsid', heads[j], tails[j], sizes[j], lists[j], j);
      }
    }
  }

  ghost predicate Separate(lists: seq<seq<Node>>, c: nat) {
    forall j: nat, n | j < |lists| && j != c && c < |lists| && n in lists[j] :: n !in lists[c]
  }

  class Queues {
    var mem: Memory
    var heads: seq<Option<Node>>
    var tails: seq<Option<Node>>
    var sizes: seq<int>
    var clsid: map<Node, nat>        // slabs_clsid
    ghost var lists: seq<seq<Node>>

    /** Every queue is well formed and counted, and no node is in two. */
    ghost predicate Valid()
      reads this
    {
      QueuesOk(mem, clsid, heads, tails, sizes, lists)
    }

    constructor (n: nat)
      ensures Valid() && lists == seq(n, _ => [])
    {
      mem, clsid := map[], map[];
      heads, tails, sizes := seq(n, _ => None), seq(n, _ => None), seq(n, _ => 0);
      lists := seq(n, _ => []);
      new;
      assert forall c :: QueueAt(mem, clsid, heads, tails, sizes, lists, c);
    }

    /** No node is in two queues. */
    lemma NoSharing(c: nat)
      requires Valid() && c < |lists|
      ensures Separate(lists, c)
    {
      forall j: nat, n | j < |lists| && j != c && n in lists[j]
        ensures n !in lists[c]
      {
        assert QueueAt(mem, clsid, heads, tails, sizes, lists, c) && QueueAt(mem, clsid, heads, tails, sizes, lists, j);
      }
    }

    lemma This(c: nat)
      requires Valid() && c < |lists|
      ensures |heads| == |tails| == |sizes| == |lists| && QueueOk(mem, clsid, heads[c], tails[c], sizes[c], lists[c], c) && Separate(lists, c)
    {
      assert QueueAt(mem, clsid, heads, tails, sizes, lists, c);
      NoSharing(c);
    }

    /** item_link_q: the item becomes the head of queue c. */
    method LinkItem(it: Node, c: nat)
      requires Valid() && c < |lists| && it.Item? && forall j: nat | j < |lists| :: it !in lists[j]
      modifies this
      ensures Valid() && lists == old(lists)[c := [it] + old(lists[c])]
      ensures sizes == old(sizes)[c := old(sizes[c]) + 1]
    {
      hide QueuesOk;
      This(c);
      ghost var ids := lists[c];
      var head, tail := heads[c], tails[c];
      FrontList(mem, head, tail, ids, it);
      assert ([it] + ids)[1..] == ids;
      var clsid', mem' := clsid[it := c], LinkFront(mem, head, it);
      OneQueueChanged(mem, clsid, heads, tails, sizes, lists, mem', clsid', c, Some(it), if tail.None? then Some(it) else tail,
                      sizes[c] + 1, [it] + ids, {it} + set n | n in ids);
      clsid, mem := clsid', mem';
      heads := heads[c := Some(it)];
      tails := tails[c := if tail.None? then Some(it) else tail];
      sizes := sizes[c := sizes[c] + 1];
      lists := lists[c := [it] + ids];
    }

    /** item_unlink_q */
    method UnlinkItem(it: Node, c: nat, ghost k: nat)
      requires Valid() && c < |lists| && it.Item? && k < |lists[c]| && lists[c][k] == it
      modifies this
      ensures Valid() && lists == old(lists)[c := Without(old(lists[c]), k)]
      ensures sizes == old(sizes)[c := old(sizes[c]) - 1]
    {
      hide QueuesOk;
      This(c);
      ghost var ids := lists[c];
      WithoutQueue(mem, clsid, heads[c], tails[c], sizes[c], ids, c, k);
      var head := if heads[c] == Some(it) then mem[it].next else heads[c];
      var tail := if tails[c] == Some(it) then mem[it].prev else tails[c];
      var mem' := Unlink(mem, it);
      OneQueueChanged(mem, clsid, heads, tails, sizes, lists, mem', clsid, c, head, tail, sizes[c] - 1, Without(ids, k), set n | n in ids);
      heads, tails, mem := heads[c := head], tails[c := tail], mem';
      sizes := sizes[c := sizes[c] - 1];
      lists := lists[c := Without(ids, k)];
    }

    /** The queue part of do_item_update: the item moves to the front. */
    method UpdateItem(it: Node, c: nat, ghost k: nat)
      requires Valid() && c < |lists| && it.Item? && k < |lists[c]| && lists[c][k] == it
      modifies this
      ensures Valid() && lists == old(lists)[c := [it] + Without(old(lists[c]), k)] && sizes == old(sizes)
    {
      This(c);
      WithoutQueue(mem, clsid, heads[c], tails[c], sizes[c], lists[c], c, k);
      assert forall j: nat | j < |lists| && j != c :: it !in lists[j] by {
        assert it in lists[c];
      }
      UnlinkItem(it, c, k);
      LinkItem(it, c);
    }

    /** crawler_link_q: the crawler of a queue that is not empty becomes its tail. */
    method LinkCrawler(c: nat)
      requires Valid() && c < |lists| && lists[c] != [] && Crawler(c) !in lists[c]
      modifies this
      ensures Valid() && lists == old(lists)[c := old(lists[c]) + [Crawler(c)]] && sizes == old(sizes)
    {
      NotElsewhere(c);
      hide QueuesOk;
      This(c);
      ghost var ids := lists[c];
      var it := Crawler(c);
      BackList(mem, heads[c], tails[c], ids, it);
      ItemsConcat(ids, [it]);
      ItemsOne(it);
      assert heads[c].Some?;
      var clsid', mem' := clsid[it := c], LinkBack(mem, tails[c], it);
      OneQueueChanged(mem, clsid, heads, tails, sizes, lists, mem', clsid', c, heads[c], Some(it), sizes[c], ids + [it], {it} + set n | n in ids);
      clsid, mem := clsid', mem';
      tails := tails[c := Some(it)];
      lists := lists[c := ids + [it]];
      assert heads[c := heads[c]] == heads && sizes[c := sizes[c]] == sizes;
    }

    lemma NotElsewhere(c: nat)
      requires Valid()
      ensures forall j: nat | j < |lists| && j != c :: Crawler(c) !in lists[j]
    {
      forall j: nat | j < |lists| && j != c
        ensures Crawler(c) !in lists[j]
      {
        assert QueueAt(mem, clsid, heads, tails, sizes, lists, j);
      }
    }

    /** crawler_crawl_q at the head: the crawler steps out of the list, unless it is alone. */
    method StepOut(c: nat)
      requires Valid() && c < |lists| && lists[c] != [] && lists[c][0] == Crawler(c)
      modifies this
      ensures Valid() && sizes == old(sizes)
      ensures lists == if |old(lists[c])| > 1 then old(lists)[c := old(lists[c])[1..]] else old(lists)
      ensures |old(lists[c])| > 1 ==> LeftBehind(c)
    {
      hide QueuesOk, QueueOk, IsList;
      This(c);
      ghost var ids := lists[c];
      var it := Crawler(c);
      QueueNeighbours(mem, clsid, heads[c], tails[c], sizes[c], ids, c, 0);
      if mem[it].next.Some? {
        var n := mem[it].next.value;
        WithoutQueue(mem, clsid, heads[c], tails[c], sizes[c], ids, c, 0);
        assert Without(ids, 0) == ids[1..];
        var mem' := mem[n := mem[n].(prev := None)];
        assert mem' == Unlink(mem, it);
        OneQueueChanged(mem, clsid, heads, tails, sizes, lists, mem', clsid, c, Some(n), tails[c], sizes[c], ids[1..], set n | n in ids);
        assert tails[c := tails[c]] == tails && sizes[c := sizes[c]] == sizes;
        heads, mem, lists := heads[c := Some(n)], mem', lists[c := ids[1..]];
      }
    }

    /** crawler_crawl_q elsewhere: the crawler changes places with the node before it. */
    method SwapStep(c: nat, ghost k: nat) returns (search: Node)
      requires Valid() && c < |lists| && 0 < k < |lists[c]| && lists[c][k] == Crawler(c)
      modifies this
      ensures Valid() && sizes == old(sizes)
      ensures search == old(lists[c])[k - 1] && lists == old(lists)[c := Swapped(old(lists[c]), k)]
    {
      hide QueuesOk;
      This(c);
      ghost var ids := lists[c];
      var it := Crawler(c);
      Neighbours(mem, heads[c], tails[c], ids, k);
      SwapKnown(mem, heads[c], tails[c], ids, k);
      SwapList(mem, heads[c], tails[c], ids, k);
      SwapKeepsItems(ids, k);
      SwapMembers(ids, k);
      var p := mem[it].prev.value;
      var head := if heads[c] == Some(p) then Some(it) else heads[c];
      var tail := if tails[c] == Some(it) then Some(p) else tails[c];
      var mem' := SwapPrev(mem, it);
      OneQueueChanged(mem, clsid, heads, tails, sizes, lists, mem', clsid, c, head, tail, sizes[c], Swapped(ids, k), set n | n in ids);
      assert sizes[c := sizes[c]] == sizes;
      heads, tails, mem := heads[c := head], tails[c := tail], mem';
      lists := lists[c := Swapped(ids, k)];
      assert NodeAt(mem, lists[c], k - 1);
      search := mem[it].next.value;
    }

    /** crawler_crawl_q: the node to look at next, or none once the head is reached. */
    method CrawlStep(c: nat, ghost k: nat) returns (search: Option<Node>)
      requires Valid() && c < |lists| && k < |lists[c]| && lists[c][k] == Crawler(c)
      modifies this
      ensures Valid() && sizes == old(sizes)
      ensures 0 < k ==> search == Some(old(lists[c])[k - 1]) && lists == old(lists)[c := Swapped(old(lists[c]), k)]
      ensures k == 0 ==> search == None && lists == if |old(lists[c])| > 1 then old(lists)[c := old(lists[c])[1..]] else old(lists)
      ensures k == 0 && |old(lists[c])| > 1 ==> LeftBehind(c)
    {
      This(c);
      Neighbours(mem, heads[c], tails[c], lists[c], k);
      if mem[Crawler(c)].prev.None? {
        StepOut(c);
        return None;
      }
      var n := SwapStep(c, k);
      return Some(n);
    }

    /** The crawler has left the list and still points at its head. */
    ghost predicate LeftBehind(c: nat)
      reads this
    {
      && c < |lists| && lists[c] != [] && Crawler(c) !in lists[c] && Crawler(c) in mem
      && mem[Crawler(c)] == Links(Some(lists[c][0]), None)
    }

    /** crawler_unlink_q, wherever the crawler is, and after it has stepped out. */
    method UnlinkCrawler(c: nat, ghost k: nat)
      requires Valid() && c < |lists| && if k < |lists[c]| then lists[c][k] == Crawler(c) else LeftBehind(c)
      modifies this
      ensures Valid() && sizes == old(sizes)
      ensures lists == if k < |old(lists[c])| then old(lists)[c := Without(old(lists[c]), k)] else old(lists)
    {
      hide QueuesOk;
      This(c);
      var it := Crawler(c);
      ghost var ids := lists[c];
      ghost var ids' := if k < |ids| then Without(ids, k) else ids;
      if k < |ids| {
        WithoutQueue(mem, clsid, heads[c], tails[c], sizes[c], ids, c, k);
      } else {
        NoEffect(mem, heads[c], tails[c], ids, it);
      }
      var head := if heads[c] == Some(it) then mem[it].next else heads[c];
      var tail := if tails[c] == Some(it) then mem[it].prev else tails[c];
      var mem' := Unlink(mem, it);
      OneQueueChanged(mem, clsid, heads, tails, sizes, lists, mem', clsid, c, head, tail, sizes[c], ids', set n | n in ids);
      assert sizes[c := sizes[c]] == sizes && lists[c := lists[c]] == lists;
      heads, tails, mem := heads[c := head], tails[c := tail], mem';
      lists := lists[c := ids'];
    }

    /** An undisturbed crawl without a limit visits every node once, from tail to head, and
        leaves the queue as it was. */
    method Crawl(c: nat) returns (visited: seq<Node>)
      requires Valid() && c < |lists| && lists[c] != [] && Crawler(c) !in lists[c]
      modifies this
      ensures Valid() && lists == old(lists) && sizes == old(sizes)
      ensures visited == Reverse(old(lists[c]))
    {
      hide QueuesOk;
      ghost var all, ids, k: nat := lists, lists[c], |lists[c]|;
      LinkCrawler(c);
      visited := [];
      var more := true;
      assert ids[..k] + [Crawler(c)] + ids[k..] == ids + [Crawler(c)];
      while more
        invariant Valid() && |lists| == |all| && sizes == old(sizes)
        invariant more ==> k <= |ids| && lists == all[c := ids[..k] + [Crawler(c)] + ids[k..]] && visited == Reverse(ids[k..])
        invariant !more ==> lists == all && LeftBehind(c) && visited == Reverse(ids)
        decreases more, k
      {
        var search := CrawlStep(c, k);
        if search.Some? {
          visited := visited + [search.value];
          Passed(ids, k, Crawler(c));
          k := k - 1;
        } else {
          assert ids[..0] + [Crawler(c)] + ids[0..] == [Crawler(c)] + ids && ([Crawler(c)] + ids)[1..] == ids && ids[0..] == ids;
          assert lists == all;
          more := false;
        }
      }
      UnlinkCrawler(c, |ids|);
    }
  }

  function Reverse(ids: seq<Node>): seq<Node> {
    if ids == [] then [] else Reverse(ids[1..]) + [ids[0]]
  }

  lemma Passed(ids: seq<Node>, k: nat, it: Node)
    requires 0 < k <= |ids|
    ensures Swapped(ids[..k] + [it] + ids[k..], k) == ids[..k - 1] + [it] + ids[k - 1..]
    ensures (ids[..k] + [it] + ids[k..])[k - 1] == ids[k - 1]
    ensures Reverse(ids[k - 1..]) == Reverse(ids[k..]) + [ids[k - 1]]
  {
    assert ids[k - 1..][1..] == ids[k..];
  }

  /** Each node is visited as often as it is in the list. */
  lemma {:induction false} ReverseVisitsAll(ids: seq<Node>)
    ensures multiset(Reverse(ids)) == multiset(ids)
  {
    if ids != [] {
      ReverseVisitsAll(ids[1..]);
      assert ids == [ids[0]] + ids[1..];
    }
  }
}
