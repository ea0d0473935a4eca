/** flush_all without a delay: what it hides, and for how long. */
module FlushAll {
  import opened DoublyLinked
  import opened Lists
  import opened Lru
  import opened Store

  const UPDATE_INTERVAL: nat := 60

  /** The clock, settings.oldest_live, the LRU queues, each item's time and class, and the
      items somebody holds a reference to. Every store is an item of its own. */
  datatype Cache = Cache(now: nat, oldestLive: nat, lists: seq<seq<Node>>, time: map<Node, nat>, cls: map<Node, nat>, held: set<Node>)

  // ----- the walk of do_item_flush_expired

  /** A crawler's time is 0. */
  function TimeOf(time: map<Node, nat>, n: Node): nat {
    if n.Item? && n in time then time[n] else 0
  }

  /** The walk goes on: the node is real and not older than oldest_live. */
  predicate Recent(time: map<Node, nat>, oldest: nat, n: Node) {
    TimeOf(time, n) != 0 && TimeOf(time, n) >= oldest
  }

  /** What is left of a queue: everything from the first node on that stops the walk. */
  function FlushedList(ids: seq<Node>, time: map<Node, nat>, oldest: nat): seq<Node> {
    if ids == [] || !Recent(time, oldest, ids[0]) then ids else FlushedList(ids[1..], time, oldest)
  }

  /** The walk takes out the d first nodes, all of them recent, and stops at one that is not. */
  lemma {:induction false} FlushedSuffix(ids: seq<Node>, time: map<Node, nat>, oldest: nat) returns (d: nat)
    ensures d <= |ids| && FlushedList(ids, time, oldest) == ids[d..]
    ensures forall k | 0 <= k < d :: Recent(time, oldest, ids[k])
    ensures d < |ids| ==> !Recent(time, oldest, ids[d])
  {
    if ids == [] || !Recent(time, oldest, ids[0]) {
      d := 0;
    } else {
      var d' := FlushedSuffix(ids[1..], time, oldest);
      d := d' + 1;
      assert ids[1..][d'..] == ids[d..];
      assert forall k | 0 < k < d :: ids[k] == ids[1..][k - 1];
    }
  }

  method FlushQueue(ids: seq<Node>, time: map<Node, nat>, oldest: nat) returns (rest: seq<Node>)
    ensures rest == FlushedList(ids, time, oldest)
  {
    rest := ids;
    while rest != [] && Recent(time, oldest, rest[0])
      invariant FlushedList(rest, time, oldest) == FlushedList(ids, time, oldest)
      decreases |rest|
    {
      rest := rest[1..];
    }
  }

  /** do_item_flush_expired */
  method FlushExpired(lists: seq<seq<Node>>, time: map<Node, nat>, oldest: nat) returns (lists': seq<seq<Node>>)
    ensures |lists'| == |lists|
    ensures oldest == 0 ==> lists' == lists
    ensures oldest != 0 ==> forall c | 0 <= c < |lists| :: lists'[c] == FlushedList(lists[c], time, oldest)
  {
    lists' := lists;
    if oldest == 0 {
      return;
    }
    for i := 0 to |lists|
      invariant |lists'| == |lists|
      invariant forall c | i <= c < |lists| :: lists'[c] == lists[c]
      invariant forall c | 0 <= c < i :: lists'[c] == FlushedList(lists[c], time, oldest)
    {
      var rest := FlushQueue(lists'[i], time, oldest);
      lists' := lists'[i := rest];
    }
  }

  function Flush(s: Cache): Cache
    requires 1 < s.now
  {
    s.(oldestLive := s.now - 1, lists := seq(|s.lists|, c requires 0 <= c < |s.lists| => FlushedList(s.lists[c], s.time, s.now - 1)))
  }

  // ----- the other steps

  /** do_item_get's lazy check. */
  predicate Hidden(s: Cache, it: Node)
    requires it in s.time
  {
    s.oldestLive != 0 && s.oldestLive <= s.now && s.time[it] <= s.oldestLive
  }

  ghost predicate Linked(s: Cache, it: Node) {
    it in s.cls && s.cls[it] < |s.lists| && it in s.lists[s.cls[it]]
  }

  /** A get would return the item. */
  ghost predicate Reachable(s: Cache, it: Node) {
    it in s.time && Linked(s, it) && !Hidden(s, it)
  }

  datatype Action =
    | Tick(now: nat)
    | Store(it: Node, c: nat)
    | Remove(c: nat, k: nat)           // deleted, replaced, evicted or expired
    | Get(it: Node)
    | Bump(c: nat, k: nat)             // do_item_update by someone who holds the item
    | Release(it: Node)
    | CrawlerOn(c: nat) | CrawlerStep(c: nat, k: nat) | CrawlerOff(c: nat, k: nat)

  ghost predicate OldEnough(s: Cache, it: Node) {
    it in s.time && s.time[it] + UPDATE_INTERVAL < s.now
  }

  ghost predicate Next(s: Cache, a: Action, s': Cache) {
    match a
    case Tick(now) => s.now <= now && s' == s.(now := now)
    case Store(it, c) =>
      && c < |s.lists| && it.Item? && it !in s.time && it !in s.cls && it !in s.held
      && s' == s.(lists := s.lists[c := [it] + s.lists[c]], time := s.time[it := s.now], cls := s.cls[it := c])
    case Remove(c, k) =>
      c < |s.lists| && k < |s.lists[c]| && s.lists[c][k].Item? && s' == s.(lists := s.lists[c := Without(s.lists[c], k)])
    case Get(it) => it.Item? && Reachable(s, it) && s' == s.(held := s.held + {it})
    case Bump(c, k) =>
      && c < |s.lists| && k < |s.lists[c]| && s.lists[c][k].Item? && s.lists[c][k] in s.held && OldEnough(s, s.lists[c][k])
      && var it := s.lists[c][k];
         s' == s.(lists := s.lists[c := [it] + Without(s.lists[c], k)], time := s.time[it := s.now])
    case Release(it) => s' == s.(held := s.held - {it})
    case CrawlerOn(c) =>
      && c < |s.lists| && s.lists[c] != [] && Crawler(c) !in s.lists[c]
      && s' == s.(lists := s.lists[c := s.lists[c] + [Crawler(c)]])
    case CrawlerStep(c, k) =>
      c < |s.lists| && 0 < k < |s.lists[c]| && s.lists[c][k] == Crawler(c) && s' == s.(lists := s.lists[c := Swapped(s.lists[c], k)])
    case CrawlerOff(c, k) =>
      c < |s.lists| && k < |s.lists[c]| && s.lists[c][k] == Crawler(c) && s' == s.(lists := s.lists[c := Without(s.lists[c], k)])
  }

  ghost predicate IsRun(run: seq<Cache>, actions: seq<Action>) {
    |run| == |actions| + 1 && forall i {:trigger StepAt(run, actions, i)} :: StepAt(run, actions, i)
  }

  ghost predicate StepAt(run: seq<Cache>, actions: seq<Action>, i: int) {
    0 <= i < |actions| && i + 1 < |run| ==> Next(run[i], actions[i], run[i + 1])
  }

  // ----- queues are in order of time

  /** Nearer the head is at least as recent. */
  ghost predicate Ordered(ids: seq<Node>, time: map<Node, nat>) {
    forall i, j | 0 <= i < j < |ids| && ids[i].Item? && ids[j].Item? :: TimeOf(time, ids[j]) <= TimeOf(time, ids[i])
  }

  ghost predicate ListOk(ids: seq<Node>, time: map<Node, nat>, cls: map<Node, nat>, now: nat, c: nat) {
    && NoRepeats(ids) && Ordered(ids, time)
    && forall n | n in ids && n.Item? :: n in time && n in cls && cls[n] == c && 0 < time[n] <= now
  }

  ghost predicate ListAt(s: Cache, c: int) {
    0 <= c < |s.lists| ==> ListOk(s.lists[c], s.time, s.cls, s.now, c)
  }

  /** The clock starts two seconds past the update interval. */
  ghost predicate Inv(s: Cache) {
    UPDATE_INTERVAL + 2 <= s.now && forall c {:trigger ListAt(s, c)} :: ListAt(s, c)
  }

  lemma FrontOrdered(ids: seq<Node>, time: map<Node, nat>, cls: map<Node, nat>, now: nat, c: nat, it: Node)
    requires ListOk(ids, time, cls, now, c) && it !in ids && 0 < now && it in cls && cls[it] == c
    ensures ListOk([it] + ids, time[it := now], cls, now, c)
  {
    var ids', time' := [it] + ids, time[it := now];
    forall i, j | 0 <= i < j < |ids'| && ids'[i].Item? && ids'[j].Item?
      ensures TimeOf(time', ids'[j]) <= TimeOf(time', ids'[i])
    {
      assert ids'[j] == ids[j - 1] && ids[j - 1] in ids;
      assert 0 < i ==> ids'[i] == ids[i - 1] && ids[i - 1] in ids;
    }
  }

  lemma WithoutOrdered(ids: seq<Node>, time: map<Node, nat>, cls: map<Node, nat>, now: nat, c: nat, k: nat)
    requires ListOk(ids, time, cls, now, c) && k < |ids|
    ensures ListOk(Without(ids, k), time, cls, now, c) && ids[k] !in Without(ids, k)
  {
    var ids' := Without(ids, k);
    assert forall i | 0 <= i < |ids'| :: ids'[i] == ids[if i < k then i else i + 1];
  }

  lemma SwappedOrdered(ids: seq<Node>, time: map<Node, nat>, cls: map<Node, nat>, now: nat, c: nat, k: nat)
    requires ListOk(ids, time, cls, now, c) && 0 < k < |ids| && ids[k].Crawler?
    ensures ListOk(Swapped(ids, k), time, cls, now, c)
  {
  }

  lemma OtherListOk(ids: seq<Node>, time: map<Node, nat>, cls: map<Node, nat>, now: nat, c: nat, time': map<Node, nat>, cls': map<Node, nat>, now': nat)
    requires ListOk(ids, time, cls, now, c) && now <= now'
    requires forall n | n in ids && n in time :: n in time' && time'[n] == time[n]
    requires forall n | n in ids && n in cls :: n in cls' && cls'[n] == cls[n]
    ensures ListOk(ids, time', cls', now', c)
  {
  }

  lemma StepListAt(s: Cache, a: Action, s': Cache, c: int)
    requires Inv(s) && Next(s, a, s')
    ensures ListAt(s', c)
  {
    hide ListOk, NoRepeats, Ordered;
    assert ListAt(s, c);
    if 0 <= c < |s'.lists| {
      match a
      case Tick(now) => OtherListOk(s.lists[c], s.time, s.cls, s.now, c, s.time, s.cls, now);
      case Store(it, d) =>
        FreshStore(s, it, c);
        OtherListOk(s.lists[c], s.time, s.cls, s.now, c, s.time, s'.cls, s.now);
        if c == d {
          FrontOrdered(s.lists[c], s.time, s'.cls, s.now, c, it);
        } else {
          OtherListOk(s.lists[c], s.time, s.cls, s.now, c, s'.time, s'.cls, s.now);
        }
      case Remove(d, k) =>
        if c == d {
          WithoutOrdered(s.lists[c], s.time, s.cls, s.now, c, k);
        }
      case Bump(d, k) => BumpListAt(s, d, k, s', c);
      case CrawlerOn(d) =>
        if c == d {
          BackOrdered(s.lists[c], s.time, s.cls, s.now, c);
        }
      case CrawlerStep(d, k) =>
        if c == d {
          SwappedOrdered(s.lists[c], s.time, s.cls, s.now, c, k);
        }
      case CrawlerOff(d, k) =>
        if c == d {
          WithoutOrdered(s.lists[c], s.time, s.cls, s.now, c, k);
        }
      case _ =>
    }
  }

  lemma BackOrdered(ids: seq<Node>, time: map<Node, nat>, cls: map<Node, nat>, now: nat, c: nat)
    requires ListOk(ids, time, cls, now, c) && Crawler(c) !in ids
    ensures ListOk(ids + [Crawler(c)], time, cls, now, c)
  {
  }

  lemma FreshStore(s: Cache, it: Node, c: nat)
    requires Inv(s) && it.Item? && it !in s.time && c < |s.lists|
    ensures it !in s.lists[c]
  {
    assert ListAt(s, c);
  }

  lemma BumpListAt(s: Cache, d: nat, k: nat, s': Cache, c: nat)
    requires Inv(s) && Next(s, Bump(d, k), s') && c < |s.lists|
    ensures ListAt(s', c)
  {
    hide NoRepeats, Ordered;
    assert ListAt(s, c) && ListAt(s, d);
    var it := s.lists[d][k];
    assert it in s.lists[d];
    if c == d {
      WithoutOrdered(s.lists[c], s.time, s.cls, s.now, c, k);
      FrontOrdered(Without(s.lists[c], k), s.time, s.cls, s.now, c, it);
    } else {
      OtherListOk(s.lists[c], s.time, s.cls, s.now, c, s'.time, s.cls, s.now);
    }
  }

  lemma StepInv(s: Cache, a: Action, s': Cache)
    requires Inv(s) && Next(s, a, s')
    ensures Inv(s')
  {
    forall c
      ensures ListAt(s', c)
    {
      StepListAt(s, a, s', c);
    }
  }

  lemma FlushInv(s: Cache)
    requires Inv(s)
    ensures Inv(Flush(s))
  {
    var s' := Flush(s);
    forall c
      ensures ListAt(s', c)
    {
      assert ListAt(s, c);
      if 0 <= c < |s.lists| {
        var d := FlushedSuffix(s.lists[c], s.time, s.now - 1);
        assert s'.lists[c] == s.lists[c][d..];
      }
    }
  }

  // ----- what a flush leaves

  /** A crawler comes before the item in its queue. */
  ghost predicate CrawlerAhead(ids: seq<Node>, it: Node) {
    exists i, j | 0 <= i < j < |ids| :: ids[i].Crawler? && ids[j] == it
  }

  /** The item stays linked: it is older than oldest_live, or the walk stops at a crawler. */
  ghost predicate Survives(s: Cache, it: Node) {
    Linked(s, it) && it in s.time && (s.time[it] + 1 < s.now || CrawlerAhead(s.lists[s.cls[it]], it))
  }

  lemma FlushedHas(ids: seq<Node>, time: map<Node, nat>, cls: map<Node, nat>, now: nat, c: nat, oldest: nat, it: Node)
    requires ListOk(ids, time, cls, now, c) && it.Item? && it in ids && it in time && 0 < oldest
    ensures it in FlushedList(ids, time, oldest) <==> time[it] < oldest || CrawlerAhead(ids, it)
  {
    var d := FlushedSuffix(ids, time, oldest);
    var j :| 0 <= j < |ids| && ids[j] == it;
    assert it in ids[d..] <==> d <= j by {
      assert d <= j ==> ids[d..][j - d] == it;
    }
    if d <= j {
      if ids[d].Item? {
        assert ids[d] in ids;
        assert TimeOf(time, ids[j]) <= TimeOf(time, ids[d]);
      }
    } else {
      assert Recent(time, oldest, ids[j]);
      assert forall i | 0 <= i < j :: Recent(time, oldest, ids[i]);
    }
  }

  lemma FlushLinked(s: Cache, it: Node)
    requires Inv(s) && it.Item? && it in s.time
    ensures Linked(Flush(s), it) <==> Survives(s, it)
  {
    if it in s.cls && s.cls[it] < |s.lists| {
      var c := s.cls[it];
      assert ListAt(s, c);
      var d := FlushedSuffix(s.lists[c], s.time, s.now - 1);
      assert Flush(s).lists[c] == s.lists[c][d..];
      if it in s.lists[c] {
        FlushedHas(s.lists[c], s.time, s.cls, s.now, c, s.now - 1, it);
      }
    }
  }

  /** What a flush leaves reachable: exactly the items of the current second that have a
      crawler ahead of them. Without a crawler nothing is. */
  lemma FlushExact(s: Cache, it: Node)
    requires Inv(s) && it.Item? && it in s.time
    ensures Reachable(Flush(s), it) <==> Linked(s, it) && s.time[it] == s.now && CrawlerAhead(s.lists[s.cls[it]], it)
  {
    FlushLinked(s, it);
    if Linked(s, it) {
      assert ListAt(s, s.cls[it]);
    }
  }

  // ----- and for how long

  /** Someone who got the item before the flush may still update it, or it was not hidden at
      all. */
  ghost predicate Exposed(s: Cache, it: Node) {
    Survives(s, it) && (it in s.held || (s.time[it] == s.now && CrawlerAhead(s.lists[s.cls[it]], it)))
  }

  /** Hidden, and nobody holds it: or gone. */
  ghost predicate Gone(s: Cache, it: Node) {
    it in s.time && it in s.cls && (Linked(s, it) ==> Hidden(s, it) && it !in s.held)
  }

  lemma GoneStays(s: Cache, a: Action, s': Cache, it: Node)
    requires Inv(s) && it.Item? && Gone(s, it) && Next(s, a, s')
    ensures Gone(s', it)
  {
    var c := s.cls[it];
    assert ListAt(s, c);
    match a
    case Bump(d, k) =>
      assert ListAt(s, d);
      assert s.lists[d][k] in s.lists[d];
    case Store(_, d) =>
      assert ListAt(s, d);
    case CrawlerStep(d, k) =>
      SwapMembers(s.lists[d], k);
    case _ =>
  }

  /** Once flushed and not exposed, an item is never returned again, whatever happens, until
      oldest_live is changed. */
  lemma {:induction false} FlushHides(s: Cache, it: Node, run: seq<Cache>, actions: seq<Action>, n: nat)
    requires Inv(s) && it.Item? && it in s.time && it in s.cls && !Exposed(s, it)
    requires IsRun(run, actions) && run[0] == Flush(s) && n < |run|
    ensures Inv(run[n]) && Gone(run[n], it) && !Reachable(run[n], it)
  {
    if n == 0 {
      FlushInv(s);
      FlushLinked(s, it);
      FlushExact(s, it);
      if Linked(s, it) {
        assert ListAt(s, s.cls[it]);
      }
    } else {
      FlushHides(s, it, run, actions, n - 1);
      assert StepAt(run, actions, n - 1);
      StepInv(run[n - 1], actions[n - 1], run[n]);
      GoneStays(run[n - 1], actions[n - 1], run[n], it);
    }
  }

  /** And an exposed item does come back: the condition is exact. */
  lemma FlushFails(s: Cache, it: Node) returns (run: seq<Cache>, actions: seq<Action>)
    requires Inv(s) && it.Item? && Exposed(s, it)
    ensures IsRun(run, actions) && run[0] == Flush(s) && Reachable(run[|run| - 1], it)
  {
    var s0 := Flush(s);
    FlushInv(s);
    FlushLinked(s, it);
    FlushExact(s, it);
    if Reachable(s0, it) {
      run, actions := [s0], [];
    } else {
      run, actions := Resurrect(s0, it);
    }
  }

  /** Whoever holds a hidden item that is still linked brings it back, if slow enough. */
  lemma Resurrect(s0: Cache, it: Node) returns (run: seq<Cache>, actions: seq<Action>)
    requires Inv(s0) && it.Item? && it in s0.time && Linked(s0, it) && Hidden(s0, it) && it in s0.held
    ensures IsRun(run, actions) && run[0] == s0 && Reachable(run[|run| - 1], it)
  {
    var c := s0.cls[it];
    assert ListAt(s0, c);
    var k :| 0 <= k < |s0.lists[c]| && s0.lists[c][k] == it;
    var s1 := s0.(now := s0.now + UPDATE_INTERVAL + 1);
    var s2 := s1.(lists := s1.lists[c := [it] + Without(s1.lists[c], k)], time := s1.time[it := s1.now]);
    run, actions := [s0, s1, s2], [Tick(s1.now), Bump(c, k)];
    assert Next(s0, actions[0], s1) && Next(s1, actions[1], s2);
    assert s2.lists[c][0] == it;
  }

  /** An empty cache of n queues. */
  function Started(now: nat, n: nat): Cache {
    Cache(now, 0, seq(n, _ => []), map[], map[], {})
  }

  lemma StartedInv(now: nat, n: nat)
    requires UPDATE_INTERVAL + 2 <= now
    ensures Inv(Started(now, n))
  {
    assert forall c :: ListAt(Started(now, n), c);
  }

  /** A run from an empty cache after which a flush misses an item that nobody holds: a crawler
      has passed the item within the second of its store. */
  lemma CrawlerShields(now: nat) returns (run: seq<Cache>, actions: seq<Action>, it: Node)
    requires UPDATE_INTERVAL + 2 <= now
    ensures IsRun(run, actions) && run[0] == Started(now, 1)
    ensures var s := run[|run| - 1];
            Inv(s) && it.Item? && it !in s.held && Reachable(s, it) && Reachable(Flush(s), it)
  {
    it := Item(1);
    var s0 := Started(now, 1);
    var s1 := s0.(lists := [[it]], time := map[it := now], cls := map[it := 0]);
    var s2 := s1.(lists := [[it, Crawler(0)]]);
    var s3 := s1.(lists := [[Crawler(0), it]]);
    run, actions := [s0, s1, s2, s3], [Store(it, 0), CrawlerOn(0), CrawlerStep(0, 1)];
    StartedInv(now, 1);
    StoreStep(s0, it, s1);
    assert Next(s1, CrawlerOn(0), s2) by {
      assert [it] + [Crawler(0)] == [it, Crawler(0)] && s1.lists[0 := [it, Crawler(0)]] == s2.lists;
    }
    assert Next(s2, CrawlerStep(0, 1), s3) by {
      assert Swapped([it, Crawler(0)], 1) == [Crawler(0), it] && s2.lists[0 := [Crawler(0), it]] == s3.lists;
    }
    StepInv(s0, actions[0], s1);
    StepInv(s1, actions[1], s2);
    StepInv(s2, actions[2], s3);
    assert CrawlerAhead(s3.lists[0], it) by {
      assert s3.lists[0][0].Crawler? && s3.lists[0][1] == it;
    }
    FlushExact(s3, it);
  }

  lemma StoreStep(s0: Cache, it: Node, s1: Cache)
    requires s0 == Started(s0.now, 1) && it.Item? && s1 == s0.(lists := [[it]], time := map[it := s0.now], cls := map[it := 0])
    ensures Next(s0, Store(it, 0), s1)
  {
    assert [it] + s0.lists[0] == [it] && s0.lists[0 := [it]] == s1.lists;
  }

  /** An item is moved to the front only once a minute: an update sooner does nothing. */
  lemma OnlyOldItemsMove(s: Cache, c: nat, k: nat, s': Cache)
    requires Next(s, Bump(c, k), s')
    ensures c < |s.lists| && k < |s.lists[c]| && s.lists[c][k] in s.time && s.time[s.lists[c][k]] + 60 < s.now
    ensures s'.lists[c][0] == s.lists[c][k] && s'.time == s.time[s.lists[c][k] := s.now]
  {
  }
}
