/** DBImpl::Write and BuildBatchGroup: concurrent writers queue up, and the one at
    the front commits a whole prefix of the queue as a single log record. */
module GroupCommit {
  import opened Store
  import opened WriteBatch

  /** A call of Write; a null batch only waits for earlier writes to finish. */
  datatype Request = Request(batch: Option<Batch>, sync: bool)

  const SMALL: nat := 0x2_0000     // 128 << 10
  const LARGE: nat := 0x10_0000    // 1 << 20

  function MaxGroupSize(first: nat): nat {
    if first <= SMALL then first + SMALL else LARGE
  }

  function BatchOf(r: Request): Batch {
    if r.batch.Some? then r.batch.value else EMPTY
  }

  function Size(r: Request): nat {
    if r.batch.Some? then ByteSize(r.batch.value) else 0
  }

  /** The batches appended to one another. */
  function Joined(rs: seq<Request>): Batch {
    if rs == [] then EMPTY else Append(Joined(rs[..|rs| - 1]), BatchOf(rs[|rs| - 1]))
  }

  /** The operations of the batches, one after the other. */
  function AllOps(rs: seq<Request>): seq<Op> {
    if rs == [] then [] else AllOps(rs[..|rs| - 1]) + Parse(BatchOf(rs[|rs| - 1]).data).ops
  }

  ghost predicate AllFormed(rs: seq<Request>) {
    forall i | 0 <= i < |rs| :: WellFormed(BatchOf(rs[i]))
  }

  /** Well-formed batches make a well-formed group with their operations in order. */
  lemma {:induction false} JoinedWellFormed(rs: seq<Request>)
    requires AllFormed(rs)
    ensures WellFormed(Joined(rs)) && Parse(Joined(rs).data).ops == AllOps(rs)
  {
    if rs != [] {
      hide Parse, WellFormed, Append;
      var n := |rs| - 1;
      assert AllFormed(rs[..n]) && WellFormed(BatchOf(rs[n]));
      hide AllFormed;
      JoinedWellFormed(rs[..n]);
      AppendWellFormed(Joined(rs[..n]), BatchOf(rs[n]));
    }
  }

  function TotalSize(rs: seq<Request>): nat {
    if rs == [] then 0 else TotalSize(rs[..|rs| - 1]) + Size(rs[|rs| - 1])
  }

  /** `r` cannot join a group made of the requests `group`. */
  predicate Barred(group: seq<Request>, r: Request)
    requires group != []
  {
    || (r.sync && !group[0].sync)
    || (r.batch.Some? && MaxGroupSize(Size(group[0])) < TotalSize(group) + Size(r))
  }

  /** The k-th request in the queue joins the group of those before it. */
  ghost predicate Joins(queue: seq<Request>, k: int) {
    1 <= k < |queue| && !Barred(queue[..k], queue[k])
  }

  ghost predicate AllJoin(queue: seq<Request>, count: nat) {
    forall k {:trigger Joins(queue, k)} :: 1 <= k < count ==> Joins(queue, k)
  }

  /** The group is a prefix of the queue: as long as possible, never mixing a sync write
      into a non-sync leader's group, never beyond the size limit. */
  method BuildBatchGroup(queue: seq<Request>) returns (count: nat, group: Batch)
    requires queue != [] && queue[0].batch.Some?
    ensures 1 <= count <= |queue|
    ensures group == Joined(queue[..count])
    ensures AllJoin(queue, count)
    ensures count < |queue| ==> Barred(queue[..count], queue[count])
  {
    var first := queue[0];
    group := first.batch.value;
    var size := ByteSize(first.batch.value);
    var maxSize := LARGE;
    if size <= SMALL {
      maxSize := size + SMALL;
    }
    count := 1;
    assert queue[..1] == [first] && [first][..0] == [];
    assert Joined([first]) == Append(EMPTY, group) == group;
    while count < |queue|
      invariant 1 <= count <= |queue|
      invariant group == Joined(queue[..count]) && size == TotalSize(queue[..count])
      invariant AllJoin(queue, count)
    {
      var w := queue[count];
      assert queue[..count + 1][..count] == queue[..count];
      if w.sync && !first.sync {
        break;
      }
      if w.batch.Some? {
        size := size + ByteSize(w.batch.value);
        if size > maxSize {
          break;
        }
        group := Append(group, w.batch.value);
      }
      count := count + 1;
    }
  }

  lemma {:induction false} NoSyncInNonSyncGroup(queue: seq<Request>, count: nat, k: nat)
    requires 1 <= count <= |queue| && k < count
    requires AllJoin(queue, count)
    ensures queue[k].sync ==> queue[0].sync
  {
    if 0 < k {
      assert Joins(queue, k) && queue[..k][0] == queue[0];
    }
  }

  lemma {:induction false} GroupSizeBounded(queue: seq<Request>, count: nat)
    requires 1 <= count <= |queue|
    requires AllJoin(queue, count)
    ensures TotalSize(queue[..count]) <= Size(queue[0]) || TotalSize(queue[..count]) <= MaxGroupSize(Size(queue[0]))
  {
    if count == 1 {
      assert queue[..1] == [queue[0]];
      assert [queue[0]][..0] == [];
    } else {
      GroupSizeBounded(queue, count - 1);
      assert queue[..count][..count - 1] == queue[..count - 1];
      assert Joins(queue, count - 1);
    }
  }

  /** The limit in bytes: a group goes no more than 128 KB past a first batch of up to 128 KB, and
      up to 1 MB past a larger one, which may itself be larger. */
  lemma GroupBytes(queue: seq<Request>, count: nat)
    requires 1 <= count <= |queue| && AllJoin(queue, count)
    ensures var first := Size(queue[0]);
            if first <= 131072 then TotalSize(queue[..count]) <= first + 131072
            else TotalSize(queue[..count]) <= (if first < 1048576 then 1048576 else first)
  {
    GroupSizeBounded(queue, count);
  }

  /** A queue that is within the limit and does not mix sync writes into a non-sync group is taken
      whole. */
  lemma WholeQueueJoins(queue: seq<Request>, count: nat)
    requires 1 <= count <= |queue| && (count < |queue| ==> Barred(queue[..count], queue[count]))
    requires forall i | 0 <= i < |queue| && queue[i].sync :: queue[0].sync
    requires TotalSize(queue) <= if Size(queue[0]) <= 131072 then Size(queue[0]) + 131072 else 1048576
    ensures count == |queue|
  {
    if count < |queue| {
      assert queue[..count][0] == queue[0] && queue[..count + 1][..count] == queue[..count];
      PrefixSize(queue, count + 1);
    }
  }

  lemma {:induction false} PrefixSize(queue: seq<Request>, n: nat)
    requires n <= |queue|
    ensures TotalSize(queue[..n]) <= TotalSize(queue)
    decreases |queue| - n
  {
    if n == |queue| {
      assert queue[..n] == queue;
    } else {
      PrefixSize(queue, n + 1);
      assert queue[..n + 1][..n] == queue[..n];
    }
  }

  // ----- any number of threads calling Write

  datatype Status = Ok | Error

  /** Where the leader is in the unlocked section of Write. */
  datatype Stage = Appending | Appended | Synced | Applied | Broken

  datatype Pc = Waiting | Room | Committing(count: nat, batch: Batch, stage: Stage) | Returned

  /** A group that a leader has tried to commit: the batches of the writers `lo` up to `hi`,
      numbered from `first`. It is a record of the log if `logged`; `inserted` are the operations
      that have reached the memtable, and `applied` says that InsertInto succeeded. */
  datatype Group = Group(first: nat, batch: Batch, lo: nat, hi: nat, logged: bool, synced: bool, inserted: seq<Op>, applied: bool)

  /** Writers are named in order of arrival. `status[i]` is what Write will return to
      writer `i` once known. `groups` are the groups that are finished, `tail` is the one whose
      append has been tried; the log file is those of them that are logged. `bgError` says that
      bg_error_ was set because of a failed sync. */
  datatype State = State(requests: seq<Request>, pcs: seq<Pc>, status: seq<Option<Status>>, queue: seq<nat>,
                         lastSequence: nat, groups: seq<Group>, tail: Option<Group>, bgError: bool)

  function Initial(): State {
    State([], [], [], [], 0, [], None, false)
  }

  function Arrive(st: State, r: Request): State {
    st.(requests := st.requests + [r], pcs := st.pcs + [Waiting], status := st.status + [None],
        queue := st.queue + [|st.requests|])
  }

  function SetPc(st: State, i: nat, pc: Pc): State
    requires i < |st.pcs|
  {
    st.(pcs := st.pcs[i := pc])
  }

  function SetStatus(status: seq<Option<Status>>, popped: seq<nat>, s: Status): (status': seq<Option<Status>>)
    ensures |status'| == |status|
  {
    seq(|status|, k requires 0 <= k < |status| => if k in popped then Some(s) else status[k])
  }

  /** The loop that pops the group and gives its members the leader's status; the
      followers are signalled, the leader returns. */
  function Pop(st: State, i: nat, count: nat, s: Status): State
    requires i < |st.pcs| && count <= |st.queue|
  {
    st.(status := SetStatus(st.status, st.queue[..count], s), queue := st.queue[count..], pcs := st.pcs[i := Returned],
        groups := st.groups + (if st.tail.Some? then [st.tail.value] else []), tail := None)
  }

  function Requests(st: State): (rs: seq<Request>)
    requires forall k | 0 <= k < |st.queue| :: st.queue[k] < |st.requests|
    ensures |rs| == |st.queue|
  {
    seq(|st.queue|, k requires 0 <= k < |st.queue| => st.requests[st.queue[k]])
  }

  /** The ensures of BuildBatchGroup. */
  ghost predicate IsGroup(queue: seq<Request>, count: nat) {
    && 1 <= count <= |queue|
    && AllJoin(queue, count)
    && (count < |queue| ==> Barred(queue[..count], queue[count]))
  }

  ghost predicate InRange(st: State) {
    |st.pcs| == |st.status| == |st.requests| && forall k | 0 <= k < |st.queue| :: st.queue[k] < |st.requests|
  }

  ghost predicate BuildStep(st: State, i: nat, count: nat, st': State)
    requires InRange(st) && i < |st.pcs|
  {
    var queue := Requests(st);
    && st.requests[i].batch.Some? && IsGroup(queue, count)
    && st' == SetPc(st, i, Committing(count, Joined(queue[..count]), Appending))
  }

  /** Thread `i`, woken up or running, takes one step. */
  ghost predicate ThreadStep(st: State, i: nat, st': State)
    requires InRange(st) && i < |st.pcs|
  {
    match st.pcs[i]
    case Waiting =>
      || (st.status[i].Some? && st' == SetPc(st, i, Returned))
      || (st.status[i].None? && st.queue != [] && st.queue[0] == i && st' == SetPc(st, i, Room))
    case Room =>
      // MakeRoomForWrite has returned, with an error or not
      || (st.queue != [] && st' == Pop(st, i, 1, Error))
      || (!st.bgError && st.queue != [] && st.requests[i].batch.None? && st' == Pop(st, i, 1, Ok))
      || (!st.bgError && exists count: nat :: BuildStep(st, i, count, st'))
    case Committing(count, batch, stage) => LeaderStep(st, i, st.pcs[i], st')
    case Returned => false
  }

  ghost predicate LeaderStep(st: State, i: nat, c: Pc, st': State)
    requires InRange(st) && i < |st.pcs| && c.Committing?
  {
    match c.stage
    case Appending =>
      var g := Group(st.lastSequence + 1, c.batch, i, i + c.count, false, false, [], false);
      || st' == SetPc(st, i, c.(stage := Broken)).(tail := Some(g))
      || st' == SetPc(st, i, c.(stage := Appended)).(tail := Some(g.(logged := true)))
    case Appended =>
      if st.requests[i].sync then
        || st' == SetPc(st, i, c.(stage := Broken))
        || (st.tail.Some? && st' == SetPc(st, i, c.(stage := Synced)).(tail := Some(st.tail.value.(synced := true))))
      else st' == SetPc(st, i, c.(stage := Synced))
    case Synced =>
      // InsertInto: what happens depends on the bytes of the batch alone
      && st.tail.Some?
      && var g := st.tail.value.(inserted := Parse(c.batch.data).ops, applied := WellFormed(c.batch));
         st' == SetPc(st, i, c.(stage := if WellFormed(c.batch) then Applied else Broken)).(tail := Some(g))
    case _ =>
      // the sequence number advances even if the group failed
      && c.count <= |st.queue| && st.tail.Some?
      && st' == Pop(st, i, c.count, if c.stage.Applied? then Ok else Error)
                .(lastSequence := st.lastSequence + c.batch.count, bgError := st.bgError || SyncFailed(st.requests, st.tail.value))
  }

  /** The record was appended and could not be synced. */
  predicate SyncFailed(requests: seq<Request>, g: Group) {
    g.lo < |requests| && g.logged && requests[g.lo].sync && !g.synced
  }

  ghost predicate Next(st: State, st': State) {
    || (exists r :: st' == Arrive(st, r))
    || (InRange(st) && exists i :: 0 <= i < |st.pcs| && ThreadStep(st, i, st'))
  }

  ghost predicate StepAt(run: seq<State>, i: int) {
    0 <= i < |run| - 1 ==> Next(run[i], run[i + 1])
  }

  ghost predicate IsRun(run: seq<State>) {
    run != [] && run[0] == Initial() && forall i {:trigger StepAt(run, i)} :: StepAt(run, i)
  }

  // ----- what every step keeps

  ghost predicate QueueOk(queue: seq<nat>, base: int, n: nat) {
    0 <= base && |queue| == n - base && forall k | 0 <= k < |queue| :: queue[k] == base + k
  }

  /** Writers in the queue all wait, except that the front one may be leading. */
  ghost predicate ThreadsOk(pcs: seq<Pc>, status: seq<Option<Status>>, base: int) {
    && |pcs| == |status|
    && (forall i | 0 <= i < |pcs| :: status[i].Some? <==> i < base)
    && (forall i | 0 <= i < base && i < |pcs| :: pcs[i].Waiting? || pcs[i].Returned?)
    && (forall i | base < i < |pcs| && 0 <= i :: pcs[i].Waiting?)
    && (0 <= base < |pcs| ==> !pcs[base].Returned?)
  }

  /** The leader got as far as InsertInto. */
  predicate Reached(requests: seq<Request>, r: Group) {
    r.lo < |requests| && r.logged && (requests[r.lo].sync ==> r.synced)
  }

  /** What is in the memtable of a group that is finished. */
  function Inserted(requests: seq<Request>, r: Group): seq<Op> {
    if Reached(requests, r) then Parse(r.batch.data).ops else []
  }

  ghost predicate GroupOk(requests: seq<Request>, r: Group) {
    && 1 <= r.first && 0 <= r.lo < r.hi <= |requests|
    && r.batch == Joined(requests[r.lo..r.hi]) && requests[r.lo].batch.Some?
    && (forall i | r.lo <= i < r.hi && requests[i].sync :: requests[r.lo].sync)
    && r.inserted == Inserted(requests, r) && (r.applied <==> Reached(requests, r) && WellFormed(r.batch))
  }

  // The quantifiers over the log are instantiated only where a proof names the record.

  ghost predicate GroupAt(requests: seq<Request>, groups: seq<Group>, k: int) {
    0 <= k < |groups| ==> GroupOk(requests, groups[k])
  }

  ghost predicate OrderedAt(groups: seq<Group>, k: int, l: int) {
    0 <= k < l < |groups| ==> groups[k].hi <= groups[l].lo && EndOf(groups[k]) <= groups[l].first
  }

  ghost predicate GroupsOk(requests: seq<Request>, groups: seq<Group>) {
    && (forall k {:trigger GroupAt(requests, groups, k)} :: GroupAt(requests, groups, k))
    && (forall k, l {:trigger OrderedAt(groups, k, l)} :: OrderedAt(groups, k, l))
  }

  ghost predicate Covered(groups: seq<Group>, i: int) {
    exists k :: 0 <= k < |groups| && groups[k].lo <= i < groups[k].hi
  }

  /** A record's writers all succeeded if it was applied, and all failed if not. */
  ghost predicate AgreesAt(groups: seq<Group>, status: seq<Option<Status>>, base: int, k: int) {
    0 <= k < |groups| ==>
      && 0 <= groups[k].lo < groups[k].hi <= base <= |status|
      && forall i | groups[k].lo <= i < groups[k].hi :: groups[k].applied <==> status[i] == Some(Ok)
  }

  /** A writer with a batch succeeded only if its batch is in the log. */
  ghost predicate CoveredAt(requests: seq<Request>, groups: seq<Group>, status: seq<Option<Status>>, i: int) {
    0 <= i < |status| && i < |requests| && requests[i].batch.Some? && status[i] == Some(Ok) ==> Covered(groups, i)
  }

  /** Records of finished groups match the writers' outcomes. */
  ghost predicate OutcomesOk(requests: seq<Request>, groups: seq<Group>, status: seq<Option<Status>>, base: int) {
    && (forall k {:trigger AgreesAt(groups, status, base, k)} :: AgreesAt(groups, status, base, k))
    && (forall i {:trigger CoveredAt(requests, groups, status, i)} :: CoveredAt(requests, groups, status, i))
  }

  function EndOf(r: Group): nat {
    r.first + r.batch.count
  }

  /** The groups' sequence numbers follow one another without a gap, from 1. */
  ghost predicate NumbersOk(groups: seq<Group>, lastSequence: nat) {
    && (forall k {:trigger NumberAt(groups, k)} :: NumberAt(groups, k))
    && lastSequence + 1 == NextNumber(groups, |groups|)
  }

  /** The number after the first k groups. */
  ghost function NextNumber(groups: seq<Group>, k: int): nat {
    if 1 <= k <= |groups| then EndOf(groups[k - 1]) else 1
  }

  ghost predicate NumberAt(groups: seq<Group>, k: int) {
    0 <= k < |groups| ==> groups[k].first == NextNumber(groups, k)
  }

  /** The group being committed by `c`, and its record if it has one. */
  ghost predicate LeaderOk(requests: seq<Request>, c: Pc, base: int, queued: nat, tail: Option<Group>, lastSequence: nat)
  {
    if !c.Committing? then tail.None? else
    && 0 <= base && base + queued <= |requests| && 1 <= c.count <= queued
    && requests[base].batch.Some?
    && c.batch == Joined(requests[base..base + c.count])
    && (forall i | base <= i < base + c.count && requests[i].sync :: requests[base].sync)
    && (c.stage.Appending? <==> tail.None?)
    && (tail.Some? ==> TailOk(requests, c, base, tail.value, lastSequence))
  }

  ghost predicate TailOk(requests: seq<Request>, c: Pc, base: int, r: Group, lastSequence: nat)
    requires c.Committing? && 0 <= base < |requests|
  {
    && r.lo == base && r.hi == base + c.count && r.batch == c.batch && r.first == lastSequence + 1
    && match c.stage
       case Appending => false
       case Appended => r.logged && !r.synced && r.inserted == [] && !r.applied
       case Synced => Reached(requests, r) && r.inserted == [] && !r.applied
       case Applied => Reached(requests, r) && WellFormed(r.batch) && r.inserted == Inserted(requests, r) && r.applied
       case Broken => !(Reached(requests, r) && WellFormed(r.batch)) && r.inserted == Inserted(requests, r) && !r.applied
  }

  /** After a failed sync there is no later group, and no later writer succeeds. */
  ghost predicate PoisonAt(requests: seq<Request>, groups: seq<Group>, status: seq<Option<Status>>, k: int) {
    0 <= k < |groups| && SyncFailed(requests, groups[k]) ==>
      k == |groups| - 1 && forall i | groups[k].hi <= i < |status| :: status[i] != Some(Ok)
  }

  ghost predicate PoisonOk(requests: seq<Request>, groups: seq<Group>, status: seq<Option<Status>>, bgError: bool) {
    && (forall k {:trigger PoisonAt(requests, groups, status, k)} :: PoisonAt(requests, groups, status, k))
    && (bgError <==> groups != [] && SyncFailed(requests, groups[|groups| - 1]))
  }

  ghost function Front(st: State): Pc {
    if st.queue != [] && 0 <= Base(st) < |st.pcs| then st.pcs[Base(st)] else Waiting
  }

  /** The first writer still queued. */
  ghost function Base(st: State): int {
    |st.requests| - |st.queue|
  }

  ghost predicate Inv(st: State) {
    var b := Base(st);
    && |st.pcs| == |st.requests| && QueueOk(st.queue, b, |st.requests|)
    && ThreadsOk(st.pcs, st.status, b)
    && GroupsOk(st.requests, st.groups)
    && OutcomesOk(st.requests, st.groups, st.status, b)
    && NumbersOk(st.groups, st.lastSequence)
    && LeaderOk(st.requests, Front(st), b, |st.queue|, st.tail, st.lastSequence)
    && PoisonOk(st.requests, st.groups, st.status, st.bgError) && (st.bgError ==> !Front(st).Committing?)
  }

  lemma GroupGrow(requests: seq<Request>, more: seq<Request>, r: Group)
    requires GroupOk(requests, r)
    ensures GroupOk(requests + more, r)
  {
    assert (requests + more)[r.lo..r.hi] == requests[r.lo..r.hi];
  }

  lemma LeaderGrow(requests: seq<Request>, r: Request, c: Pc, base: int, queued: nat, tail: Option<Group>,
                   last: nat)
    requires LeaderOk(requests, c, base, queued, tail, last) && base + queued == |requests|
    ensures LeaderOk(requests + [r], c, base, queued + 1, tail, last)
  {
    if c.Committing? {
      assert (requests + [r])[base..base + c.count] == requests[base..base + c.count];
    }
  }

  lemma ArriveLog(requests: seq<Request>, r: Request, groups: seq<Group>, status: seq<Option<Status>>, base: int)
    requires GroupsOk(requests, groups) && OutcomesOk(requests, groups, status, base) && |status| == |requests|
    ensures GroupsOk(requests + [r], groups) && OutcomesOk(requests + [r], groups, status + [None], base)
  {
    forall k
      ensures GroupAt(requests + [r], groups, k) && AgreesAt(groups, status + [None], base, k)
    {
      assert GroupAt(requests, groups, k) && AgreesAt(groups, status, base, k);
      if 0 <= k < |groups| {
        GroupGrow(requests, [r], groups[k]);
      }
    }
    forall i
      ensures CoveredAt(requests + [r], groups, status + [None], i)
    {
      assert CoveredAt(requests, groups, status, i);
    }
  }

  lemma ArrivePoison(requests: seq<Request>, r: Request, groups: seq<Group>, status: seq<Option<Status>>, bgError: bool)
    requires PoisonOk(requests, groups, status, bgError) && GroupsOk(requests, groups)
    ensures PoisonOk(requests + [r], groups, status + [None], bgError)
  {
    forall k
      ensures PoisonAt(requests + [r], groups, status + [None], k)
    {
      assert PoisonAt(requests, groups, status, k) && GroupAt(requests, groups, k);
    }
    assert GroupAt(requests, groups, |groups| - 1);
  }

  lemma KeepsArrive(st: State, r: Request)
    requires Inv(st)
    ensures Inv(Arrive(st, r))
  {
    var st' := Arrive(st, r);
    hide PoisonOk, GroupsOk, OutcomesOk, NumbersOk, LeaderOk, Joined;
    assert Base(st') == Base(st);
    ArrivePoison(st.requests, r, st.groups, st.status, st.bgError);
    ArriveLog(st.requests, r, st.groups, st.status, Base(st));
    LeaderGrow(st.requests, r, Front(st), Base(st), |st.queue|, st.tail, st.lastSequence);
    assert st.queue == [] ==> Front(st') == Waiting;
  }

  lemma KeepsWake(st: State, i: nat)
    requires Inv(st) && i < |st.pcs| && st.pcs[i].Waiting?
    ensures st.status[i].Some? ==> Inv(SetPc(st, i, Returned))
    ensures st.status[i].None? && st.queue != [] && st.queue[0] == i ==> Inv(SetPc(st, i, Room))
  {
    hide PoisonOk, GroupsOk, NumbersOk, OutcomesOk, Joined;
  }

  lemma BuildLeader(st: State, i: nat, count: nat, st': State)
    requires InRange(st) && i < |st.pcs| && BuildStep(st, i, count, st')
    requires QueueOk(st.queue, i, |st.requests|) && st.tail.None?
    ensures LeaderOk(st'.requests, st'.pcs[i], i, |st'.queue|, st'.tail, st'.lastSequence)
  {
    var queue := Requests(st);
    assert queue[..count] == st.requests[i..i + count];
    forall k | i <= k < i + count && st.requests[k].sync
      ensures st.requests[i].sync
    {
      NoSyncInNonSyncGroup(queue, count, k - i);
      assert queue[k - i] == st.requests[k] && queue[0] == st.requests[i];
    }
  }

  lemma KeepsBuild(st: State, i: nat, count: nat, st': State)
    requires Inv(st) && !st.bgError && i < |st.pcs| && st.pcs[i].Room? && InRange(st) && BuildStep(st, i, count, st')
    ensures Inv(st')
  {
    assert i == Base(st) && Front(st) == st.pcs[i];
    BuildLeader(st, i, count, st');
    LeaderThreads(st.pcs, st.status, i, st'.pcs[i]);
  }

  lemma PopThreads(st: State, i: nat, count: nat, s: Status)
    requires i == Base(st) && i < |st.pcs| == |st.requests| && 1 <= count <= |st.queue|
    requires QueueOk(st.queue, i, |st.requests|) && ThreadsOk(st.pcs, st.status, i)
    ensures var st' := Pop(st, i, count, s);
            && Base(st') == i + count && QueueOk(st'.queue, i + count, |st.requests|)
            && ThreadsOk(st'.pcs, st'.status, i + count)
            && (forall k | 0 <= k < |st.status| :: st'.status[k] == if i <= k < i + count then Some(s) else st.status[k])
  {
    var popped := st.queue[..count];
    forall k: nat
      ensures k in popped <==> i <= k < i + count
    {
      if i <= k < i + count {
        assert popped[k - i] == k;
      }
    }
  }

  lemma KeepsPopOne(st: State, i: nat, s: Status)
    requires Inv(st) && i < |st.pcs| && st.pcs[i].Room? && st.queue != []
    requires s == Ok ==> !st.bgError && st.requests[i].batch.None?
    ensures Inv(Pop(st, i, 1, s))
  {
    hide PoisonOk, GroupsOk, OutcomesOk, NumbersOk, Joined;
    assert i == Base(st);
    PopThreads(st, i, 1, s);
    FinishOutcomes(st.requests, st.groups, st.status, i, 1, [], s, Pop(st, i, 1, s).status);
    assert st.groups + [] == st.groups;
    PopPoison(st.requests, st.groups, st.status, st.bgError, i, 1, s, Pop(st, i, 1, s).status);
  }

  /** Writers that leave the queue, without success once the error is set. */
  lemma PopPoison(requests: seq<Request>, groups: seq<Group>, status: seq<Option<Status>>, bgError: bool, base: int, count: nat,
                  s: Status, status': seq<Option<Status>>)
    requires PoisonOk(requests, groups, status, bgError) && (s == Ok ==> !bgError) && |status'| == |status|
    requires forall k | 0 <= k < |status| :: status'[k] == if base <= k < base + count then Some(s) else status[k]
    ensures PoisonOk(requests, groups, status', bgError)
  {
    forall k
      ensures PoisonAt(requests, groups, status', k)
    {
      assert PoisonAt(requests, groups, status, k);
    }
  }

  /** A group that is finished. */
  lemma FinishPoison(requests: seq<Request>, groups: seq<Group>, status: seq<Option<Status>>, t: Group, base: int, s: Status,
                     status': seq<Option<Status>>)
    requires PoisonOk(requests, groups, status, false) && 0 <= base == t.lo < t.hi <= |status| == |status'|
    requires forall k | 0 <= k < |status| :: status'[k] == if base <= k < t.hi then Some(s) else status[k]
    requires forall k | t.hi <= k < |status| :: status[k].None?
    ensures PoisonOk(requests, groups + [t], status', SyncFailed(requests, t))
  {
    forall k
      ensures PoisonAt(requests, groups + [t], status', k)
    {
      assert PoisonAt(requests, groups, status, k);
    }
  }

  lemma LeaderThreads(pcs: seq<Pc>, status: seq<Option<Status>>, base: int, pc: Pc)
    requires ThreadsOk(pcs, status, base) && 0 <= base < |pcs| && !pc.Returned?
    ensures ThreadsOk(pcs[base := pc], status, base)
  {
  }

  lemma LeaderOnly(st: State, i: nat, st': State)
    requires InRange(st) && i < |st.pcs| && st.pcs[i].Committing?
    requires LeaderOk(st.requests, st.pcs[i], i, |st.queue|, st.tail, st.lastSequence)
    requires !st.pcs[i].stage.Applied? && !st.pcs[i].stage.Broken?
    requires LeaderStep(st, i, st.pcs[i], st')
    ensures st'.pcs[i].Committing? && st'.pcs == st.pcs[i := st'.pcs[i]]
    ensures LeaderOk(st'.requests, st'.pcs[i], i, |st'.queue|, st'.tail, st'.lastSequence)
  {
    hide Parse, WellFormed, Joined;
  }

  lemma KeepsLeading(st: State, i: nat, st': State)
    requires Inv(st) && InRange(st) && i < |st.pcs| && st.pcs[i].Committing?
    requires !st.pcs[i].stage.Applied? && !st.pcs[i].stage.Broken?
    requires LeaderStep(st, i, st.pcs[i], st')
    ensures Inv(st')
  {
    hide PoisonOk, GroupsOk, NumbersOk, OutcomesOk, Joined;
    assert i == Base(st) && Front(st) == st.pcs[i];
    LeaderOnly(st, i, st');
    LeaderThreads(st.pcs, st.status, i, st'.pcs[i]);
  }

  lemma TailGroup(requests: seq<Request>, c: Pc, base: int, queued: nat, t: Group, last: nat)
    requires LeaderOk(requests, c, base, queued, Some(t), last)
    requires c.Committing? && (c.stage.Applied? || c.stage.Broken?)
    ensures GroupOk(requests, t)
  {
  }

  /** The in-flight record joins the log when its group leaves the queue. */
  lemma FinishLog(requests: seq<Request>, groups: seq<Group>, t: Group, last: nat, base: int)
    requires GroupsOk(requests, groups) && NumbersOk(groups, last) && GroupOk(requests, t)
    requires t.lo == base && t.first == last + 1
    requires forall k {:trigger AtMost(groups, base, k)} :: AtMost(groups, base, k)
    ensures GroupsOk(requests, groups + [t]) && NumbersOk(groups + [t], EndOf(t) - 1)
  {
    var groups', last' := groups + [t], EndOf(t) - 1;
    forall k
      ensures GroupAt(requests, groups', k)
    {
      assert GroupAt(requests, groups, k);
    }
    forall k
      ensures NumberAt(groups', k)
    {
      assert NumberAt(groups, k);
    }
    forall k, l
      ensures OrderedAt(groups', k, l)
    {
      assert OrderedAt(groups, k, l) && OrderedAt(groups, k, |groups| - 1) && AtMost(groups, base, k);
    }
  }

  ghost predicate AtMost(groups: seq<Group>, base: int, k: int) {
    0 <= k < |groups| ==> groups[k].hi <= base
  }

  /** A group that leaves the queue with status `s`, with or without a record `more`. */
  lemma FinishOutcomes(requests: seq<Request>, groups: seq<Group>, status: seq<Option<Status>>, base: int, count: nat,
                       more: seq<Group>, s: Status, status': seq<Option<Status>>)
    requires OutcomesOk(requests, groups, status, base)
    requires |status'| == |status| && 0 <= base <= base + count <= |status|
    requires forall k | 0 <= k < |status| :: status'[k] == if base <= k < base + count then Some(s) else status[k]
    requires |more| <= 1 && (s == Ok ==> |more| == 1 || forall i | base <= i < base + count && i < |requests| :: requests[i].batch.None?)
    requires forall r | r in more :: base == r.lo < r.hi == base + count && (r.applied <==> s == Ok)
    ensures OutcomesOk(requests, groups + more, status', base + count)
  {
    var groups', end := groups + more, base + count;
    forall k
      ensures AgreesAt(groups', status', end, k)
    {
      assert AgreesAt(groups, status, base, k);
      if |groups| <= k < |groups'| {
        assert groups'[k] in more;
      }
    }
    forall i
      ensures CoveredAt(requests, groups', status', i)
    {
      assert CoveredAt(requests, groups, status, i);
      if Covered(groups, i) {
        var k :| 0 <= k < |groups| && groups[k].lo <= i < groups[k].hi;
        assert groups'[k].lo <= i < groups'[k].hi;
      }
      if |more| == 1 && base <= i < base + count {
        assert more[0] in more && groups'[|groups|] == more[0];
      }
    }
  }

  lemma FinishLogAndNumbers(st: State, i: nat)
    requires Inv(st) && i == Base(st) && Front(st).Committing? && st.tail.Some? && (Front(st).stage.Applied? || Front(st).stage.Broken?)
    ensures var groups' := st.groups + [st.tail.value];
            GroupsOk(st.requests, groups') && NumbersOk(groups', st.lastSequence + Front(st).batch.count)
  {
    forall k
      ensures AtMost(st.groups, i, k)
    {
      assert AgreesAt(st.groups, st.status, i, k);
    }
    TailGroup(st.requests, Front(st), i, |st.queue|, st.tail.value, st.lastSequence);
    FinishLog(st.requests, st.groups, st.tail.value, st.lastSequence, i);
  }

  lemma FinishStatus(st: State, i: nat, s: Status, status': seq<Option<Status>>)
    requires i < |st.pcs| && st.pcs[i].Committing? && |st.status| == |st.requests| && |st.queue| <= |st.requests| - i
    requires OutcomesOk(st.requests, st.groups, st.status, i)
    requires LeaderOk(st.requests, st.pcs[i], i, |st.queue|, st.tail, st.lastSequence)
    requires st.pcs[i].stage.Applied? || st.pcs[i].stage.Broken?
    requires s == if st.pcs[i].stage.Applied? then Ok else Error
    requires |status'| == |st.status| && forall k | 0 <= k < |st.status| ::
               status'[k] == if i <= k < i + st.pcs[i].count then Some(s) else st.status[k]
    ensures OutcomesOk(st.requests, st.groups + (if st.tail.Some? then [st.tail.value] else []), status', i + st.pcs[i].count)
  {
    var more := if st.tail.Some? then [st.tail.value] else [];
    FinishOutcomes(st.requests, st.groups, st.status, i, st.pcs[i].count, more, s, status');
  }

  lemma KeepsFinish(st: State, i: nat, st': State)
    requires Inv(st) && InRange(st) && i < |st.pcs| && st.pcs[i].Committing?
    requires st.pcs[i].stage.Applied? || st.pcs[i].stage.Broken?
    requires LeaderStep(st, i, st.pcs[i], st')
    ensures Inv(st')
  {
    hide Parse, WellFormed, Joined, PoisonOk, NumbersOk, GroupsOk;
    var c := st.pcs[i];
    assert i == Base(st) && Front(st) == c;
    var s := if c.stage.Applied? then Ok else Error;
    PopThreads(st, i, c.count, s);
    FinishLogAndNumbers(st, i);
    FinishStatus(st, i, s, st'.status);
    FinishPoison(st.requests, st.groups, st.status, st.tail.value, i, s, st'.status);
    assert !Front(st').Committing?;
  }

  lemma StepInv(st: State, st': State)
    requires Inv(st) && Next(st, st')
    ensures Inv(st')
  {
    if r :| st' == Arrive(st, r) {
      KeepsArrive(st, r);
    } else {
      var i :| 0 <= i < |st.pcs| && ThreadStep(st, i, st');
      match st.pcs[i]
      case Waiting => KeepsWake(st, i);
      case Room =>
        if count: nat :| BuildStep(st, i, count, st') {
          KeepsBuild(st, i, count, st');
        } else {
          KeepsPopOne(st, i, Error);
          if !st.bgError && st.requests[i].batch.None? {
            KeepsPopOne(st, i, Ok);
          }
        }
      case Committing(_, _, stage) =>
        if stage.Applied? || stage.Broken? {
          KeepsFinish(st, i, st');
        } else {
          KeepsLeading(st, i, st');
        }
    }
  }

  lemma {:induction false} RunInv(run: seq<State>, k: nat)
    requires IsRun(run) && k < |run|
    ensures Inv(run[k])
  {
    if k > 0 {
      RunInv(run, k - 1);
      assert StepAt(run, k - 1);
      StepInv(run[k - 1], run[k]);
    }
  }

  /** Only the writer at the front of the queue is ever past the wait, so at most one
      thread is in the unlocked section. */
  lemma OnlyTheFrontLeads(run: seq<State>, k: nat, i: nat)
    requires IsRun(run) && k < |run| && i < |run[k].pcs|
    requires run[k].pcs[i].Room? || run[k].pcs[i].Committing?
    ensures run[k].queue != [] && run[k].queue[0] == i
  {
    RunInv(run, k);
  }

  /** Every non-null batch whose Write succeeds is in exactly one group; that group is in the
      log, was applied completely, has its neighbours' batches in order of arrival, and was
      synced if the writer asked for it. */
  lemma ExactlyOnce(run: seq<State>, k: nat, i: nat) returns (n: nat)
    requires IsRun(run) && k < |run| && i < |run[k].status| && i < |run[k].requests|
    requires run[k].status[i] == Some(Ok) && run[k].requests[i].batch.Some?
    ensures var st := run[k];
            && n < |st.groups| && st.groups[n].lo <= i < st.groups[n].hi <= |st.requests|
            && st.groups[n].batch == Joined(st.requests[st.groups[n].lo..st.groups[n].hi]) && WellFormed(st.groups[n].batch)
            && st.groups[n].logged && st.groups[n].applied && st.groups[n].inserted == Parse(st.groups[n].batch.data).ops
            && (st.requests[i].sync ==> st.groups[n].synced)
            && forall m | 0 <= m < |st.groups| && m != n :: !(st.groups[m].lo <= i < st.groups[m].hi)
  {
    RunInv(run, k);
    var st := run[k];
    assert CoveredAt(st.requests, st.groups, st.status, i);
    n :| 0 <= n < |st.groups| && st.groups[n].lo <= i < st.groups[n].hi;
    assert GroupAt(st.requests, st.groups, n) && AgreesAt(st.groups, st.status, Base(st), n);
    forall m | 0 <= m < |st.groups| && m != n
      ensures !(st.groups[m].lo <= i < st.groups[m].hi)
    {
      assert OrderedAt(st.groups, m, n) && OrderedAt(st.groups, n, m);
    }
  }

  // ----- sequence numbers

  /** How many entries a run of groups has. */
  function Entries(groups: seq<Group>): nat {
    if groups == [] then 0 else Entries(groups[..|groups| - 1]) + groups[|groups| - 1].batch.count
  }

  lemma {:induction false} NumbersAddUp(groups: seq<Group>, a: nat, b: nat)
    requires a <= b <= |groups| && forall k {:trigger NumberAt(groups, k)} :: NumberAt(groups, k)
    ensures NextNumber(groups, b) == NextNumber(groups, a) + Entries(groups[a..b])
  {
    if a < b {
      NumbersAddUp(groups, a, b - 1);
      assert NumberAt(groups, b - 1);
      assert groups[a..b][..b - 1 - a] == groups[a..b - 1];
    }
  }

  /** Groups follow queue order, and their sequence numbers run from 1 to LastSequence without
      overlap or gap, whether their append succeeded or not. */
  lemma SequenceNumbers(run: seq<State>, k: nat, m: nat, n: nat)
    requires IsRun(run) && k < |run| && m < n < |run[k].groups|
    ensures var st := run[k];
            && st.groups[m].hi <= st.groups[n].lo && st.groups[0].first == 1
            && st.groups[n].first == EndOf(st.groups[m]) + Entries(st.groups[m + 1..n])
            && st.lastSequence + 1 == EndOf(st.groups[n]) + Entries(st.groups[n + 1..])
  {
    RunInv(run, k);
    var st := run[k];
    assert OrderedAt(st.groups, m, n) && NumberAt(st.groups, n) && NumberAt(st.groups, 0);
    NumbersAddUp(st.groups, m + 1, n);
    NumbersAddUp(st.groups, n + 1, |st.groups|);
    assert st.groups[n + 1..|st.groups|] == st.groups[n + 1..];
  }

  /** Groups m and n are consecutive records of the log. */
  ghost predicate ConsecutiveRecords(groups: seq<Group>, m: nat, n: nat) {
    m < n < |groups| && groups[m].logged && groups[n].logged && forall j | m < j < n :: !groups[j].logged
  }

  /** Between consecutive records of the log there is a gap if and only if a group with
      entries failed to be appended between them, and the gap has their size. */
  lemma GapIsFailedGroups(run: seq<State>, k: nat, m: nat, n: nat)
    requires IsRun(run) && k < |run| && ConsecutiveRecords(run[k].groups, m, n)
    ensures var groups := run[k].groups;
            && groups[n].first - EndOf(groups[m]) == Entries(groups[m + 1..n])
            && (EndOf(groups[m]) < groups[n].first <==> exists j :: m < j < n && !groups[j].logged && groups[j].batch.count != 0)
  {
    var groups := run[k].groups;
    SequenceNumbers(run, k, m, n);
    var between := groups[m + 1..n];
    SomeEntries(between);
    if j :| m < j < n && !groups[j].logged && groups[j].batch.count != 0 {
      assert between[j - m - 1].batch.count != 0;
    }
    if i :| 0 <= i < |between| && between[i].batch.count != 0 {
      assert !groups[m + 1 + i].logged && groups[m + 1 + i].batch.count != 0;
    }
  }

  lemma {:induction false} SomeEntries(groups: seq<Group>)
    ensures 0 < Entries(groups) <==> exists i :: 0 <= i < |groups| && groups[i].batch.count != 0
  {
    if groups != [] {
      var last := |groups| - 1;
      SomeEntries(groups[..last]);
      if i :| 0 <= i < last && groups[i].batch.count != 0 {
        assert groups[..last][i].batch.count != 0;
      }
    }
  }
}
