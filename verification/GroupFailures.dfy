/** Writes that fail: what they leave behind, for whom, and for how long. */
module GroupFailures {
  import Engine
  import opened GroupCommit
  import opened Store
  import opened WriteBatch

  // ----- the outcome of a write

  /** A write succeeds if and only if its group was appended, synced if asked for, and well
      formed. It fails with entries left in the memtable if and only if the first two hold, the
      group's batch is malformed, and operations can be read before the malformed place. */
  lemma FailedWriteLeaves(run: seq<State>, k: nat, n: nat, i: nat)
    requires IsRun(run) && k < |run| && n < |run[k].groups| && run[k].groups[n].lo <= i < run[k].groups[n].hi
    ensures var st, g := run[k], run[k].groups[n];
            && i < |st.status| && g.hi <= |st.requests| && g.batch == Joined(st.requests[g.lo..g.hi])
            && st.status[i] == Some(if Reached(st.requests, g) && WellFormed(g.batch) then Ok else Error)
            && (st.status[i] == Some(Error) && g.inserted != [] <==>
                  Reached(st.requests, g) && !WellFormed(g.batch) && Parse(g.batch.data).ops != [])
            && g.inserted == Inserted(st.requests, g)
  {
    hide Parse, WellFormed, Joined;
    RunInv(run, k);
    var st := run[k];
    assert GroupAt(st.requests, st.groups, n) && AgreesAt(st.groups, st.status, Base(st), n);
    assert st.status[i].Some? && (st.groups[n].applied <==> st.status[i] == Some(Ok));
    var value := st.status[i].value;
    assert value == Ok || value == Error;
  }

  /** Batches made by Put and Delete, with keys and values shorter than 4 GB. */
  ghost predicate ByPutAndDelete(rs: seq<Request>) {
    forall i | 0 <= i < |rs| :: IsBuilt(rs[i])
  }

  ghost predicate IsBuilt(r: Request) {
    r.batch.Some? ==> exists ops :: r.batch.value == Built(ops) && AllProper(ops) && AllFit(ops)
  }

  lemma BuiltRequest(r: Request)
    requires IsBuilt(r)
    ensures WellFormed(BatchOf(r))
  {
    if r.batch.Some? {
      var ops :| r.batch.value == Built(ops) && AllProper(ops) && AllFit(ops);
      BuiltIsWellFormed(ops);
    }
  }

  /** For a group of such batches a write that fails leaves nothing, and one that succeeds is
      applied with the operations of all of them in order. */
  lemma PutAndDeleteAreSafe(run: seq<State>, k: nat, n: nat, i: nat)
    requires IsRun(run) && k < |run| && n < |run[k].groups| && run[k].groups[n].lo <= i < run[k].groups[n].hi <= |run[k].requests|
    requires ByPutAndDelete(run[k].requests[run[k].groups[n].lo..run[k].groups[n].hi])
    ensures var st, g := run[k], run[k].groups[n];
            && i < |st.status| && g.inserted == (if st.status[i] == Some(Ok) then AllOps(st.requests[g.lo..g.hi]) else [])
            && |g.inserted| == if st.status[i] == Some(Ok) then g.batch.count else 0
  {
    hide Parse, Joined;
    var rs := run[k].requests[run[k].groups[n].lo..run[k].groups[n].hi];
    forall j | 0 <= j < |rs|
      ensures WellFormed(BatchOf(rs[j]))
    {
      BuiltRequest(rs[j]);
    }
    JoinedWellFormed(rs);
    FailedWriteLeaves(run, k, n, i);
  }

  /** After a failed sync no later group is tried and no later write succeeds. */
  lemma SyncErrorIsFinal(run: seq<State>, k: nat, n: nat, i: nat)
    requires IsRun(run) && k < |run| && n < |run[k].groups| && SyncFailed(run[k].requests, run[k].groups[n])
    requires run[k].groups[n].hi <= i < |run[k].status|
    ensures n == |run[k].groups| - 1 && run[k].status[i] != Some(Ok)
  {
    hide Parse, WellFormed, Joined;
    RunInv(run, k);
    assert PoisonAt(run[k].requests, run[k].groups, run[k].status, n);
  }

  // ----- what readers see of it

  /** The entries of a group in the memtable. */
  ghost function EntriesOf(g: Group): seq<Entry> {
    Engine.Number(g.inserted, g.first)
  }

  /** Everything that the groups have put into memtables. */
  ghost function Stored(groups: seq<Group>): set<Entry> {
    set j, e | 0 <= j < |groups| && e in ToSet(EntriesOf(groups[j])) :: e
  }

  /** How many of the group's entries have numbers up to the group's last one. */
  function Seen(g: Group): nat {
    if |g.inserted| < g.batch.count then |g.inserted| else g.batch.count
  }

  /** No more operations are read than the count in the header says. */
  ghost predicate NoOverrun(g: Group) {
    |Parse(g.batch.data).ops| <= g.batch.count
  }

  /** The sequence number advances over a failed group too, so its first entries are seen. The
      group is seen in part if and only if it reached InsertInto and fewer operations than its
      count, but some, can be read. */
  lemma SeenInPart(run: seq<State>, k: nat, n: nat)
    requires IsRun(run) && k < |run| && n < |run[k].groups|
    ensures var st, g := run[k], run[k].groups[n];
            && 0 < Seen(g) < g.batch.count <==> Reached(st.requests, g) && 0 < |Parse(g.batch.data).ops| < g.batch.count
  {
    hide Parse, Joined;
    RunInv(run, k);
    assert GroupAt(run[k].requests, run[k].groups, n);
  }

  lemma GroupNumbers(run: seq<State>, k: nat, m: nat, n: nat)
    requires IsRun(run) && k < |run| && m < n < |run[k].groups|
    ensures EndOf(run[k].groups[m]) <= run[k].groups[n].first
  {
    hide Parse, WellFormed, Joined;
    RunInv(run, k);
    assert OrderedAt(run[k].groups, m, n);
  }

  lemma NumberedFrom(g: Group, e: Entry)
    requires e in ToSet(EntriesOf(g))
    ensures g.first <= e.seqno < g.first + |g.inserted|
    ensures e.seqno < g.first + Seen(g) ==> e in ToSet(Engine.Number(g.inserted[..Seen(g)], g.first))
  {
    var es := EntriesOf(g);
    var i :| 0 <= i < |es| && es[i] == e;
    if i < Seen(g) {
      assert Engine.Number(g.inserted[..Seen(g)], g.first)[i] == e;
    }
  }

  /** Entries of two groups share a sequence number if and only if the earlier group stores past
      the later one's first number and the later one stores anything. */
  lemma SharedNumbers(run: seq<State>, k: nat, m: nat, n: nat)
    requires IsRun(run) && k < |run| && m < n < |run[k].groups|
    ensures var g, h := run[k].groups[m], run[k].groups[n];
            (exists i, j :: 0 <= i < |EntriesOf(g)| && 0 <= j < |EntriesOf(h)| && EntriesOf(g)[i].seqno == EntriesOf(h)[j].seqno) <==>
              h.inserted != [] && h.first < g.first + |g.inserted|
    ensures NoOverrun(run[k].groups[m]) ==> run[k].groups[m].first + |run[k].groups[m].inserted| <= run[k].groups[n].first
  {
    hide Parse, WellFormed, Joined;
    var g, h := run[k].groups[m], run[k].groups[n];
    GroupNumbers(run, k, m, n);
    RunInv(run, k);
    assert GroupAt(run[k].requests, run[k].groups, m);
    if h.inserted != [] && h.first < g.first + |g.inserted| {
      assert EntriesOf(g)[h.first - g.first].seqno == EntriesOf(h)[0].seqno;
    }
  }

  /** The entries stored before the group. */
  lemma OlderEntries(run: seq<State>, k: nat, n: nat, e: Entry)
    requires IsRun(run) && k < |run| && n < |run[k].groups| && forall m | 0 <= m < n :: NoOverrun(run[k].groups[m])
    requires e in Stored(run[k].groups[..n])
    ensures e.seqno < run[k].groups[n].first
  {
    hide Parse, WellFormed, Joined;
    var groups := run[k].groups;
    var m :| 0 <= m < n && e in ToSet(EntriesOf(groups[..n][m]));
    NumberedFrom(groups[m], e);
    RunInv(run, k);
    assert GroupAt(run[k].requests, groups, m) && NoOverrun(groups[m]);
    GroupNumbers(run, k, m, n);
  }

  /** Whatever the groups have stored that a read at the group's last number can reach comes
      from earlier groups or is one of the group's first entries. */
  lemma VisibleEntries(run: seq<State>, k: nat, n: nat, e: Entry)
    requires IsRun(run) && k < |run| && n < |run[k].groups|
    requires var g := run[k].groups[n]; e in Stored(run[k].groups) && e.seqno < EndOf(g)
    ensures var g := run[k].groups[n];
            e in Stored(run[k].groups[..n]) || e in ToSet(Engine.Number(g.inserted[..Seen(g)], g.first))
  {
    var groups := run[k].groups;
    var j :| 0 <= j < |groups| && e in ToSet(EntriesOf(groups[j]));
    NumberedFrom(groups[j], e);
    if j < n {
      assert groups[..n][j] == groups[j];
    } else if n < j {
      GroupNumbers(run, k, n, j);
    }
  }

  lemma StoredBefore(run: seq<State>, k: nat, n: nat)
    requires IsRun(run) && k < |run| && n < |run[k].groups| && forall m | 0 <= m < n :: NoOverrun(run[k].groups[m])
    ensures var g := run[k].groups[n];
            var older, mine := Stored(run[k].groups[..n]), ToSet(Engine.Number(g.inserted[..Seen(g)], g.first));
            && older + mine <= Stored(run[k].groups)
            && (forall e | e in older :: e.seqno < g.first)
            && forall e | e in Stored(run[k].groups) && e !in older + mine :: EndOf(g) <= e.seqno
  {
    var groups, g := run[k].groups, run[k].groups[n];
    var older, mine := Stored(groups[..n]), ToSet(Engine.Number(g.inserted[..Seen(g)], g.first));
    forall e | e in older
      ensures e in Stored(groups) && e.seqno < g.first
    {
      OlderEntries(run, k, n, e);
      var m :| 0 <= m < n && e in ToSet(EntriesOf(groups[..n][m]));
      assert groups[..n][m] == groups[m];
    }
    forall e | e in mine
      ensures e in Stored(groups)
    {
      var es := Engine.Number(g.inserted[..Seen(g)], g.first);
      var i :| 0 <= i < |es| && es[i] == e;
      assert EntriesOf(g)[i] == e;
      assert e in ToSet(EntriesOf(groups[n]));
    }
    forall e | e in Stored(groups) && e !in older + mine
      ensures EndOf(g) <= e.seqno
    {
      if e.seqno < EndOf(g) {
        VisibleEntries(run, k, n, e);
      }
    }
  }

  /** A read at the last sequence number that the group leaves sees exactly the first `Seen` of
      its operations: one of them is visible if and only if it is a put and none of those after it
      is on the same key, and nothing else with a number of the group is visible. */
  lemma ReadersSeeTheFront(run: seq<State>, k: nat, n: nat, cmp: Comparator, i: nat)
    requires IsRun(run) && k < |run| && n < |run[k].groups| && forall m | 0 <= m < n :: NoOverrun(run[k].groups[m])
    requires i < Seen(run[k].groups[n])
    ensures var g := run[k].groups[n];
            var seen, view := g.inserted[..Seen(g)], View(cmp, Stored(run[k].groups), EndOf(g) - 1);
            && (Engine.Number(seen, g.first)[i] in view <==>
                  seen[i].kind.Value? && forall j | i < j < |seen| :: !Same(cmp, seen[j].key, seen[i].key))
            && forall e | e in view && g.first <= e.seqno :: e in ToSet(Engine.Number(seen, g.first))
  {
    hide Parse, WellFormed, Joined, IsRun;
    var groups, g := run[k].groups, run[k].groups[n];
    var seen, s := g.inserted[..Seen(g)], EndOf(g) - 1;
    var older, mine := Stored(groups[..n]), ToSet(Engine.Number(seen, g.first));
    StoredBefore(run, k, n);
    var later := Stored(groups) - (older + mine);
    assert older + mine + later == Stored(groups);
    hide Stored;
    NewerEntriesInvisible(cmp, older + mine, later, s);
    Engine.LastOperationWins(cmp, older, seen, g.first, i, s);
  }

  // ----- what recovery brings back

  /** The entries that replaying the log gives: RecoverLogFile inserts every record, and goes on
      after one that is malformed unless paranoid_checks is set. */
  ghost function Replayed(groups: seq<Group>): set<Entry> {
    set j, e | 0 <= j < |groups| && groups[j].logged && e in ToSet(Engine.Number(Parse(groups[j].batch.data).ops, groups[j].first)) :: e
  }

  ghost predicate InRangeOf(g: Group, e: Entry) {
    g.first <= e.seqno < EndOf(g)
  }

  /** A group has entries after recovery if and only if it was logged and can be read at all,
      whether its writers were told of success or of failure. */
  lemma ComesBackIfLogged(run: seq<State>, k: nat, n: nat)
    requires IsRun(run) && k < |run| && n < |run[k].groups| && forall m | 0 <= m < |run[k].groups| :: NoOverrun(run[k].groups[m])
    ensures var g := run[k].groups[n];
            (exists e :: e in Replayed(run[k].groups) && InRangeOf(g, e)) <==> g.logged && Parse(g.batch.data).ops != []
  {
    hide Parse, WellFormed, Joined;
    var groups, g := run[k].groups, run[k].groups[n];
    var ops := Parse(g.batch.data).ops;
    if g.logged && ops != [] {
      var e := Engine.Number(ops, g.first)[0];
      assert e in ToSet(Engine.Number(ops, g.first)) && NoOverrun(g);
      assert e in Replayed(groups) && InRangeOf(g, e);
    }
    if e :| e in Replayed(groups) && InRangeOf(g, e) {
      var j :| 0 <= j < |groups| && groups[j].logged && e in ToSet(Engine.Number(Parse(groups[j].batch.data).ops, groups[j].first));
      assert NoOverrun(groups[j]);
      if j < n {
        GroupNumbers(run, k, j, n);
      } else if n < j {
        GroupNumbers(run, k, n, j);
      }
    }
  }

  /** A failed write comes back exactly if it was logged: then its sync failed, or its batch is
      malformed. */
  lemma FailedComesBack(run: seq<State>, k: nat, n: nat, i: nat)
    requires IsRun(run) && k < |run| && n < |run[k].groups| && run[k].groups[n].lo <= i < run[k].groups[n].hi
    requires i < |run[k].status| && run[k].status[i] == Some(Error)
    ensures var st, g := run[k], run[k].groups[n];
            g.logged <==> SyncFailed(st.requests, g) || (Reached(st.requests, g) && !WellFormed(g.batch))
  {
    hide Parse, WellFormed, Joined;
    RunInv(run, k);
    assert GroupAt(run[k].requests, run[k].groups, n) && AgreesAt(run[k].groups, run[k].status, Base(run[k]), n);
  }

  // ----- runs in which writes fail

  ghost predicate Idle(st: State) {
    |st.pcs| == |st.status| == |st.requests| && st.queue == [] && st.tail.None? && !st.bgError
  }

  ghost predicate IsPath(path: seq<State>, st: State, st': State) {
    && path != [] && path[0] == st && path[|path| - 1] == st'
    && forall i {:trigger StepAt(path, i)} :: StepAt(path, i)
  }

  lemma JoinPaths(a: seq<State>, b: seq<State>, x: State, y: State, z: State)
    requires IsPath(a, x, y) && IsPath(b, y, z)
    ensures IsPath(a + b[1..], x, z)
  {
    hide Next;
    var path := a + b[1..];
    forall i
      ensures StepAt(path, i)
    {
      assert StepAt(a, i) && StepAt(b, i - |a| + 1);
    }
  }

  /** A writer that is alone becomes the leader of a group of its own. */
  lemma LeadAlone(st: State, b: Batch) returns (st1: State, st2: State, st3: State)
    requires Idle(st)
    ensures Next(st, st1) && Next(st1, st2) && Next(st2, st3)
    ensures var i := |st.requests|;
            st3 == st.(requests := st.requests + [Request(Some(b), false)], pcs := st.pcs + [Committing(1, b, Appending)],
                       status := st.status + [None], queue := [i])
  {
    var i, r := |st.requests|, Request(Some(b), false);
    st1 := Arrive(st, r);
    st2 := SetPc(st1, i, Room);
    assert ThreadStep(st1, i, st2);
    st3 := SetPc(st2, i, Committing(1, b, Appending));
    var queue := Requests(st2);
    assert queue == [r] && queue[..1] == [r] && [r][..0] == [];
    assert Joined([r]) == Append(EMPTY, b) == b;
    assert IsGroup(queue, 1);
    assert BuildStep(st2, i, 1, st3);
    assert ThreadStep(st2, i, st3);
    assert st3.pcs == st.pcs + [Committing(1, b, Appending)];
  }

  ghost predicate Alone(st: State, b: Batch, stage: Stage, g: Option<Group>) {
    && |st.pcs| == |st.status| == |st.requests| && st.requests != [] && !st.bgError
    && var i := |st.requests| - 1;
       && st.queue == [i] && st.requests[i] == Request(Some(b), false)
       && st.pcs[i] == Committing(1, b, stage) && st.tail == g
  }

  lemma AppendAlone(st: State, b: Batch, ok: bool) returns (st': State, g: Group)
    requires Alone(st, b, Appending, None)
    ensures g == Group(st.lastSequence + 1, b, |st.requests| - 1, |st.requests|, ok, false, [], false)
    ensures Next(st, st') && Alone(st', b, if ok then Appended else Broken, Some(g))
    ensures st'.requests == st.requests && st'.groups == st.groups && st'.lastSequence == st.lastSequence
  {
    var i := |st.requests| - 1;
    g := Group(st.lastSequence + 1, b, i, i + 1, ok, false, [], false);
    st' := SetPc(st, i, st.pcs[i].(stage := if ok then Appended else Broken)).(tail := Some(g));
    assert ThreadStep(st, i, st');
  }

  lemma InsertAlone(st: State, b: Batch, g: Group) returns (st1: State, st2: State)
    requires Alone(st, b, Appended, Some(g))
    ensures Next(st, st1) && Next(st1, st2)
    ensures Alone(st2, b, if WellFormed(b) then Applied else Broken, Some(g.(inserted := Parse(b.data).ops, applied := WellFormed(b))))
    ensures st2.requests == st.requests && st2.groups == st.groups && st2.lastSequence == st.lastSequence
  {
    hide Parse, WellFormed;
    var i := |st.requests| - 1;
    st1 := SetPc(st, i, st.pcs[i].(stage := Synced));
    assert ThreadStep(st, i, st1);
    st2 := SetPc(st1, i, st1.pcs[i].(stage := if WellFormed(b) then Applied else Broken))
           .(tail := Some(g.(inserted := Parse(b.data).ops, applied := WellFormed(b))));
    assert ThreadStep(st1, i, st2);
  }

  lemma PopAlone(st: State, b: Batch, stage: Stage, g: Group) returns (st': State)
    requires Alone(st, b, stage, Some(g)) && (stage.Applied? || stage.Broken?) && g.lo == |st.requests| - 1
    ensures Next(st, st') && Idle(st') && st'.groups == st.groups + [g] && st'.lastSequence == st.lastSequence + b.count
    ensures st'.requests == st.requests && st'.status[|st.requests| - 1] == Some(if stage.Applied? then Ok else Error)
  {
    var i := |st.requests| - 1;
    st' := Pop(st, i, 1, if stage.Applied? then Ok else Error).(lastSequence := st.lastSequence + b.count);
    assert st.queue[..1] == [i];
    assert ThreadStep(st, i, st');
  }

  /** It commits its batch as far as that goes, or fails to append it. */
  lemma CommitAlone(st: State, b: Batch, append: bool) returns (path: seq<State>, st': State, g: Group)
    requires Idle(st)
    ensures IsPath(path, st, st') && Idle(st') && st'.groups == st.groups + [g] && |st'.requests| == |st.requests| + 1
    ensures g.first == st.lastSequence + 1 && g.batch == b && g.logged == append && st'.lastSequence == st.lastSequence + b.count
    ensures g.applied == (append && WellFormed(b)) && g.inserted == if append then Parse(b.data).ops else []
    ensures st'.status[|st.requests|] == Some(if append && WellFormed(b) then Ok else Error)
  {
    hide Next, Parse, WellFormed;
    var st1, st2, st3 := LeadAlone(st, b);
    var st4, g4 := AppendAlone(st3, b, append);
    if append {
      var st5, st6 := InsertAlone(st4, b, g4);
      g := g4.(inserted := Parse(b.data).ops, applied := WellFormed(b));
      st' := PopAlone(st6, b, if WellFormed(b) then Applied else Broken, g);
      path := [st, st1, st2, st3, st4, st5, st6, st'];
    } else {
      g := g4;
      st' := PopAlone(st4, b, Broken, g);
      path := [st, st1, st2, st3, st4, st'];
    }
  }

  /** A run whose log has a gap: the second of three writes fails to be appended. */
  lemma GapOccurs(b: Batch) returns (run: seq<State>, groups: seq<Group>)
    requires b.count != 0
    ensures IsRun(run) && groups == run[|run| - 1].groups && ConsecutiveRecords(groups, 0, 2)
    ensures EndOf(groups[0]) < groups[2].first
  {
    hide Next, Parse, WellFormed;
    var st := Initial();
    var path1, st1, g1 := CommitAlone(st, b, true);
    var path2, st2, g2 := CommitAlone(st1, b, false);
    var path3, st3, g3 := CommitAlone(st2, b, true);
    JoinPaths(path1, path2, st, st1, st2);
    JoinPaths(path1 + path2[1..], path3, st, st2, st3);
    run := path1 + path2[1..] + path3[1..];
    groups := st3.groups;
    assert groups == [g1, g2, g3];
  }

  /** For every malformed batch a run whose only write is told of failure and has left in the
      memtable whatever could be read, with the last sequence number past it. */
  lemma HalfApplied(b: Batch) returns (run: seq<State>, g: Group)
    requires !WellFormed(b)
    ensures IsRun(run) && run[|run| - 1].groups == [g] && run[|run| - 1].lastSequence == b.count
    ensures run[|run| - 1].status != [] && run[|run| - 1].status[0] == Some(Error)
    ensures !g.applied && g.first == 1 && g.batch == b && g.inserted == Parse(b.data).ops
  {
    hide Next, Parse, WellFormed;
    var st := Initial();
    var path, st', g' := CommitAlone(st, b, true);
    run, g := path, g';
    assert [] + [g] == [g];
  }

  /** Such a batch: an operation followed by a record with a tag that means nothing. */
  lemma MalformedBatch(op: Op)
    requires Proper(op) && Fits(op)
    ensures var b := Batch(2, Encode(op) + [7]);
            !WellFormed(b) && Parse(b.data).ops == [op] && 0 < |Parse(b.data).ops| < b.count
  {
    RecordReadsBack(op, [7]);
    assert Parse([7]) == Parsed([], false);
    assert [op] + [] == [op];
  }
}
