/** What reads return, in terms of the operations that were asked for: the database is a map that
    the operations of all acknowledged writes update in order. */
module EngineReads {
  import opened Store
  import opened Compaction
  import opened Engine
  import opened EngineSafety

  // ----- the map

  /** What a key maps to after these operations: the last one on the key decides. */
  function Lookup(cmp: Comparator, ops: seq<Op>, key: Bytes): Option<Bytes> {
    if ops == [] then None
    else
      var last := ops[|ops| - 1];
      if cmp(last.key, key) == 0 then (if last.kind.Value? then Some(last.value) else None)
      else Lookup(cmp, ops[..|ops| - 1], key)
  }

  /** The entries are these operations, one for one. */
  ghost predicate Carries(es: seq<Entry>, ops: seq<Op>) {
    |es| == |ops| && forall i | 0 <= i < |es| :: es[i].key == ops[i].key && es[i].kind == ops[i].kind && es[i].value == ops[i].value
  }

  ghost predicate Ascending(es: seq<Entry>) {
    forall i, j | 0 <= i < j < |es| :: es[i].seqno < es[j].seqno
  }

  /** The first n entries are those that a snapshot includes. */
  ghost predicate CutAt(es: seq<Entry>, s: nat, n: nat) {
    n <= |es| && forall i | 0 <= i < |es| :: es[i].seqno <= s <==> i < n
  }

  /** Where the last operation on the key is, if any. */
  lemma {:induction false} LookupFinds(cmp: Comparator, ops: seq<Op>, key: Bytes) returns (i: int)
    ensures -1 <= i < |ops|
    ensures forall j | i < j < |ops| :: !Same(cmp, ops[j].key, key)
    ensures i == -1 ==> Lookup(cmp, ops, key) == None
    ensures 0 <= i ==> Same(cmp, ops[i].key, key) && Lookup(cmp, ops, key) == if ops[i].kind.Value? then Some(ops[i].value) else None
  {
    if ops == [] {
      i := -1;
    } else if cmp(ops[|ops| - 1].key, key) == 0 {
      i := |ops| - 1;
    } else {
      i := LookupFinds(cmp, ops[..|ops| - 1], key);
    }
  }

  /** Reading entries at a snapshot is looking up the operations it includes. */
  lemma AnswerIsLookup(cmp: Comparator, es: seq<Entry>, ops: seq<Op>, s: nat, n: nat, key: Bytes)
    requires Carries(es, ops) && Ascending(es) && CutAt(es, s, n)
    ensures Answers(cmp, ToSet(es), s, key, Lookup(cmp, ops[..n], key))
  {
    var i := LookupFinds(cmp, ops[..n], key);
    hide View, Lookup;
    forall e | e in View(cmp, ToSet(es), s) && Same(cmp, e.key, key)
      ensures 0 <= i && e == es[i]
    {
      OnlyTheLast(cmp, es, ops, s, n, key, i, e);
    }
    if 0 <= i && ops[i].kind.Value? {
      LastIsLive(cmp, es, ops, s, n, key, i);
      assert es[i] in View(cmp, ToSet(es), s) && Same(cmp, es[i].key, key) && es[i].value == ops[i].value;
    } else if 0 <= i {
      KindInView(cmp, ToSet(es), s, es[i]);
    }
  }

  lemma KindInView(cmp: Comparator, es: set<Entry>, s: nat, e: Entry)
    ensures e in View(cmp, es, s) ==> e.kind.Value?
  {
  }

  lemma OnlyTheLast(cmp: Comparator, es: seq<Entry>, ops: seq<Op>, s: nat, n: nat, key: Bytes, i: int, e: Entry)
    requires Carries(es, ops) && Ascending(es) && CutAt(es, s, n) && -1 <= i < n
    requires forall j | i < j < n :: !Same(cmp, ops[j].key, key)
    requires 0 <= i ==> Same(cmp, ops[i].key, key)
    requires e in View(cmp, ToSet(es), s) && Same(cmp, e.key, key)
    ensures 0 <= i && e == es[i]
  {
    var j :| 0 <= j < |es| && es[j] == e;
    assert j < n && ops[j].key == es[j].key;
    if j < i {
      SameIsEquivalence(cmp, key, es[j].key, es[i].key);
      SameIsEquivalence(cmp, es[i].key, key, es[j].key);
      SameIsEquivalence(cmp, es[j].key, key, es[j].key);
      assert es[i] in ToSet(es) && Hides(cmp, es[i], es[j], s);
    }
  }

  lemma LastIsLive(cmp: Comparator, es: seq<Entry>, ops: seq<Op>, s: nat, n: nat, key: Bytes, i: nat)
    requires Carries(es, ops) && Ascending(es) && CutAt(es, s, n) && i < n && ops[i].kind.Value? && Same(cmp, ops[i].key, key)
    requires forall j | i < j < n :: !Same(cmp, ops[j].key, key)
    ensures es[i] in View(cmp, ToSet(es), s)
  {
    forall newer | newer in ToSet(es)
      ensures !Hides(cmp, newer, es[i], s)
    {
      var j :| 0 <= j < |es| && es[j] == newer;
      if Hides(cmp, newer, es[i], s) {
        SameIsEquivalence(cmp, es[j].key, es[i].key, key);
      }
    }
  }

  // ----- entries carry what was asked for, in every state of every run

  ghost predicate AskedOk(st: State) {
    && Carries(Flatten(st.history), st.asked) && Ascending(Flatten(st.history))
    && (st.phase.Running? && st.phase.ram.writer.Some? ==> Carries(st.phase.ram.writer.value.group, st.phase.ram.writer.value.ops))
  }

  lemma FlattenSnoc(h: seq<Group>, g: Group)
    ensures Flatten(h + [g]) == Flatten(h) + g
  {
    assert (h + [g])[..|h|] == h;
  }

  /** A group that joins the history. */
  lemma JoinsHistory(h: seq<Group>, asked: seq<Op>, last: nat, w: Write)
    requires Carries(Flatten(h), asked) && Ascending(Flatten(h)) && Upto(LogEntries(h), last)
    requires WriterOk(Some(w), last) && Carries(w.group, w.ops)
    ensures Carries(Flatten(h + [w.group]), asked + w.ops) && Ascending(Flatten(h + [w.group]))
  {
    FlattenSnoc(h, w.group);
    var es := Flatten(h);
    assert forall i | 0 <= i < |es| :: es[i] in LogEntries(h);
  }

  lemma NumberCarries(ops: seq<Op>, first: nat)
    ensures Carries(Number(ops, first), ops)
  {
  }

  lemma StepAsked(cmp: Comparator, st: State, st': State)
    requires Inv(cmp, st) && AskedOk(st) && Next(cmp, st, st')
    ensures AskedOk(st')
  {
    hide Number, Flatten, Carries, Ascending, LogEntries;
    if CrashStep(st, st') || (st.phase.Running? && PublishStep(st, st')) {
      if st.phase.Running? && st.phase.ram.writer.Some? {
        JoinsHistory(st.history, st.asked, st.phase.ram.lastSequence, st.phase.ram.writer.value);
      } else {
        assert st.history + [] == st.history && st.asked + [] == st.asked;
      }
    } else if st.phase.Running? && st'.phase.Running? && st'.history == st.history && st'.asked == st.asked
              && QuietStep(cmp, st.disk, st.phase.ram, st'.disk, st'.phase.ram) {
      QuietAsked(cmp, st.disk, st.phase.ram, st'.disk, st'.phase.ram);
    }
  }

  lemma QuietAsked(cmp: Comparator, d: Disk, r: Ram, d': Disk, r': Ram)
    requires QuietStep(cmp, d, r, d', r')
    requires r.writer.Some? ==> Carries(r.writer.value.group, r.writer.value.ops)
    ensures r'.writer.Some? ==> Carries(r'.writer.value.group, r'.writer.value.ops)
  {
    hide Number, Carries;
    if r.writer.None? && r.mems.logfile in d.logs && exists ops :: (d', r') == Append(d, r, ops) {
      var ops :| (d', r') == Append(d, r, ops);
      NumberCarries(ops, r.lastSequence + 1);
    }
  }

  lemma {:induction false} RunAsked(cmp: Comparator, run: seq<State>, i: nat)
    requires IsRun(cmp, run) && i < |run|
    ensures AskedOk(run[i])
  {
    hide Next, Inv, AskedOk;
    if i == 0 {
      InitialAsked();
    } else {
      RunAsked(cmp, run, i - 1);
      RunInv(cmp, run, i - 1);
      assert StepAt(cmp, run, i - 1);
      StepAsked(cmp, run[i - 1], run[i]);
    }
  }

  lemma InitialAsked()
    ensures AskedOk(Initial())
  {
  }

  /** What was asked for is never forgotten either, and a write adds exactly its operations. */
  lemma {:induction false} AskedGrows(cmp: Comparator, run: seq<State>, i: nat, j: nat)
    requires IsRun(cmp, run) && i <= j < |run|
    ensures run[i].asked <= run[j].asked
    decreases j
  {
    if i < j {
      AskedGrows(cmp, run, i, j - 1);
      assert StepAt(cmp, run, j - 1);
    }
  }

  /** From Append to Publish: the operations handed to Append are those that are added. */
  lemma {:induction false} WriteAddsItsOps(cmp: Comparator, run: seq<State>, i: nat, j: nat, ops: seq<Op>)
    requires IsRun(cmp, run) && i < j < |run| && forall k | i <= k <= j :: run[k].phase.Running?
    requires run[i].phase.ram.writer.None? && run[i].phase.ram.mems.logfile in run[i].disk.logs
    requires (run[i + 1].disk, run[i + 1].phase.ram) == Append(run[i].disk, run[i].phase.ram, ops)
    requires forall k | i < k < j :: run[k].phase.ram.writer.Some?
    ensures run[j].asked + (if run[j].phase.ram.writer.Some? then run[j].phase.ram.writer.value.ops else []) == run[i].asked + ops
    decreases j
  {
    assert StepAt(cmp, run, j - 1);
    if i + 1 < j {
      WriteAddsItsOps(cmp, run, i, j - 1, ops);
    }
  }

  // ----- reads

  lemma SameView(cmp: Comparator, a: set<Entry>, b: set<Entry>, s: nat, key: Bytes, answer: Option<Bytes>)
    requires View(cmp, a, s) == View(cmp, b, s) && Answers(cmp, b, s, key, answer)
    ensures Answers(cmp, a, s, key, answer)
  {
  }

  /** An ascending list is cut in one place. */
  lemma {:induction false} CutPlace(es: seq<Entry>, s: nat) returns (n: nat)
    requires Ascending(es)
    ensures CutAt(es, s, n)
  {
    if es == [] {
      n := 0;
    } else {
      var last := |es| - 1;
      n := CutPlace(es[..last], s);
      if es[last].seqno <= s {
        assert forall i | 0 <= i < last :: es[..last][i].seqno < es[last].seqno;
        n := |es|;
      } else {
        assert forall i | 0 <= i < last :: es[i] == es[..last][i];
      }
    }
  }

  /** A read in progress answers every key from the operations that its snapshot includes: those
      of the first groups of the history, and of whole groups only. */
  lemma ReadsAsAsked(cmp: Comparator, run: seq<State>, i: nat, k: nat, key: Bytes) returns (n: nat)
    requires IsRun(cmp, run) && i < |run| && run[i].phase.Running? && k < |run[i].phase.ram.readers|
    ensures var st, rd := run[i], run[i].phase.ram.readers[k];
            && CutAt(Flatten(st.history), rd.snapshot, n) && n <= |st.asked|
            && Answers(cmp, Captured(st.disk.tables, st.phase.ram.mems, rd), rd.snapshot, key, Lookup(cmp, st.asked[..n], key))
            && (rd.snapshot == st.phase.ram.lastSequence ==> n == |st.asked|)
  {
    hide Inv, Lookup;
    RunAsked(cmp, run, i);
    ReadersIsolated(cmp, run, i, k);
    var st, rd := run[i], run[i].phase.ram.readers[k];
    var es := Flatten(st.history);
    n := CutPlace(es, rd.snapshot);
    AnswerIsLookup(cmp, es, st.asked, rd.snapshot, n, key);
    SameView(cmp, Captured(st.disk.tables, st.phase.ram.mems, rd), LogEntries(st.history), rd.snapshot, key, Lookup(cmp, st.asked[..n], key));
    if rd.snapshot == st.phase.ram.lastSequence {
      AllIncluded(cmp, run, i, rd.snapshot, n);
    }
  }

  lemma AllIncluded(cmp: Comparator, run: seq<State>, i: nat, s: nat, n: nat)
    requires IsRun(cmp, run) && i < |run| && run[i].phase.Running? && run[i].phase.ram.lastSequence <= s
    requires CutAt(Flatten(run[i].history), s, n)
    ensures n == |Flatten(run[i].history)|
  {
    RunInv(cmp, run, i);
    var es := Flatten(run[i].history);
    assert forall j | 0 <= j < |es| :: es[j] in LogEntries(run[i].history) && es[j].seqno <= s;
    assert es != [] ==> es[|es| - 1].seqno <= s;
  }

  /** After recovery the tables answer every key from all operations of acknowledged writes, and of
      a write that a crash found in the log. */
  lemma RecoversAsAsked(cmp: Comparator, run: seq<State>, i: nat, s: nat, key: Bytes)
    requires IsRun(cmp, run) && 0 < i < |run|
    requires run[i - 1].phase.Recovering? && run[i].phase.Running? && run[i].phase.ram.lastSequence <= s
    ensures var st := run[i];
            Answers(cmp, Contents(st.disk.tables, st.disk.manifest.live), s, key, Lookup(cmp, st.asked, key))
  {
    hide Inv, Lookup;
    RunAsked(cmp, run, i);
    Recovery(cmp, run, i, s);
    var st := run[i];
    var es := Flatten(st.history);
    var n := CutPlace(es, s);
    AllIncluded(cmp, run, i, s, n);
    AnswerIsLookup(cmp, es, st.asked, s, n, key);
    assert st.asked[..n] == st.asked;
    SameView(cmp, Contents(st.disk.tables, st.disk.manifest.live), LogEntries(st.history), s, key, Lookup(cmp, st.asked, key));
  }

  // ----- fresh reads and snapshot reads

  /** A read that begins now, without a snapshot, sees every write that has returned. */
  lemma FreshReadSeesAll(cmp: Comparator, run: seq<State>, i: nat, key: Bytes)
    requires IsRun(cmp, run) && i + 1 < |run| && run[i].phase.Running? && run[i + 1].phase.Running?
    requires run[i + 1].phase.ram == BeginRead(run[i].disk, run[i].phase.ram, None) && run[i + 1].asked == run[i].asked
    ensures var st := run[i + 1];
            && st.phase.ram.readers != []
            && var rd := st.phase.ram.readers[|st.phase.ram.readers| - 1];
               Answers(cmp, Captured(st.disk.tables, st.phase.ram.mems, rd), rd.snapshot, key, Lookup(cmp, run[i].asked, key))
  {
    var st := run[i + 1];
    var n := ReadsAsAsked(cmp, run, i + 1, |st.phase.ram.readers| - 1, key);
    RunAsked(cmp, run, i + 1);
    assert st.asked[..n] == st.asked;
  }

  /** What is asked for after a moment is numbered past the last sequence number of that moment. */
  lemma {:induction false} LaterIsNumberedLater(cmp: Comparator, run: seq<State>, i: nat, j: nat)
    requires IsRun(cmp, run) && i <= j < |run| && forall k | i <= k <= j :: run[k].phase.Running?
    ensures run[i].phase.ram.lastSequence <= run[j].phase.ram.lastSequence
    ensures var was, now := Flatten(run[i].history), Flatten(run[j].history);
            |was| <= |now| && now[..|was|] == was && forall m | |was| <= m < |now| :: run[i].phase.ram.lastSequence < now[m].seqno
    decreases j
  {
    hide IsRun;
    if i < j {
      LaterIsNumberedLater(cmp, run, i, j - 1);
      OneStepLater(cmp, run, j - 1, run[i].phase.ram.lastSequence);
      TwoSteps(Flatten(run[i].history), Flatten(run[j - 1].history), Flatten(run[j].history), run[i].phase.ram.lastSequence);
    }
  }

  lemma TwoSteps(a: seq<Entry>, b: seq<Entry>, c: seq<Entry>, s: nat)
    requires |a| <= |b| <= |c| && b[..|a|] == a && c[..|b|] == b
    requires (forall m | |a| <= m < |b| :: s < b[m].seqno) && forall m | |b| <= m < |c| :: s < c[m].seqno
    ensures c[..|a|] == a && forall m | |a| <= m < |c| :: s < c[m].seqno
  {
    assert c[..|a|] == c[..|b|][..|a|];
    forall m | |a| <= m < |b|
      ensures s < c[m].seqno
    {
      assert c[m] == c[..|b|][m] == b[m];
    }
  }

  lemma OneStepLater(cmp: Comparator, run: seq<State>, k: nat, s: nat)
    requires IsRun(cmp, run) && k + 1 < |run| && run[k].phase.Running? && run[k + 1].phase.Running? && s <= run[k].phase.ram.lastSequence
    ensures s <= run[k + 1].phase.ram.lastSequence
    ensures var was, now := Flatten(run[k].history), Flatten(run[k + 1].history);
            |was| <= |now| && now[..|was|] == was && forall m | |was| <= m < |now| :: s < now[m].seqno
  {
    RunInv(cmp, run, k);
    assert StepAt(cmp, run, k);
    var st, st' := run[k], run[k + 1];
    if PublishStep(st, st') {
      FlattenSnoc(st.history, st.phase.ram.writer.value.group);
    } else {
      assert st'.history == st.history;
      SequenceStays(cmp, st, st');
    }
  }

  lemma SequenceStays(cmp: Comparator, st: State, st': State)
    requires st.phase.Running? && st'.phase.Running? && Next(cmp, st, st') && !PublishStep(st, st')
    ensures st'.phase.ram.lastSequence == st.phase.ram.lastSequence
  {
  }

  /** Snapshot isolation: a read at a snapshot answers as a read would have when the snapshot was
      made, however much is written, flushed and compacted in between. */
  lemma SnapshotReadsThen(cmp: Comparator, run: seq<State>, i: nat, j: nat, k: nat, key: Bytes)
    requires IsRun(cmp, run) && i <= j < |run| && forall m | i <= m <= j :: run[m].phase.Running?
    requires k < |run[j].phase.ram.readers| && run[j].phase.ram.readers[k].snapshot == run[i].phase.ram.lastSequence
    ensures var st, rd := run[j], run[j].phase.ram.readers[k];
            Answers(cmp, Captured(st.disk.tables, st.phase.ram.mems, rd), rd.snapshot, key, Lookup(cmp, run[i].asked, key))
  {
    hide Inv, Lookup, Answers, Next;
    var n := ReadsAsAsked(cmp, run, j, k, key);
    LaterIsNumberedLater(cmp, run, i, j);
    AskedGrows(cmp, run, i, j);
    RunAsked(cmp, run, i);
    SameCut(cmp, run, i, j, n);
    assert run[j].asked[..n] == run[i].asked;
  }

  lemma SameCut(cmp: Comparator, run: seq<State>, i: nat, j: nat, n: nat)
    requires IsRun(cmp, run) && i <= j < |run| && run[i].phase.Running?
    requires var was, now := Flatten(run[i].history), Flatten(run[j].history);
             |was| <= |now| && now[..|was|] == was && forall m | |was| <= m < |now| :: run[i].phase.ram.lastSequence < now[m].seqno
    requires CutAt(Flatten(run[j].history), run[i].phase.ram.lastSequence, n)
    ensures n == |Flatten(run[i].history)|
  {
    RunInv(cmp, run, i);
    var s, was, now := run[i].phase.ram.lastSequence, Flatten(run[i].history), Flatten(run[j].history);
    forall m | 0 <= m < |was|
      ensures now[m].seqno <= s
    {
      assert now[m] == now[..|was|][m] == was[m] && was[m] in LogEntries(run[i].history);
    }
    assert forall m | 0 <= m < |now| :: now[m].seqno <= s <==> m < |was|;
    OneCut(now, s, n, |was|);
  }

  lemma OneCut(es: seq<Entry>, s: nat, n: nat, m: nat)
    requires CutAt(es, s, n) && CutAt(es, s, m)
    ensures n == m
  {
    var i := if n < m then n else m;
    assert i < |es| ==> (es[i].seqno <= s <==> i < n) && (es[i].seqno <= s <==> i < m);
  }

  /** A new snapshot is of now, and a read at it is at that number. */
  lemma SnapshotIsNow(d: Disk, r: Ram, k: nat)
    ensures NewSnapshot(r).snapshots == r.snapshots + [r.lastSequence]
    ensures k < |r.snapshots| ==>
              var readers := BeginRead(d, r, Some(k)).readers;
              |readers| == |r.readers| + 1 && readers[|r.readers|].snapshot == r.snapshots[k]
  {
  }

  // ----- compactions and files

  /** A compaction starts with the oldest live snapshot, or the last sequence number without one,
      and keeps what the drop rules leave of its input at that number. */
  lemma MergeUsesOldest(cmp: Comparator, run: seq<State>, i: nat)
    requires IsRun(cmp, run) && i + 1 < |run| && run[i].phase.Running? && run[i + 1].phase.Running?
    requires StartMergeStep(cmp, run[i].disk, run[i].phase.ram, run[i + 1].disk, run[i + 1].phase.ram)
    ensures var r, k := run[i].phase.ram, run[i + 1].phase.ram.worker;
            && k.merge.Some?
            && var c := k.merge.value;
               && (if r.snapshots == [] then c.smallest == r.lastSequence else c.smallest in r.snapshots)
               && (forall s | s in r.snapshots :: c.smallest <= s)
               && c.todo == Survivors(cmp, c.input, c.smallest, c.base, |c.input|)
  {
    RunInv(cmp, run, i);
  }

  /** While files are swept, a table that no version in use names and nobody is building can go. */
  lemma ObsoleteCanGo(cmp: Comparator, st: State, n: nat)
    requires st.phase.Running? && st.phase.ram.worker.sweeping && n in st.disk.tables
    requires n !in st.disk.manifest.live && n !in st.phase.ram.worker.pending
    requires forall rd | rd in st.phase.ram.readers :: n !in rd.version
    ensures exists st' :: Next(cmp, st, st') && st'.disk.tables == st.disk.tables - {n}
  {
    var st' := st.(disk := st.disk.(tables := st.disk.tables - {n}));
    assert !KeptTable(st.disk, st.phase.ram, n);
    assert SweepStep(st.disk, st.phase.ram, st'.disk, st'.phase.ram);
    assert Next(cmp, st, st');
  }

  /** And so can a log that recovery would not read. */
  lemma OldLogCanGo(cmp: Comparator, st: State, n: nat)
    requires st.phase.Running? && st.phase.ram.worker.sweeping && n in st.disk.logs && n < st.disk.manifest.logNumber
    ensures exists st' :: Next(cmp, st, st') && st'.disk.logs == st.disk.logs - {n}
  {
    var st' := st.(disk := st.disk.(logs := st.disk.logs - {n}));
    assert SweepStep(st.disk, st.phase.ram, st'.disk, st'.phase.ram);
    assert Next(cmp, st, st');
  }

  // ----- the sequence number after recovery

  ghost predicate SeenNumber(st: State) {
    st.phase.Recovering? ==> st.phase.replay.maxSequence == 0 || st.phase.replay.maxSequence in Numbers(LogEntries(st.history))
  }

  lemma StepSeen(cmp: Comparator, st: State, st': State)
    requires Inv(cmp, st) && SeenNumber(st) && Next(cmp, st, st')
    ensures SeenNumber(st')
  {
    if st.phase.Recovering? && st'.phase.Recovering? && !CrashStep(st, st') {
      var d, p := st.disk, st.phase.replay;
      var n, upto :| First(p.todo, n) && n in d.logs && p.pos <= upto <= |d.logs[n]|
                     && var (d', p') := Spill(d, p, n, upto); st' == st.(disk := d', phase := Recovering(p'));
      SpilledIsHistory(cmp, st, n, upto);
    }
  }

  lemma SpilledIsHistory(cmp: Comparator, st: State, n: nat, upto: nat)
    requires Inv(cmp, st) && st.phase.Recovering? && First(st.phase.replay.todo, n) && n in st.disk.logs
    requires st.phase.replay.pos <= upto <= |st.disk.logs[n]|
    ensures LogEntries(st.disk.logs[n][st.phase.replay.pos..upto]) <= LogEntries(st.history)
  {
    var log, pos := st.disk.logs[n], st.phase.replay.pos;
    SplitEntries(log[..upto], pos, upto);
    assert log[..upto][pos..] == log[pos..upto] && log[..upto][pos..upto] == log[pos..upto];
    SplitEntries(log, pos, upto);
    SplitEntries(log, 0, pos);
    assert log[0..] == log;
    assert LogEntries(log) <= Logged(st.disk.logs, st.disk.manifest.logNumber);
  }

  lemma {:induction false} RunSeen(cmp: Comparator, run: seq<State>, i: nat)
    requires IsRun(cmp, run) && i < |run|
    ensures SeenNumber(run[i])
  {
    hide Next, Inv, SeenNumber;
    if i == 0 {
      InitialSeen();
    } else {
      RunSeen(cmp, run, i - 1);
      RunInv(cmp, run, i - 1);
      assert StepAt(cmp, run, i - 1);
      StepSeen(cmp, run[i - 1], run[i]);
    }
  }

  lemma InitialSeen()
    ensures SeenNumber(Initial())
  {
  }

  /** Recovery goes on with a number that was used: the manifest's, or that of an entry. */
  lemma NumberAfterRecovery(cmp: Comparator, run: seq<State>, i: nat)
    requires IsRun(cmp, run) && 0 < i < |run| && run[i - 1].phase.Recovering? && run[i].phase.Running?
    ensures var last := run[i].phase.ram.lastSequence;
            last == run[i - 1].disk.manifest.lastSequence || last in Numbers(LogEntries(run[i].history))
  {
    RunSeen(cmp, run, i - 1);
    assert StepAt(cmp, run, i - 1);
  }
}
