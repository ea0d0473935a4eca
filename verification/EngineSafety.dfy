/** What every action of the engine keeps, and what follows for whole runs. */
module EngineSafety {
  import opened Store
  import opened Compaction
  import opened Engine

  // ----- sets of entries, by table and by log

  lemma ContentsUnion(tables: map<nat, set<Entry>>, a: set<nat>, b: set<nat>)
    ensures Contents(tables, a + b) == Contents(tables, a) + Contents(tables, b)
  {
  }

  lemma ContentsSingle(tables: map<nat, set<Entry>>, n: nat)
    requires n in tables
    ensures Contents(tables, {n}) == tables[n]
  {
  }

  lemma LogSnoc(groups: seq<Group>, g: Group)
    ensures LogEntries(groups + [g]) == LogEntries(groups) + ToSet(g)
  {
    assert (groups + [g])[..|groups|] == groups;
  }

  // ----- the invariant of a running database

  ghost predicate Upto(es: set<Entry>, s: nat) {
    forall e | e in es :: e.seqno <= s
  }

  ghost predicate Above(es: set<Entry>, s: nat) {
    forall e | e in es :: s < e.seqno
  }

  ghost function TableCut(m: Memtables): nat {
    if m.imm.Some? then m.immCut else m.cut
  }

  ghost predicate LiveOk(tables: map<nat, set<Entry>>, live: set<nat>, nextFile: nat) {
    live <= tables.Keys && forall n | n in live :: n < nextFile
  }

  ghost predicate NumbersOk(logs: map<nat, seq<Group>>, mf: Manifest, m: Memtables, pending: set<nat>, nextFile: nat) {
    && (forall n | n in logs || n in m.contents || n in pending :: n < nextFile)
    && mf.logNumber < mf.nextFile <= nextFile
    && m.logfile in logs && m.logfile in m.contents
    && (forall n | n in logs :: n <= m.logfile)
  }

  /** The logs that recovery would replay are the ones backing imm_ and mem_. */
  ghost predicate ImmLogOk(logs: map<nat, seq<Group>>, logNumber: nat, m: Memtables) {
    match m.imm
    case None => logNumber == m.logfile
    case Some(i) =>
      && logNumber == i < m.logfile && i in logs && i in m.contents
      && m.contents[i] == LogEntries(logs[i])
      && forall n | n in logs && i < n :: n == m.logfile
  }

  /** The current log holds what mem_ holds, plus what a write has yet to insert. */
  ghost predicate MemLogOk(logs: map<nat, seq<Group>>, m: Memtables, writer: Option<Write>) {
    && m.logfile in logs
    && var log := logs[m.logfile];
       match writer
       case None => Mem(m) == LogEntries(log)
       case Some(w) =>
         && log != [] && log[|log| - 1] == w.group && w.inserted <= |w.group|
         && Mem(m) == LogEntries(log[..|log| - 1]) + Unpublished(writer)
  }

  ghost predicate CutsOk(tables: set<Entry>, diskLast: nat, m: Memtables, lastSequence: nat) {
    && m.immCut <= m.cut <= lastSequence
    && TableCut(m) <= diskLast <= lastSequence
    && Upto(tables, TableCut(m))
    && Above(Imm(m), m.immCut) && Upto(Imm(m), m.cut)
    && Above(Mem(m), m.cut)
  }

  ghost predicate WriterOk(writer: Option<Write>, lastSequence: nat) {
    writer.Some? ==>
      && writer.value.inserted <= |writer.value.group|
      && forall i | 0 <= i < |writer.value.group| :: writer.value.group[i].seqno == lastSequence + 1 + i
  }

  ghost predicate HistoryOk(acked: set<Entry>, diskLast: nat, m: Memtables, lastSequence: nat) {
    && Upto(acked, lastSequence) && Distinct(acked)
    && (forall e | e in acked :: e.seqno <= TableCut(m) || e in Imm(m) || e in Mem(m))
    && (lastSequence <= diskLast || exists e :: (e in Imm(m) || e in Mem(m)) && e.seqno == lastSequence)
  }

  /** Reads from the floor on see what the full history would show. */
  ghost predicate ViewOk(cmp: Comparator, readable: set<Entry>, known: set<Entry>, floor: nat) {
    && readable <= known
    && forall s: nat | floor <= s :: View(cmp, readable, s) == View(cmp, known, s)
  }

  ghost predicate SnapshotsOk(snapshots: seq<nat>, lastSequence: nat, floor: nat, merge: Option<Merge>) {
    && floor <= lastSequence
    && (forall i, j | 0 <= i < j < |snapshots| :: snapshots[i] <= snapshots[j])
    && (forall i | 0 <= i < |snapshots| :: floor <= snapshots[i] <= lastSequence)
    && (merge.Some? ==> merge.value.smallest <= lastSequence
                        && forall i | 0 <= i < |snapshots| :: merge.value.smallest <= snapshots[i])
  }

  ghost predicate WholeGroup(g: Group, s: nat) {
    (forall e | e in g :: e.seqno <= s) || (forall e | e in g :: s < e.seqno)
  }

  ghost predicate WholeGroups(history: seq<Group>, s: nat) {
    forall g | g in history :: WholeGroup(g, s)
  }

  ghost predicate GroupsOk(snapshots: seq<nat>, history: seq<Group>) {
    forall i | 0 <= i < |snapshots| :: WholeGroups(history, snapshots[i])
  }

  /** The files a read depends on are there, and it sees the history up to its snapshot. */
  ghost predicate ReaderOk(cmp: Comparator, tables: map<nat, set<Entry>>, m: Memtables, lastSequence: nat, nextFile: nat,
                           building: set<nat>, history: seq<Group>, rd: Reader)
  {
    && rd.snapshot <= lastSequence
    && LiveOk(tables, rd.version, nextFile) && rd.version !! building
    && rd.mem in m.contents && (rd.imm.Some? ==> rd.imm.value in m.contents)
    && View(cmp, Captured(tables, m, rd), rd.snapshot) == View(cmp, LogEntries(history), rd.snapshot)
    && WholeGroups(history, rd.snapshot)
  }

  ghost predicate ReadersOk(cmp: Comparator, tables: map<nat, set<Entry>>, m: Memtables, lastSequence: nat, nextFile: nat,
                            building: set<nat>, history: seq<Group>, readers: seq<Reader>)
  {
    forall i | 0 <= i < |readers| :: ReaderOk(cmp, tables, m, lastSequence, nextFile, building, history, readers[i])
  }

  /** Tables written by the background thread and not yet in the manifest. */
  ghost function Building(k: Worker): set<nat> {
    (if k.flush.Some? then {k.flush.value.number} else {}) + Outputs(k)
  }

  ghost function Outputs(k: Worker): set<nat> {
    if k.merge.None? then {} else k.merge.value.outputs + Opened(k.merge.value)
  }

  /** A table being built exists, is in no version, and is pending unless the flush
      that built it is about to install it; then no sweep can be under way. */
  ghost predicate BuildingOk(tables: map<nat, set<Entry>>, live: set<nat>, m: Memtables, nextFile: nat, k: Worker) {
    && (k.sweeping ==> k.flush.None?)
    && LiveOk(tables, Building(k), nextFile) && Building(k) !! live
    && Outputs(k) <= k.pending
    && (k.flush.Some? ==>
          var f := k.flush.value;
          && m.imm.Some? && f.number !in Outputs(k)
          && (f.built ==> f.number in tables && tables[f.number] == Imm(m))
          && (!f.built ==> f.number in k.pending))
    && (k.merge.Some? && k.merge.value.open.Some? ==> k.merge.value.open.value !in k.merge.value.outputs)
  }

  ghost predicate MergeOk(cmp: Comparator, tables: map<nat, set<Entry>>, live: set<nat>, c: Merge) {
    && c.inputs <= live && c.deeper <= live - c.inputs
    && Sorted(cmp, c.input) && ToSet(c.input) == Contents(tables, c.inputs)
    && AllNewerThan(cmp, Contents(tables, live - c.inputs - c.deeper), c.input)
    && BaseMeansNothingBelow(cmp, c.base, c.input, Contents(tables, c.deeper))
    && Contents(tables, c.outputs) + ToSet(c.todo) == ToSet(Survivors(cmp, c.input, c.smallest, c.base, |c.input|))
  }

  ghost predicate RunningInv(cmp: Comparator, d: Disk, r: Ram, h: seq<Group>, floor: nat) {
    var mf, live := d.manifest, Contents(d.tables, d.manifest.live);
    && LiveOk(d.tables, mf.live, mf.nextFile)
    && NumbersOk(d.logs, mf, r.mems, r.worker.pending, r.nextFile)
    && ImmLogOk(d.logs, mf.logNumber, r.mems)
    && MemLogOk(d.logs, r.mems, r.writer)
    && CutsOk(live, mf.lastSequence, r.mems, r.lastSequence)
    && WriterOk(r.writer, r.lastSequence)
    && HistoryOk(LogEntries(h), mf.lastSequence, r.mems, r.lastSequence)
    && ViewOk(cmp, Readable(r.mems, live), LogEntries(h) + Unpublished(r.writer), floor)
    && SnapshotsOk(r.snapshots, r.lastSequence, floor, r.worker.merge)
    && GroupsOk(r.snapshots, h)
    && ReadersOk(cmp, d.tables, r.mems, r.lastSequence, r.nextFile, Building(r.worker), h, r.readers)
    && BuildingOk(d.tables, mf.live, r.mems, r.nextFile, r.worker)
    && (r.worker.merge.Some? ==> MergeOk(cmp, d.tables, mf.live, r.worker.merge.value))
  }

  lemma InitialInv(cmp: Comparator)
    ensures RunningInv(cmp, Initial().disk, Initial().phase.ram, [], 0)
  {
  }

  // ----- snapshots and readers

  lemma HistoryGroups(h: seq<Group>, s: nat)
    requires Upto(LogEntries(h), s)
    ensures WholeGroups(h, s)
  {
    forall g, e | g in h && e in g
      ensures e.seqno <= s
    {
      InFlatten(h, g, e);
    }
  }

  lemma {:induction false} InFlatten(h: seq<Group>, g: Group, e: Entry)
    requires g in h && e in g
    ensures e in Flatten(h)
  {
    var n := |h| - 1;
    assert h == h[..n] + [h[n]];
    if g != h[n] {
      InFlatten(h[..n], g, e);
    }
  }

  lemma KeepsNewSnapshot(cmp: Comparator, d: Disk, r: Ram, h: seq<Group>, f: nat)
    requires RunningInv(cmp, d, r, h, f)
    ensures RunningInv(cmp, d, NewSnapshot(r), h, f)
  {
    HistoryGroups(h, r.lastSequence);
  }

  lemma KeepsReleaseSnapshot(cmp: Comparator, d: Disk, r: Ram, h: seq<Group>, f: nat, i: nat)
    requires RunningInv(cmp, d, r, h, f) && i < |r.snapshots|
    ensures RunningInv(cmp, d, ReleaseSnapshot(r, i), h, f)
  {
  }

  lemma KeepsEndSweep(cmp: Comparator, d: Disk, r: Ram, h: seq<Group>, f: nat)
    requires RunningInv(cmp, d, r, h, f)
    ensures RunningInv(cmp, d, r.(worker := r.worker.(sweeping := false)), h, f)
  {
  }

  lemma KeepsDeleteLog(cmp: Comparator, d: Disk, r: Ram, h: seq<Group>, f: nat, n: nat)
    requires RunningInv(cmp, d, r, h, f) && n < d.manifest.logNumber
    ensures RunningInv(cmp, d.(logs := d.logs - {n}), r, h, f)
  {
  }

  ghost predicate Agree(tables: map<nat, set<Entry>>, tables': map<nat, set<Entry>>, ns: set<nat>) {
    forall n | n in ns :: n in tables && n in tables' && tables'[n] == tables[n]
  }

  lemma ContentsAgree(tables: map<nat, set<Entry>>, tables': map<nat, set<Entry>>, ns: set<nat>)
    requires Agree(tables, tables', ns)
    ensures Contents(tables', ns) == Contents(tables, ns)
  {
    forall n, e | n in ns && e in tables[n]
      ensures e in Contents(tables', ns) && e in Contents(tables, ns)
    {
      assert e in tables'[n];
    }
  }

  /** Memtables only grow, and only by entries newer than `last`. */
  ghost predicate Grows(m: Memtables, m': Memtables, last: nat) {
    forall id | id in m.contents ::
      id in m'.contents && m.contents[id] <= m'.contents[id] && Above(m'.contents[id] - m.contents[id], last)
  }

  /** History only grows, and only by groups newer than `last`. */
  ghost predicate Extends(h: seq<Group>, h': seq<Group>, last: nat) {
    h <= h' && forall g | g in h'[|h|..] :: Above(ToSet(g), last)
  }

  lemma {:induction false} ExtendsEntries(h: seq<Group>, h': seq<Group>, last: nat) returns (more: set<Entry>)
    requires Extends(h, h', last)
    ensures LogEntries(h') == LogEntries(h) + more && Above(more, last)
    decreases |h'|
  {
    if h' == h {
      more := {};
    } else {
      var n := |h'| - 1;
      var g := h'[n];
      assert h' == h'[..n] + [g];
      forall x | x in h'[..n][|h|..]
        ensures x in h'[|h|..]
      {
        assert h'[|h|..] == h'[..n][|h|..] + [g];
      }
      assert g in h'[|h|..] by { assert h'[|h|..][n - |h|] == g; }
      var rest := ExtendsEntries(h, h'[..n], last);
      LogSnoc(h'[..n], g);
      more := rest + ToSet(g);
    }
  }

  /** Nothing an action does disturbs a read in progress, as long as the tables of the
      captured version stay and everything added is newer than the last sequence number. */
  lemma ReaderFrame(cmp: Comparator, tables: map<nat, set<Entry>>, m: Memtables, last: nat, next: nat, building: set<nat>,
                    h: seq<Group>, tables': map<nat, set<Entry>>, m': Memtables, last': nat, next': nat,
                    building': set<nat>, h': seq<Group>, rd: Reader)
    requires ReaderOk(cmp, tables, m, last, next, building, h, rd)
    requires last <= last' && next <= next'
    requires Agree(tables, tables', rd.version) && rd.version !! building'
    requires Grows(m, m', last) && Extends(h, h', last)
    ensures ReaderOk(cmp, tables', m', last', next', building', h', rd)
  {
    ContentsAgree(tables, tables', rd.version);
    var before, after := Captured(tables, m, rd), Captured(tables', m', rd);
    var more := after - before;
    assert after == before + more && Above(more, last);
    NewerEntriesInvisible(cmp, before, more, rd.snapshot);
    var added := ExtendsEntries(h, h', last);
    NewerEntriesInvisible(cmp, LogEntries(h), added, rd.snapshot);
    forall g | g in h'
      ensures WholeGroup(g, rd.snapshot)
    {
      assert h' == h + h'[|h|..];
      if g !in h {
        assert Above(ToSet(g), last);
        assert forall e | e in g :: e in ToSet(g);
      }
    }
  }

  lemma ReadersFrame(cmp: Comparator, tables: map<nat, set<Entry>>, m: Memtables, last: nat, next: nat, building: set<nat>,
                     h: seq<Group>, readers: seq<Reader>, tables': map<nat, set<Entry>>, m': Memtables, last': nat,
                     next': nat, building': set<nat>, h': seq<Group>)
    requires ReadersOk(cmp, tables, m, last, next, building, h, readers)
    requires last <= last' && next <= next'
    requires forall i | 0 <= i < |readers| :: Agree(tables, tables', readers[i].version) && readers[i].version !! building'
    requires Grows(m, m', last) && Extends(h, h', last)
    ensures ReadersOk(cmp, tables', m', last', next', building', h', readers)
  {
    forall i | 0 <= i < |readers|
      ensures ReaderOk(cmp, tables', m', last', next', building', h', readers[i])
    {
      ReaderFrame(cmp, tables, m, last, next, building, h, tables', m', last', next', building', h', readers[i]);
    }
  }

  lemma UnpublishedAbove(writer: Option<Write>, last: nat)
    requires WriterOk(writer, last)
    ensures Above(Unpublished(writer), last)
  {
  }

  lemma BeginReadOk(cmp: Comparator, d: Disk, r: Ram, h: seq<Group>, f: nat, s: nat)
    requires RunningInv(cmp, d, r, h, f) && f <= s <= r.lastSequence && WholeGroups(h, s)
    ensures ReaderOk(cmp, d.tables, r.mems, r.lastSequence, r.nextFile, Building(r.worker), h,
                     Reader(s, r.mems.logfile, r.mems.imm, d.manifest.live))
  {
    var rd := Reader(s, r.mems.logfile, r.mems.imm, d.manifest.live);
    var live := Contents(d.tables, d.manifest.live);
    assert Captured(d.tables, r.mems, rd) == Readable(r.mems, live);
    UnpublishedAbove(r.writer, r.lastSequence);
    NewerEntriesInvisible(cmp, LogEntries(h), Unpublished(r.writer), s);
  }

  lemma KeepsBeginRead(cmp: Comparator, d: Disk, r: Ram, h: seq<Group>, f: nat, at: Option<nat>)
    requires RunningInv(cmp, d, r, h, f) && (at.Some? ==> at.value < |r.snapshots|)
    ensures RunningInv(cmp, d, BeginRead(d, r, at), h, f)
  {
    HistoryGroups(h, r.lastSequence);
    BeginReadOk(cmp, d, r, h, f, if at.Some? then r.snapshots[at.value] else r.lastSequence);
  }

  lemma KeepsEndRead(cmp: Comparator, d: Disk, r: Ram, h: seq<Group>, f: nat, i: nat)
    requires RunningInv(cmp, d, r, h, f) && i < |r.readers|
    ensures RunningInv(cmp, d, EndRead(r, i), h, f)
  {
  }

  lemma KeepsDeleteTable(cmp: Comparator, d: Disk, r: Ram, h: seq<Group>, f: nat, n: nat)
    requires RunningInv(cmp, d, r, h, f) && r.worker.sweeping && !KeptTable(d, r, n)
    ensures RunningInv(cmp, d.(tables := d.tables - {n}), r, h, f)
  {
    TablesChange(cmp, d, r, h, f, d.tables - {n});
  }

  /** Replacing tables that no version uses and that are not outputs of a merge. */
  lemma TablesChange(cmp: Comparator, d: Disk, r: Ram, h: seq<Group>, f: nat, tables': map<nat, set<Entry>>)
    requires RunningInv(cmp, d, r, h, f)
    requires Agree(d.tables, tables', d.manifest.live) && Agree(d.tables, tables', Outputs(r.worker))
    requires r.worker.flush.Some? ==> r.worker.flush.value.number in tables' && !r.worker.flush.value.built
    requires forall i | 0 <= i < |r.readers| :: Agree(d.tables, tables', r.readers[i].version)
    ensures RunningInv(cmp, d.(tables := tables'), r, h, f)
  {
    ContentsAgree(d.tables, tables', d.manifest.live);
    ReadersFrame(cmp, d.tables, r.mems, r.lastSequence, r.nextFile, Building(r.worker), h, r.readers,
                 tables', r.mems, r.lastSequence, r.nextFile, Building(r.worker), h);
    if r.worker.merge.Some? {
      MergeTables(cmp, d.tables, d.manifest.live, r.worker.merge.value, tables');
    }
  }

  lemma MergeTables(cmp: Comparator, tables: map<nat, set<Entry>>, live: set<nat>, c: Merge, tables': map<nat, set<Entry>>)
    requires MergeOk(cmp, tables, live, c)
    requires Agree(tables, tables', live) && Agree(tables, tables', c.outputs)
    ensures MergeOk(cmp, tables', live, c)
  {
    ContentsAgree(tables, tables', c.inputs);
    ContentsAgree(tables, tables', c.deeper);
    ContentsAgree(tables, tables', live - c.inputs - c.deeper);
    ContentsAgree(tables, tables', c.outputs);
  }

  // ----- the writer

  lemma KeepsAppend(cmp: Comparator, d: Disk, r: Ram, h: seq<Group>, f: nat, ops: seq<Op>)
    requires RunningInv(cmp, d, r, h, f) && r.writer.None?
    ensures var (d', r') := Append(d, r, ops); RunningInv(cmp, d', r', h, f)
  {
    var (d', r') := Append(d, r, ops);
    var log := d'.logs[r.mems.logfile];
    assert log[..|log| - 1] == d.logs[r.mems.logfile];
    assert Unpublished(r'.writer) == {};
    assert MemLogOk(d'.logs, r'.mems, r'.writer);
    assert ImmLogOk(d'.logs, d'.manifest.logNumber, r'.mems);
  }

  lemma AddNewest(cmp: Comparator, a: set<Entry>, b: set<Entry>, e: Entry, s: nat)
    requires View(cmp, a, s) == View(cmp, b, s)
    requires forall x | x in a || x in b :: x.seqno < e.seqno
    ensures View(cmp, a + {e}, s) == View(cmp, b + {e}, s)
  {
    forall x
      ensures x in View(cmp, a + {e}, s) <==> x in View(cmp, b + {e}, s)
    {
      assert x in View(cmp, a + {e}, s) <==> AddedLive(cmp, a, e, s, x);
      assert x in View(cmp, b + {e}, s) <==> AddedLive(cmp, b, e, s, x);
    }
  }

  ghost predicate AddedLive(cmp: Comparator, es: set<Entry>, e: Entry, s: nat, x: Entry) {
    (x == e && e.seqno <= s && e.kind.Value?) || (x in View(cmp, es, s) && !Hides(cmp, e, x, s))
  }

  lemma InsertView(cmp: Comparator, readable: set<Entry>, known: set<Entry>, e: Entry, f: nat)
    requires ViewOk(cmp, readable, known, f)
    requires forall x | x in known :: x.seqno < e.seqno
    ensures ViewOk(cmp, readable + {e}, known + {e}, f)
  {
    forall s: nat | f <= s
      ensures View(cmp, readable + {e}, s) == View(cmp, known + {e}, s)
    {
      AddNewest(cmp, readable, known, e, s);
    }
  }

  lemma InsertIntoMem(d: Disk, r: Ram)
    requires r.writer.Some? && r.writer.value.inserted < |r.writer.value.group|
    requires r.mems.logfile in r.mems.contents && MemLogOk(d.logs, r.mems, r.writer)
    requires ImmLogOk(d.logs, d.manifest.logNumber, r.mems)
    ensures var e, m := r.writer.value.group[r.writer.value.inserted], InsertOne(r).mems;
            && Unpublished(InsertOne(r).writer) == Unpublished(r.writer) + {e}
            && Mem(m) == Mem(r.mems) + {e} && Imm(m) == Imm(r.mems)
            && MemLogOk(d.logs, m, InsertOne(r).writer) && ImmLogOk(d.logs, d.manifest.logNumber, m)
  {
    var r', w := InsertOne(r), r.writer.value;
    assert w.group[..w.inserted + 1] == w.group[..w.inserted] + [w.group[w.inserted]];
    assert Unpublished(r'.writer) == Unpublished(r.writer) + {w.group[w.inserted]};
  }

  lemma InsertGrows(r: Ram)
    requires r.writer.Some? && r.writer.value.inserted < |r.writer.value.group| && WriterOk(r.writer, r.lastSequence)
    requires r.mems.logfile in r.mems.contents
    ensures Grows(r.mems, InsertOne(r).mems, r.lastSequence)
  {
  }

  /** What an insert changes: contents of mem_, and what readers can see of the group. */
  lemma InsertedOne(cmp: Comparator, d: Disk, r: Ram, h: seq<Group>, f: nat)
    requires RunningInv(cmp, d, r, h, f) && r.writer.Some? && r.writer.value.inserted < |r.writer.value.group|
    ensures var r', live := InsertOne(r), Contents(d.tables, d.manifest.live);
            && MemLogOk(d.logs, r'.mems, r'.writer) && ImmLogOk(d.logs, d.manifest.logNumber, r'.mems)
            && CutsOk(live, d.manifest.lastSequence, r'.mems, r.lastSequence) && WriterOk(r'.writer, r.lastSequence)
            && HistoryOk(LogEntries(h), d.manifest.lastSequence, r'.mems, r.lastSequence)
            && ViewOk(cmp, Readable(r'.mems, live), LogEntries(h) + Unpublished(r'.writer), f)
            && NumbersOk(d.logs, d.manifest, r'.mems, r.worker.pending, r.nextFile)
            && BuildingOk(d.tables, d.manifest.live, r'.mems, r.nextFile, r.worker)
  {
    hide MergeOk, Contents, LogEntries, ReadersOk, SnapshotsOk, GroupsOk, LiveOk, Building, Outputs;
    var r', w := InsertOne(r), r.writer.value;
    var e := w.group[w.inserted];
    var live, known := Contents(d.tables, d.manifest.live), LogEntries(h) + Unpublished(r.writer);
    InsertIntoMem(d, r);
    assert Readable(r'.mems, live) == Readable(r.mems, live) + {e};
    assert LogEntries(h) + Unpublished(r'.writer) == known + {e};
    InsertView(cmp, Readable(r.mems, live), known, e, f);
  }

  lemma KeepsInsertOne(cmp: Comparator, d: Disk, r: Ram, h: seq<Group>, f: nat)
    requires RunningInv(cmp, d, r, h, f) && r.writer.Some? && r.writer.value.inserted < |r.writer.value.group|
    ensures RunningInv(cmp, d, InsertOne(r), h, f)
  {
    hide MergeOk, Contents, LogEntries, Grows, SnapshotsOk, GroupsOk, ImmLogOk, MemLogOk, CutsOk, WriterOk, HistoryOk, ViewOk,
         NumbersOk, BuildingOk, Unpublished, Readable;
    InsertedOne(cmp, d, r, h, f);
    LogfileKnown(d.logs, d.manifest, r.mems, r.worker.pending, r.nextFile);
    InsertGrows(r);
    ReadersFrame(cmp, d.tables, r.mems, r.lastSequence, r.nextFile, Building(r.worker), h, r.readers,
                 d.tables, InsertOne(r).mems, r.lastSequence, r.nextFile, Building(r.worker), h);
  }

  lemma LogfileKnown(logs: map<nat, seq<Group>>, mf: Manifest, m: Memtables, pending: set<nat>, nextFile: nat)
    requires NumbersOk(logs, mf, m, pending, nextFile)
    ensures m.logfile in m.contents
  {
  }

  lemma PublishHistory(h: seq<Group>, diskLast: nat, m: Memtables, w: Write, last: nat)
    requires HistoryOk(LogEntries(h), diskLast, m, last) && WriterOk(Some(w), last) && w.inserted == |w.group|
    requires ToSet(w.group) <= Mem(m)
    ensures HistoryOk(LogEntries(h + [w.group]), diskLast, m, last + |w.group|)
  {
    LogSnoc(h, w.group);
    if w.group != [] {
      assert w.group[|w.group| - 1] in Mem(m);
    }
  }

  lemma PublishReaders(cmp: Comparator, d: Disk, r: Ram, h: seq<Group>, g: Group)
    requires Above(ToSet(g), r.lastSequence)
    requires ReadersOk(cmp, d.tables, r.mems, r.lastSequence, r.nextFile, Building(r.worker), h, r.readers)
    requires GroupsOk(r.snapshots, h) && forall i | 0 <= i < |r.snapshots| :: r.snapshots[i] <= r.lastSequence
    ensures ReadersOk(cmp, d.tables, r.mems, r.lastSequence + |g|, r.nextFile, Building(r.worker), h + [g], r.readers)
    ensures GroupsOk(r.snapshots, h + [g])
  {
    assert forall e | e in g :: e in ToSet(g);
    ReadersFrame(cmp, d.tables, r.mems, r.lastSequence, r.nextFile, Building(r.worker), h, r.readers,
                 d.tables, r.mems, r.lastSequence + |g|, r.nextFile, Building(r.worker), h + [g]);
  }

  lemma PublishLog(d: Disk, r: Ram)
    requires r.writer.Some? && r.writer.value.inserted == |r.writer.value.group|
    requires MemLogOk(d.logs, r.mems, r.writer)
    ensures MemLogOk(d.logs, r.mems, None)
    ensures Unpublished(r.writer) == ToSet(r.writer.value.group) <= Mem(r.mems)
  {
    var g, log := r.writer.value.group, d.logs[r.mems.logfile];
    assert g[..|g|] == g;
    LogSnoc(log[..|log| - 1], g);
    assert log == log[..|log| - 1] + [g];
  }

  lemma KeepsPublish(cmp: Comparator, d: Disk, r: Ram, h: seq<Group>, f: nat)
    requires RunningInv(cmp, d, r, h, f) && r.writer.Some? && r.writer.value.inserted == |r.writer.value.group|
    ensures RunningInv(cmp, d, Publish(r), h + [r.writer.value.group], f)
  {
    hide MergeOk, Contents, Flatten;
    var g := r.writer.value.group;
    PublishLog(d, r);
    LogSnoc(h, g);
    assert LogEntries(h + [g]) + Unpublished(None) == LogEntries(h) + Unpublished(r.writer);
    PublishHistory(h, d.manifest.lastSequence, r.mems, r.writer.value, r.lastSequence);
    PublishReaders(cmp, d, r, h, g);
  }

  lemma KeepsSwitch(cmp: Comparator, d: Disk, r: Ram, h: seq<Group>, f: nat)
    requires RunningInv(cmp, d, r, h, f) && r.writer.None? && r.mems.imm.None?
    ensures var (d', r') := Switch(d, r); RunningInv(cmp, d', r', h, f)
  {
    var (d', r') := Switch(d, r);
    var live := Contents(d.tables, d.manifest.live);
    assert Mem(r'.mems) == {} && Imm(r'.mems) == Mem(r.mems) && Imm(r.mems) == {};
    assert Readable(r'.mems, live) == Readable(r.mems, live);
    assert LogEntries([]) == {};
    ReadersFrame(cmp, d.tables, r.mems, r.lastSequence, r.nextFile, Building(r.worker), h, r.readers,
                 d.tables, r'.mems, r.lastSequence, r'.nextFile, Building(r.worker), h);
  }

  // ----- flushing imm_

  /** A new table file gets a number that nothing refers to. */
  lemma NewTable(cmp: Comparator, d: Disk, r: Ram, h: seq<Group>, f: nat)
    requires RunningInv(cmp, d, r, h, f) && r.worker.flush.None?
    ensures RunningInv(cmp, d.(tables := d.tables[r.nextFile := {}]), r, h, f)
  {
    TablesChange(cmp, d, r, h, f, d.tables[r.nextFile := {}]);
  }

  lemma KeepsStartFlush(cmp: Comparator, d: Disk, r: Ram, h: seq<Group>, f: nat)
    requires RunningInv(cmp, d, r, h, f) && r.mems.imm.Some? && r.worker.flush.None? && !r.worker.sweeping
    ensures var (d', r') := StartFlush(d, r); RunningInv(cmp, d', r', h, f)
  {
    NewTable(cmp, d, r, h, f);
    var (d', r') := StartFlush(d, r);
    assert Building(r'.worker) == Building(r.worker) + {r.nextFile};
    ReadersFrame(cmp, d'.tables, r.mems, r.lastSequence, r.nextFile, Building(r.worker), h, r.readers,
                 d'.tables, r.mems, r.lastSequence, r'.nextFile, Building(r'.worker), h);
  }

  lemma KeepsFinishFlush(cmp: Comparator, d: Disk, r: Ram, h: seq<Group>, f: nat)
    requires RunningInv(cmp, d, r, h, f) && r.mems.imm.Some? && r.worker.flush.Some? && !r.worker.flush.value.built
    ensures var (d', r') := FinishFlush(d, r); RunningInv(cmp, d', r', h, f)
  {
    var (d', r') := FinishFlush(d, r);
    assert r.worker.flush.value.number in Building(r.worker);
    TablesChange(cmp, d, r, h, f, d'.tables);
    assert Building(r'.worker) == Building(r.worker);
  }

  lemma FlushIsNewer(cmp: Comparator, d: Disk, m: Memtables, c: Merge, last: nat, n: nat)
    requires MergeOk(cmp, d.tables, d.manifest.live, c)
    requires CutsOk(Contents(d.tables, d.manifest.live), d.manifest.lastSequence, m, last) && m.imm.Some?
    requires n in d.tables && d.tables[n] == Imm(m) && n !in d.manifest.live
    ensures MergeOk(cmp, d.tables, d.manifest.live + {n}, c)
  {
    var live := d.manifest.live;
    var above := live - c.inputs - c.deeper;
    assert c.inputs <= live && c.deeper <= live && n !in c.inputs && n !in c.deeper;
    assert live + {n} - c.inputs - c.deeper == above + {n};
    ContentsUnion(d.tables, above, {n});
    ContentsSingle(d.tables, n);
    forall e | e in c.input
      ensures e in Contents(d.tables, live)
    {
      assert e in ToSet(c.input);
      assert e in Contents(d.tables, c.inputs);
    }
  }

  lemma FlushMoves(m: Memtables, tables: set<Entry>, diskLast: nat, acked: set<Entry>, last: nat)
    requires CutsOk(tables, diskLast, m, last) && HistoryOk(acked, diskLast, m, last) && m.imm.Some?
    ensures CutsOk(tables + Imm(m), last, m.(imm := None), last)
    ensures HistoryOk(acked, last, m.(imm := None), last)
    ensures Readable(m.(imm := None), tables + Imm(m)) == Readable(m, tables)
  {
    assert Mem(m.(imm := None)) == Mem(m) && Imm(m.(imm := None)) == {};
  }

  lemma KeepsInstallFlush(cmp: Comparator, d: Disk, r: Ram, h: seq<Group>, f: nat)
    requires RunningInv(cmp, d, r, h, f) && r.mems.imm.Some? && r.worker.flush.Some? && r.worker.flush.value.built
    ensures var (d', r') := InstallFlush(d, r); RunningInv(cmp, d', r', h, f)
  {
    hide MergeOk, Flatten, HistoryOk, CutsOk, SnapshotsOk, GroupsOk, ViewOk, LogEntries;
    var (d', r') := InstallFlush(d, r);
    var n, live := r.worker.flush.value.number, d.manifest.live;
    assert n in Building(r.worker) && Building(r'.worker) == Building(r.worker) - {n};
    ContentsUnion(d.tables, live, {n});
    ContentsSingle(d.tables, n);
    FlushMoves(r.mems, Contents(d.tables, live), d.manifest.lastSequence, LogEntries(h), r.lastSequence);
    assert MemLogOk(d.logs, r'.mems, r.writer) by { assert Mem(r'.mems) == Mem(r.mems); }
    ReadersFrame(cmp, d.tables, r.mems, r.lastSequence, r.nextFile, Building(r.worker), h, r.readers,
                 d.tables, r'.mems, r.lastSequence, r.nextFile, Building(r'.worker), h);
    if r.worker.merge.Some? {
      FlushIsNewer(cmp, d, r.mems, r.worker.merge.value, r.lastSequence, n);
    }
  }

  // ----- compaction

  lemma KeepsStartMerge(cmp: Comparator, d: Disk, r: Ram, h: seq<Group>, f: nat,
                        inputs: set<nat>, deeper: set<nat>, input: seq<Entry>, base: Bytes -> bool)
    requires RunningInv(cmp, d, r, h, f) && r.worker.merge.None?
    requires MergeMayStart(cmp, d, inputs, deeper, input, base)
    ensures RunningInv(cmp, d, StartMerge(cmp, r, inputs, deeper, input, base), h, f)
  {
    var r' := StartMerge(cmp, r, inputs, deeper, input, base);
    assert Building(r'.worker) == Building(r.worker);
    assert Contents(d.tables, {}) == {};
  }

  lemma KeepsOpenOutput(cmp: Comparator, d: Disk, r: Ram, h: seq<Group>, f: nat)
    requires RunningInv(cmp, d, r, h, f) && r.worker.merge.Some? && r.worker.flush.None?
    requires r.worker.merge.value.open.None?
    ensures var (d', r') := OpenOutput(d, r); RunningInv(cmp, d', r', h, f)
  {
    NewTable(cmp, d, r, h, f);
    var (d', r') := OpenOutput(d, r);
    assert Building(r'.worker) == Building(r.worker) + {r.nextFile};
    ReadersFrame(cmp, d'.tables, r.mems, r.lastSequence, r.nextFile, Building(r.worker), h, r.readers,
                 d'.tables, r.mems, r.lastSequence, r'.nextFile, Building(r'.worker), h);
  }

  lemma FinishOutputMerge(cmp: Comparator, tables: map<nat, set<Entry>>, live: set<nat>, c: Merge, n: nat, count: nat)
    requires MergeOk(cmp, tables, live, c) && n !in live && n !in c.outputs && count <= |c.todo|
    requires live <= tables.Keys && c.outputs <= tables.Keys
    ensures MergeOk(cmp, tables[n := ToSet(c.todo[..count])], live,
                    c.(open := None, outputs := c.outputs + {n}, todo := c.todo[count..]))
  {
    var tables' := tables[n := ToSet(c.todo[..count])];
    MergeTables(cmp, tables, live, c, tables');
    ContentsUnion(tables', c.outputs, {n});
    ContentsSingle(tables', n);
    assert c.todo == c.todo[..count] + c.todo[count..];
    ToSetConcat(c.todo[..count], c.todo[count..]);
  }

  lemma KeepsFinishOutput(cmp: Comparator, d: Disk, r: Ram, h: seq<Group>, f: nat, count: nat)
    requires RunningInv(cmp, d, r, h, f) && r.worker.merge.Some? && r.worker.flush.None?
    requires r.worker.merge.value.open.Some? && count <= |r.worker.merge.value.todo|
    ensures var (d', r') := FinishOutput(d, r, count); RunningInv(cmp, d', r', h, f)
  {
    var (d', r') := FinishOutput(d, r, count);
    var c := r.worker.merge.value;
    var n := c.open.value;
    assert n in Building(r.worker) && Building(r'.worker) == Building(r.worker);
    FinishOutputMerge(cmp, d.tables, d.manifest.live, c, n, count);
    ContentsAgree(d.tables, d'.tables, d.manifest.live);
    ReadersFrame(cmp, d.tables, r.mems, r.lastSequence, r.nextFile, Building(r.worker), h, r.readers,
                 d'.tables, r.mems, r.lastSequence, r.nextFile, Building(r.worker), h);
  }

  lemma KeepsAbortMerge(cmp: Comparator, d: Disk, r: Ram, h: seq<Group>, f: nat)
    requires RunningInv(cmp, d, r, h, f) && r.worker.merge.Some? && r.worker.flush.None?
    ensures RunningInv(cmp, d, AbortMerge(r), h, f)
  {
    var r' := AbortMerge(r);
    assert Building(r'.worker) == {};
    ReadersFrame(cmp, d.tables, r.mems, r.lastSequence, r.nextFile, Building(r.worker), h, r.readers,
                 d.tables, r.mems, r.lastSequence, r.nextFile, {}, h);
  }

  /** Replacing the inputs by the outputs of a finished merge changes no view from the
      smallest snapshot on: this is where the drop rules meet the rest of the engine. */
  lemma InstallView(cmp: Comparator, d: Disk, m: Memtables, last: nat, c: Merge, known: set<Entry>, f: nat)
    requires MergeOk(cmp, d.tables, d.manifest.live, c) && c.todo == []
    requires CutsOk(Contents(d.tables, d.manifest.live), d.manifest.lastSequence, m, last)
    requires ViewOk(cmp, Readable(m, Contents(d.tables, d.manifest.live)), known, f)
    ensures var after := Contents(d.tables, d.manifest.live - c.inputs + c.outputs);
            && after <= Contents(d.tables, d.manifest.live)
            && ViewOk(cmp, Readable(m, after), known, if c.smallest < f then f else c.smallest)
  {
    var live := d.manifest.live;
    var above := live - c.inputs - c.deeper;
    var newer, older := Mem(m) + Imm(m) + Contents(d.tables, above), Contents(d.tables, c.deeper);
    var kept := ToSet(Survivors(cmp, c.input, c.smallest, c.base, |c.input|));
    assert live == above + c.inputs + c.deeper;
    assert live - c.inputs + c.outputs == above + c.deeper + c.outputs;
    ContentsUnion(d.tables, above + c.inputs, c.deeper);
    ContentsUnion(d.tables, above, c.inputs);
    ContentsUnion(d.tables, above + c.deeper, c.outputs);
    ContentsUnion(d.tables, above, c.deeper);
    assert ToSet(c.todo) == {};
    var after := Contents(d.tables, live - c.inputs + c.outputs);
    assert Readable(m, Contents(d.tables, live)) == newer + ToSet(c.input) + older;
    assert Readable(m, after) == newer + kept + older;
    forall e | e in c.input
      ensures e in Contents(d.tables, live)
    {
      assert e in ToSet(c.input);
      assert e in Contents(d.tables, c.inputs);
    }
    forall e | e in kept
      ensures e in ToSet(c.input)
    {
      SurvivorsAreThose(cmp, c.input, c.smallest, c.base, |c.input|, e);
    }
    forall s: nat | f <= s && c.smallest <= s
      ensures View(cmp, Readable(m, after), s) == View(cmp, known, s)
    {
      CompactionPreservesView(cmp, c.input, c.smallest, c.base, newer, older, s);
    }
  }

  lemma KeepsInstallMerge(cmp: Comparator, d: Disk, r: Ram, h: seq<Group>, f: nat)
    requires RunningInv(cmp, d, r, h, f) && r.worker.merge.Some? && r.worker.flush.None?
    requires r.worker.merge.value.open.None? && r.worker.merge.value.todo == []
    ensures var (d', r') := InstallMerge(d, r);
            var c := r.worker.merge.value;
            RunningInv(cmp, d', r', h, if c.smallest < f then f else c.smallest)
  {
    var (d', r') := InstallMerge(d, r);
    var c := r.worker.merge.value;
    InstallView(cmp, d, r.mems, r.lastSequence, c, LogEntries(h) + Unpublished(r.writer), f);
    assert Outputs(r.worker) == c.outputs && Building(r.worker) == c.outputs && Building(r'.worker) == {};
    ReadersFrame(cmp, d.tables, r.mems, r.lastSequence, r.nextFile, Building(r.worker), h, r.readers,
                 d.tables, r.mems, r.lastSequence, r.nextFile, {}, h);
  }

  // ----- crash and recovery

  /** The manifest, the tables and the logs determine the history as far as a reader at
      the recovered sequence number can tell. */
  ghost predicate DiskOk(cmp: Comparator, d: Disk, h: seq<Group>, floor: nat) {
    var mf, acked, logged := d.manifest, LogEntries(h), Logged(d.logs, d.manifest.logNumber);
    && LiveOk(d.tables, mf.live, mf.nextFile) && mf.logNumber < mf.nextFile
    && Upto(Contents(d.tables, mf.live), mf.lastSequence)
    && Distinct(acked)
    && (forall e | e in acked :: e.seqno <= mf.lastSequence || e in logged)
    && (floor <= mf.lastSequence || exists e :: e in logged && floor <= e.seqno)
    && ViewOk(cmp, Durable(d), acked, floor)
  }

  /** The records of log `n` still to be replayed. */
  ghost function RestOf(logs: map<nat, seq<Group>>, p: Replay, n: nat): seq<Group>
    requires n in logs
  {
    if First(p.todo, n) && p.pos <= |logs[n]| then logs[n][p.pos..] else logs[n]
  }

  ghost function Rest(logs: map<nat, seq<Group>>, p: Replay): set<Entry> {
    set n, e | n in p.todo && n in logs && e in LogEntries(RestOf(logs, p, n)) :: e
  }

  ghost predicate ReplayOk(d: Disk, p: Replay) {
    && (forall n | n in p.todo :: n in d.logs && d.manifest.logNumber <= n)
    && (forall n | n in d.logs :: n < d.manifest.logNumber || n in p.todo || n < p.nextFile)
    && (forall n | First(p.todo, n) :: n in d.logs && p.pos <= |d.logs[n]|)
    && d.manifest.nextFile <= p.nextFile
    && LiveOk(d.tables, p.edit, p.nextFile)
    && Upto(Contents(d.tables, p.edit), p.maxSequence)
    && Contents(d.tables, p.edit) + Rest(d.logs, p) == Logged(d.logs, d.manifest.logNumber)
  }

  ghost predicate Inv(cmp: Comparator, st: State) {
    match st.phase
    case Running(r) => RunningInv(cmp, st.disk, r, st.history, st.floor)
    case Recovering(p) => DiskOk(cmp, st.disk, st.history, st.floor) && ReplayOk(st.disk, p)
  }

  lemma LoggedIsMemtables(d: Disk, r: Ram)
    requires NumbersOk(d.logs, d.manifest, r.mems, r.worker.pending, r.nextFile)
    requires ImmLogOk(d.logs, d.manifest.logNumber, r.mems) && MemLogOk(d.logs, r.mems, None)
    ensures Logged(d.logs, d.manifest.logNumber) == Mem(r.mems) + Imm(r.mems)
  {
    var logged := Logged(d.logs, d.manifest.logNumber);
    forall e | e in Mem(r.mems) + Imm(r.mems)
      ensures e in logged
    {
      var n := if e in Mem(r.mems) then r.mems.logfile else r.mems.imm.value;
      assert n in d.logs && d.manifest.logNumber <= n && e in LogEntries(d.logs[n]);
    }
  }

  lemma QuiescentCrash(cmp: Comparator, d: Disk, r: Ram, h: seq<Group>, f: nat)
    requires RunningInv(cmp, d, r, h, f) && r.writer.None?
    ensures DiskOk(cmp, d, h, f)
  {
    LoggedIsMemtables(d, r);
    var live := Contents(d.tables, d.manifest.live);
    assert Durable(d) == Readable(r.mems, live);
    assert LogEntries(h) + Unpublished(r.writer) == LogEntries(h);
  }

  /** A crash in the middle of a write leaves the same files as a crash after it. */
  lemma {:induction false} CrashDisk(cmp: Comparator, d: Disk, r: Ram, h: seq<Group>, f: nat)
    requires RunningInv(cmp, d, r, h, f)
    ensures DiskOk(cmp, d, h + if r.writer.Some? then [r.writer.value.group] else [], f)
    decreases if r.writer.Some? then |r.writer.value.group| - r.writer.value.inserted else 0
  {
    if r.writer.None? {
      assert h + [] == h;
      QuiescentCrash(cmp, d, r, h, f);
    } else if r.writer.value.inserted < |r.writer.value.group| {
      KeepsInsertOne(cmp, d, r, h, f);
      CrashDisk(cmp, d, InsertOne(r), h, f);
    } else {
      KeepsPublish(cmp, d, r, h, f);
      QuiescentCrash(cmp, d, Publish(r), h + [r.writer.value.group], f);
    }
  }

  lemma RestartReplay(cmp: Comparator, d: Disk, h: seq<Group>, f: nat)
    requires DiskOk(cmp, d, h, f)
    ensures ReplayOk(d, Restart(d))
  {
    var p := Restart(d);
    forall n | n in d.logs
      ensures RestOf(d.logs, p, n) == d.logs[n]
    {
    }
    assert Contents(d.tables, {}) == {};
    assert Rest(d.logs, p) == Logged(d.logs, d.manifest.logNumber);
  }

  lemma KeepsCrash(cmp: Comparator, st: State, st': State)
    requires Inv(cmp, st) && CrashStep(st, st')
    ensures Inv(cmp, st')
  {
    if st.phase.Running? {
      CrashDisk(cmp, st.disk, st.phase.ram, st.history, st.floor);
    } else {
      assert st.history + [] == st.history;
    }
    RestartReplay(cmp, st'.disk, st'.history, st'.floor);
  }

  lemma SpillRest(logs: map<nat, seq<Group>>, p: Replay, p': Replay, n: nat, upto: nat)
    requires First(p.todo, n) && n in logs && p.pos <= upto <= |logs[n]|
    requires if upto == |logs[n]| then p'.todo == p.todo - {n} && p'.pos == 0 else p'.todo == p.todo && p'.pos == upto
    ensures LogEntries(logs[n][p.pos..upto]) + Rest(logs, p') == Rest(logs, p)
  {
    var table := LogEntries(logs[n][p.pos..upto]);
    SpilledLogs(logs, p, p', n, upto);
    SplitEntries(logs[n], p.pos, upto);
    hide LogEntries, RestOf, Rest;
    SpillShrinks(logs, p, p', n, table);
    SpillCovers(logs, p, p', n, table);
  }

  /** Only what is left of log n changes. */
  lemma SpilledLogs(logs: map<nat, seq<Group>>, p: Replay, p': Replay, n: nat, upto: nat)
    requires First(p.todo, n) && n in logs && p.pos <= upto <= |logs[n]|
    requires if upto == |logs[n]| then p'.todo == p.todo - {n} && p'.pos == 0 else p'.todo == p.todo && p'.pos == upto
    ensures forall m | m in logs && m in p.todo && m != n :: RestOf(logs, p', m) == RestOf(logs, p, m)
    ensures RestOf(logs, p, n) == logs[n][p.pos..] && (n in p'.todo ==> RestOf(logs, p', n) == logs[n][upto..])
  {
  }

  lemma SplitEntries(log: seq<Group>, pos: nat, upto: nat)
    requires pos <= upto <= |log|
    ensures LogEntries(log[pos..]) == LogEntries(log[pos..upto]) + LogEntries(log[upto..])
    ensures upto == |log| ==> LogEntries(log[upto..]) == {}
  {
    assert log[pos..] == log[pos..upto] + log[upto..];
    FlattenConcat(log[pos..upto], log[upto..]);
  }

  lemma SpillShrinks(logs: map<nat, seq<Group>>, p: Replay, p': Replay, n: nat, table: set<Entry>)
    requires n in logs && n in p.todo && p'.todo <= p.todo && table <= LogEntries(RestOf(logs, p, n))
    requires forall m | m in p'.todo && m in logs :: LogEntries(RestOf(logs, p', m)) <= LogEntries(RestOf(logs, p, m))
    ensures table + Rest(logs, p') <= Rest(logs, p)
  {
    hide LogEntries, RestOf;
    forall e | e in Rest(logs, p')
      ensures e in Rest(logs, p)
    {
      var m :| m in p'.todo && m in logs && e in LogEntries(RestOf(logs, p', m));
      assert m in p.todo && e in LogEntries(RestOf(logs, p, m));
    }
  }

  lemma SpillCovers(logs: map<nat, seq<Group>>, p: Replay, p': Replay, n: nat, table: set<Entry>)
    requires forall m | m in p.todo && m in logs && m != n :: m in p'.todo && LogEntries(RestOf(logs, p, m)) <= LogEntries(RestOf(logs, p', m))
    requires n in logs && n in p.todo
    requires LogEntries(RestOf(logs, p, n)) <= table + (if n in p'.todo then LogEntries(RestOf(logs, p', n)) else {})
    ensures Rest(logs, p) <= table + Rest(logs, p')
  {
    hide LogEntries, RestOf;
    forall e | e in Rest(logs, p) && e !in table
      ensures e in Rest(logs, p')
    {
      var m :| m in p.todo && m in logs && e in LogEntries(RestOf(logs, p, m));
      assert m in p'.todo && e in LogEntries(RestOf(logs, p', m));
    }
  }

  /** A table with a fresh number is invisible until the manifest names it. */
  lemma FreshTable(cmp: Comparator, d: Disk, h: seq<Group>, f: nat, n: nat, table: set<Entry>)
    requires DiskOk(cmp, d, h, f) && d.manifest.nextFile <= n
    ensures DiskOk(cmp, d.(tables := d.tables[n := table]), h, f)
  {
    ContentsAgree(d.tables, d.tables[n := table], d.manifest.live);
  }

  lemma KeepsSpill(cmp: Comparator, d: Disk, p: Replay, h: seq<Group>, f: nat, n: nat, upto: nat)
    requires DiskOk(cmp, d, h, f) && ReplayOk(d, p)
    requires First(p.todo, n) && n in d.logs && p.pos <= upto <= |d.logs[n]|
    ensures var (d', p') := Spill(d, p, n, upto); DiskOk(cmp, d', h, f) && ReplayOk(d', p')
  {
    FreshTable(cmp, d, h, f, p.nextFile, LogEntries(d.logs[n][p.pos..upto]));
    SpillReplay(d, p, n, upto);
  }

  lemma SpillReplay(d: Disk, p: Replay, n: nat, upto: nat)
    requires ReplayOk(d, p) && First(p.todo, n) && n in d.logs && p.pos <= upto <= |d.logs[n]|
    ensures var (d', p') := Spill(d, p, n, upto); ReplayOk(d', p')
  {
    hide Rest, Logged, LogEntries, Contents, Numbers, MaxSequence;
    SpillContents(d, p, n, upto);
  }

  lemma SpillContents(d: Disk, p: Replay, n: nat, upto: nat)
    requires ReplayOk(d, p) && First(p.todo, n) && n in d.logs && p.pos <= upto <= |d.logs[n]|
    ensures var (d', p') := Spill(d, p, n, upto);
            && Contents(d'.tables, p'.edit) == Contents(d.tables, p.edit) + LogEntries(d.logs[n][p.pos..upto])
            && Contents(d'.tables, p'.edit) + Rest(d.logs, p') == Contents(d.tables, p.edit) + Rest(d.logs, p)
  {
    hide Rest, Logged, LogEntries, Contents, Numbers, MaxSequence;
    var (d', p') := Spill(d, p, n, upto);
    ContentsAgree(d.tables, d'.tables, p.edit);
    ContentsUnion(d'.tables, p.edit, {p.nextFile});
    ContentsSingle(d'.tables, p.nextFile);
    SpillRest(d.logs, p, p', n, upto);
  }

  lemma KeepsCommit(cmp: Comparator, d: Disk, p: Replay, h: seq<Group>, f: nat)
    requires DiskOk(cmp, d, h, f) && ReplayOk(d, p) && p.todo == {}
    ensures var (d', r') := Commit(d, p); RunningInv(cmp, d', r', h, f)
    ensures var (d', r') := Commit(d, p); Upto(LogEntries(h), r'.lastSequence)
  {
    var (d', r') := Commit(d, p);
    ContentsUnion(d.tables, d.manifest.live, p.edit);
    assert Rest(d.logs, p) == {};
    var live := Contents(d'.tables, d'.manifest.live);
    assert live == Durable(d);
    assert Mem(r'.mems) == {} && Imm(r'.mems) == {};
    assert Readable(r'.mems, live) == live;
    assert LogEntries(h) + Unpublished(None) == LogEntries(h);
    assert LogEntries([]) == {};
    assert Building(r'.worker) == {};
  }

  // ----- whole runs

  lemma KeepsQuiet(cmp: Comparator, d: Disk, r: Ram, d': Disk, r': Ram, h: seq<Group>, f: nat)
    requires RunningInv(cmp, d, r, h, f) && QuietStep(cmp, d, r, d', r')
    ensures RunningInv(cmp, d', r', h, f)
  {
    if WriterStep(d, r, d', r') {
      KeepsWriter(cmp, d, r, d', r', h, f);
    } else if FlushStep(d, r, d', r') {
      if r.worker.flush.None? {
        KeepsStartFlush(cmp, d, r, h, f);
      } else if !r.worker.flush.value.built {
        KeepsFinishFlush(cmp, d, r, h, f);
      } else {
        KeepsInstallFlush(cmp, d, r, h, f);
      }
    } else if StartMergeStep(cmp, d, r, d', r') {
      var inputs, deeper, input, base :|
        MergeMayStart(cmp, d, inputs, deeper, input, base) && r' == StartMerge(cmp, r, inputs, deeper, input, base);
      KeepsStartMerge(cmp, d, r, h, f, inputs, deeper, input, base);
    } else if MergeStep(d, r, d', r') {
      KeepsMerge(cmp, d, r, d', r', h, f);
    } else if SweepStep(d, r, d', r') {
      KeepsSweep(cmp, d, r, d', r', h, f);
    } else {
      KeepsUser(cmp, d, r, d', r', h, f);
    }
  }

  lemma KeepsWriter(cmp: Comparator, d: Disk, r: Ram, d': Disk, r': Ram, h: seq<Group>, f: nat)
    requires RunningInv(cmp, d, r, h, f) && WriterStep(d, r, d', r')
    ensures RunningInv(cmp, d', r', h, f)
  {
    if r.writer.Some? {
      KeepsInsertOne(cmp, d, r, h, f);
    } else if r.mems.imm.None? && (d', r') == Switch(d, r) {
      KeepsSwitch(cmp, d, r, h, f);
    } else {
      var ops :| (d', r') == Append(d, r, ops);
      KeepsAppend(cmp, d, r, h, f, ops);
    }
  }

  lemma KeepsMerge(cmp: Comparator, d: Disk, r: Ram, d': Disk, r': Ram, h: seq<Group>, f: nat)
    requires RunningInv(cmp, d, r, h, f) && MergeStep(d, r, d', r')
    ensures RunningInv(cmp, d', r', h, f)
  {
    var c := r.worker.merge.value;
    if (d', r') == (d, AbortMerge(r)) {
      KeepsAbortMerge(cmp, d, r, h, f);
    } else if c.open.None? {
      KeepsOpenOutput(cmp, d, r, h, f);
    } else {
      var count :| 0 < count <= |c.todo| && (d', r') == FinishOutput(d, r, count);
      KeepsFinishOutput(cmp, d, r, h, f, count);
    }
  }

  lemma KeepsSweep(cmp: Comparator, d: Disk, r: Ram, d': Disk, r': Ram, h: seq<Group>, f: nat)
    requires RunningInv(cmp, d, r, h, f) && SweepStep(d, r, d', r')
    ensures RunningInv(cmp, d', r', h, f)
  {
    if d' == d && r' == r.(worker := r.worker.(sweeping := false)) {
      KeepsEndSweep(cmp, d, r, h, f);
    } else if exists n :: n in d.tables && !KeptTable(d, r, n) && d' == d.(tables := d.tables - {n}) {
      var n :| n in d.tables && !KeptTable(d, r, n) && d' == d.(tables := d.tables - {n});
      KeepsDeleteTable(cmp, d, r, h, f, n);
    } else {
      var n :| n in d.logs && n < d.manifest.logNumber && d' == d.(logs := d.logs - {n});
      KeepsDeleteLog(cmp, d, r, h, f, n);
    }
  }

  lemma KeepsUser(cmp: Comparator, d: Disk, r: Ram, d': Disk, r': Ram, h: seq<Group>, f: nat)
    requires RunningInv(cmp, d, r, h, f) && UserStep(d, r, d', r')
    ensures RunningInv(cmp, d', r', h, f)
  {
    if r' == NewSnapshot(r) {
      KeepsNewSnapshot(cmp, d, r, h, f);
    } else if r' == BeginRead(d, r, None) {
      KeepsBeginRead(cmp, d, r, h, f, None);
    } else if exists i | 0 <= i < |r.snapshots| :: r' == BeginRead(d, r, Some(i)) {
      var i :| 0 <= i < |r.snapshots| && r' == BeginRead(d, r, Some(i));
      KeepsBeginRead(cmp, d, r, h, f, Some(i));
    } else if exists i | 0 <= i < |r.readers| :: r' == EndRead(r, i) {
      var i :| 0 <= i < |r.readers| && r' == EndRead(r, i);
      KeepsEndRead(cmp, d, r, h, f, i);
    } else {
      var i :| 0 <= i < |r.snapshots| && r' == ReleaseSnapshot(r, i);
      KeepsReleaseSnapshot(cmp, d, r, h, f, i);
    }
  }

  lemma KeepsRecover(cmp: Comparator, st: State, st': State)
    requires Inv(cmp, st) && st.phase.Recovering? && RecoverStep(st, st')
    ensures Inv(cmp, st')
    ensures st'.phase.Running? ==> Upto(LogEntries(st'.history), st'.phase.ram.lastSequence)
  {
    var d, p := st.disk, st.phase.replay;
    if p.todo == {} {
      KeepsCommit(cmp, d, p, st.history, st.floor);
    } else {
      var n, upto :| First(p.todo, n) && n in d.logs && p.pos <= upto <= |d.logs[n]|
                     && var (d', p') := Spill(d, p, n, upto); st' == st.(disk := d', phase := Recovering(p'));
      KeepsSpill(cmp, d, p, st.history, st.floor, n, upto);
    }
  }

  lemma StepInv(cmp: Comparator, st: State, st': State)
    requires Inv(cmp, st) && Next(cmp, st, st')
    ensures Inv(cmp, st')
  {
    if CrashStep(st, st') {
      KeepsCrash(cmp, st, st');
    } else if st.phase.Recovering? {
      KeepsRecover(cmp, st, st');
    } else if PublishStep(st, st') {
      KeepsPublish(cmp, st.disk, st.phase.ram, st.history, st.floor);
    } else if InstallMergeStep(st, st') {
      KeepsInstallMerge(cmp, st.disk, st.phase.ram, st.history, st.floor);
    } else {
      KeepsQuiet(cmp, st.disk, st.phase.ram, st'.disk, st'.phase.ram, st.history, st.floor);
    }
  }

  lemma {:induction false} RunInv(cmp: Comparator, run: seq<State>, i: nat)
    requires IsRun(cmp, run) && i < |run|
    ensures Inv(cmp, run[i])
  {
    if i == 0 {
      InitialInv(cmp);
    } else {
      RunInv(cmp, run, i - 1);
      assert StepAt(cmp, run, i - 1);
      StepInv(cmp, run[i - 1], run[i]);
    }
  }

  /** No step, not even a crash, forgets an acknowledged write. */
  lemma {:induction false} HistoryGrows(cmp: Comparator, run: seq<State>, i: nat, j: nat)
    requires IsRun(cmp, run) && i <= j < |run|
    ensures run[i].history <= run[j].history
    decreases j
  {
    if i < j {
      HistoryGrows(cmp, run, i, j - 1);
      assert StepAt(cmp, run, j - 1);
    }
  }

  /** Durability: in every state of every run, crashed or not, the tables named by the
      manifest and the logs it still needs show every reader from the last published
      sequence number on exactly the acknowledged history (plus, while a write is in
      progress, the group already in the log). */
  lemma Durability(cmp: Comparator, run: seq<State>, i: nat, s: nat)
    requires IsRun(cmp, run) && i < |run|
    requires match run[i].phase
             case Running(r) => r.lastSequence <= s
             case Recovering(p) => run[i].floor <= s
    ensures var st := run[i];
            View(cmp, Durable(st.disk), s) == View(cmp, LogEntries(st.history + InLog(st)), s)
  {
    RunInv(cmp, run, i);
    var st := run[i];
    if st.phase.Running? {
      CrashDisk(cmp, st.disk, st.phase.ram, st.history, st.floor);
    } else {
      assert st.history + [] == st.history;
    }
  }

  /** Recovery: the moment DB::Open finishes, reads at the recovered sequence number or
      later see the whole history, and no recovered entry is beyond that number. */
  lemma Recovery(cmp: Comparator, run: seq<State>, i: nat, s: nat)
    requires IsRun(cmp, run) && 0 < i < |run|
    requires run[i - 1].phase.Recovering? && run[i].phase.Running?
    requires run[i].phase.ram.lastSequence <= s
    ensures var st := run[i];
            && Upto(LogEntries(st.history), st.phase.ram.lastSequence)
            && View(cmp, Contents(st.disk.tables, st.disk.manifest.live), s) == View(cmp, LogEntries(st.history), s)
  {
    hide CutsOk, HistoryOk, NumbersOk, ReadersOk, MergeOk, BuildingOk, ReplayOk, DiskOk;
    RunInv(cmp, run, i - 1);
    assert StepAt(cmp, run, i - 1);
    KeepsRecover(cmp, run[i - 1], run[i]);
    var st := run[i];
    var live := Contents(st.disk.tables, st.disk.manifest.live);
    assert Readable(st.phase.ram.mems, live) == live;
    assert LogEntries(st.history) + Unpublished(None) == LogEntries(st.history);
  }

  /** No table still being built is ever deleted, even when a flush runs inside a compaction. */
  lemma BuildingSafe(cmp: Comparator, run: seq<State>, i: nat)
    requires IsRun(cmp, run) && i < |run| && run[i].phase.Running?
    ensures Building(run[i].phase.ram.worker) <= run[i].disk.tables.Keys
  {
    RunInv(cmp, run, i);
  }

  /** Isolation: a read in progress, however long it takes and whatever runs meanwhile,
      finds its tables in place, sees the history as of its snapshot, and never part of a group. */
  lemma ReadersIsolated(cmp: Comparator, run: seq<State>, i: nat, k: nat)
    requires IsRun(cmp, run) && i < |run| && run[i].phase.Running? && k < |run[i].phase.ram.readers|
    ensures var st, rd := run[i], run[i].phase.ram.readers[k];
            && rd.version <= st.disk.tables.Keys
            && View(cmp, Captured(st.disk.tables, st.phase.ram.mems, rd), rd.snapshot)
               == View(cmp, LogEntries(st.history), rd.snapshot)
            && forall g | g in st.history :: WholeGroup(g, rd.snapshot)
  {
    RunInv(cmp, run, i);
  }

  /** Every live snapshot, and every merge in progress, stays on the safe side of what
      compactions have dropped. */
  lemma SnapshotsSafe(cmp: Comparator, run: seq<State>, i: nat, k: nat)
    requires IsRun(cmp, run) && i < |run| && run[i].phase.Running? && k < |run[i].phase.ram.snapshots|
    ensures var r := run[i].phase.ram;
            && run[i].floor <= r.snapshots[k]
            && (r.worker.merge.Some? ==> r.worker.merge.value.smallest <= r.snapshots[k])
            && View(cmp, Readable(r.mems, Contents(run[i].disk.tables, run[i].disk.manifest.live)), r.snapshots[k])
               == View(cmp, LogEntries(run[i].history), r.snapshots[k])
  {
    RunInv(cmp, run, i);
    var r := run[i].phase.ram;
    UnpublishedAbove(r.writer, r.lastSequence);
    NewerEntriesInvisible(cmp, LogEntries(run[i].history), Unpublished(r.writer), r.snapshots[k]);
  }
}
