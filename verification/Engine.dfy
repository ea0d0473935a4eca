/** The life of a database across memtable switches, flushes, compactions, file
    deletion, process crashes and recovery, as a state machine. Each section that
    holds DBImpl's mutex is one action; a writer, the background thread and any
    number of readers interleave freely between actions. */
module Engine {
  import opened Store
  import opened Compaction

  /** One log record: the entries of one write group. */
  type Group = seq<Entry>

  /** What the manifest says: the live tables, the oldest log still needed, the file
      number counter and the last sequence number. */
  datatype Manifest = Manifest(live: set<nat>, logNumber: nat, nextFile: nat, lastSequence: nat)

  datatype Disk = Disk(logs: map<nat, seq<Group>>, tables: map<nat, set<Entry>>, manifest: Manifest)

  /** Memtables are named by the number of the log that backs them, so mem_ is
      `contents[logfile]`. `cut` and `immCut` record the last sequence number at the
      time mem_ and imm_ were created. */
  datatype Memtables = Memtables(contents: map<nat, set<Entry>>, imm: Option<nat>, logfile: nat, cut: nat, immCut: nat)

  /** A read in progress, with the memtables and the version it has captured. */
  datatype Reader = Reader(snapshot: nat, mem: nat, imm: Option<nat>, version: set<nat>)

  /** A write whose log record has been appended; `inserted` entries are in mem_. `ops` are the
      operations that the group was made of; no action reads them. */
  datatype Write = Write(group: Group, inserted: nat, ops: seq<Op>)

  /** WriteLevel0Table for imm_; once built, the number leaves pending_outputs_. */
  datatype Flush = Flush(number: nat, built: bool)

  /** DoCompactionWork between unlocking and InstallCompactionResults. `deeper` are
      the tables on levels below the output level, `todo` the survivors not yet in
      a finished output. */
  datatype Merge = Merge(inputs: set<nat>, deeper: set<nat>, input: seq<Entry>, base: Bytes -> bool, smallest: nat,
                         todo: seq<Entry>, outputs: set<nat>, open: Option<nat>)

  /** The background thread; `sweeping` while it is in DeleteObsoleteFiles. */
  datatype Worker = Worker(pending: set<nat>, flush: Option<Flush>, merge: Option<Merge>, sweeping: bool)

  datatype Ram = Ram(mems: Memtables, lastSequence: nat, nextFile: nat, snapshots: seq<nat>, readers: seq<Reader>,
                     writer: Option<Write>, worker: Worker)

  /** While recovering: the logs still to replay, how many records of the first of
      them are done, the tables written so far and the largest sequence seen. */
  datatype Replay = Replay(todo: set<nat>, pos: nat, edit: set<nat>, maxSequence: nat, nextFile: nat)

  datatype Phase = Running(ram: Ram) | Recovering(replay: Replay)

  /** `history` lists every acknowledged or recovered group, `asked` the operations their writers
      handed in; `floor` is the largest smallest_snapshot any installed compaction has used. No
      action reads them. */
  datatype State = State(disk: Disk, phase: Phase, history: seq<Group>, floor: nat, asked: seq<Op>)

  ghost function Contents(tables: map<nat, set<Entry>>, numbers: set<nat>): set<Entry> {
    set n, e | n in numbers && n in tables && e in tables[n] :: e
  }

  ghost function LogEntries(groups: seq<Group>): set<Entry> {
    ToSet(Flatten(groups))
  }

  /** What the logs that recovery would replay hold. */
  ghost function Logged(logs: map<nat, seq<Group>>, logNumber: nat): set<Entry> {
    set n, e | n in logs && logNumber <= n && e in LogEntries(logs[n]) :: e
  }

  /** Everything that survives a process crash. */
  ghost function Durable(d: Disk): set<Entry> {
    Contents(d.tables, d.manifest.live) + Logged(d.logs, d.manifest.logNumber)
  }

  ghost function Memtable(m: Memtables, id: nat): set<Entry> {
    if id in m.contents then m.contents[id] else {}
  }

  ghost function Mem(m: Memtables): set<Entry> {
    Memtable(m, m.logfile)
  }

  ghost function Imm(m: Memtables): set<Entry> {
    if m.imm.Some? then Memtable(m, m.imm.value) else {}
  }

  /** What Get and NewInternalIterator search: mem_, imm_ and the current version. */
  ghost function Readable(m: Memtables, tables: set<Entry>): set<Entry> {
    Mem(m) + Imm(m) + tables
  }

  /** What a read in progress can reach through what it captured. */
  ghost function Captured(tables: map<nat, set<Entry>>, m: Memtables, rd: Reader): set<Entry> {
    Memtable(m, rd.mem) + (if rd.imm.Some? then Memtable(m, rd.imm.value) else {}) + Contents(tables, rd.version)
  }

  /** The entries a write in progress has put into mem_ but not yet published. */
  ghost function Unpublished(writer: Option<Write>): set<Entry> {
    if writer.Some? && writer.value.inserted <= |writer.value.group|
    then ToSet(writer.value.group[..writer.value.inserted]) else {}
  }

  /** SetSequence on a batch: consecutive numbers from `first`. */
  function Number(ops: seq<Op>, first: nat): (g: Group)
    ensures |g| == |ops|
  {
    seq(|ops|, i requires 0 <= i < |ops| => Entry(ops[i].key, first + i, ops[i].kind, ops[i].value))
  }

  /** Applied on top of older entries, a group is read in the order of its operations: the last
      one on a key decides, at every snapshot from the last of them on. */
  lemma LastOperationWins(cmp: Comparator, es: set<Entry>, ops: seq<Op>, first: nat, i: nat, s: nat)
    requires i < |ops| && first + |ops| - 1 <= s && forall e | e in es :: e.seqno < first
    ensures var g := Number(ops, first);
            g[i] in View(cmp, es + ToSet(g), s) <==>
              ops[i].kind.Value? && forall j | i < j < |ops| :: !Same(cmp, ops[j].key, ops[i].key)
  {
    var g := Number(ops, first);
    var all := es + ToSet(g);
    if j :| i < j < |ops| && Same(cmp, ops[j].key, ops[i].key) {
      assert g[j] in all && Hides(cmp, g[j], g[i], s);
    } else {
      forall e | e in all
        ensures !Hides(cmp, e, g[i], s)
      {
        if e in ToSet(g) {
          var j :| 0 <= j < |g| && g[j] == e;
        }
      }
    }
  }

  /** And it is what its operation says: the last one on a key gives the answer for the key. */
  lemma LastOperationAnswers(cmp: Comparator, es: set<Entry>, ops: seq<Op>, first: nat, i: nat, s: nat)
    requires i < |ops| && first + |ops| - 1 <= s && forall e | e in es :: e.seqno < first
    requires forall j | i < j < |ops| :: !Same(cmp, ops[j].key, ops[i].key)
    ensures Answers(cmp, es + ToSet(Number(ops, first)), s, ops[i].key, if ops[i].kind.Value? then Some(ops[i].value) else None)
  {
    var g := Number(ops, first);
    var all := es + ToSet(g);
    SameIsEquivalence(cmp, ops[i].key, ops[i].key, ops[i].key);
    LastOperationWins(cmp, es, ops, first, i, s);
    if ops[i].kind.Deletion? {
      forall e | e in View(cmp, all, s)
        ensures !Same(cmp, e.key, ops[i].key)
      {
        if Same(cmp, e.key, ops[i].key) {
          SameIsEquivalence(cmp, e.key, ops[i].key, e.key);
          if e in ToSet(g) {
            var j :| 0 <= j < |g| && g[j] == e;
          }
          assert g[i] in all && Hides(cmp, g[i], e, s);
        }
      }
    }
  }

  ghost predicate First(s: set<nat>, n: nat) {
    n in s && forall m | m in s :: n <= m
  }

  // ----- actions of a writer (all of them by the writer at the front of the queue)

  /** log_->AddRecord, with the mutex released. */
  ghost function Append(d: Disk, r: Ram, ops: seq<Op>): (Disk, Ram)
    requires r.mems.logfile in d.logs
  {
    var g := Number(ops, r.lastSequence + 1);
    (d.(logs := d.logs[r.mems.logfile := d.logs[r.mems.logfile] + [g]]), r.(writer := Some(Write(g, 0, ops))))
  }

  /** One step of InsertInto(mem_), with the mutex released. */
  ghost function InsertOne(r: Ram): Ram
    requires r.writer.Some? && r.writer.value.inserted < |r.writer.value.group|
  {
    var w := r.writer.value;
    r.(mems := r.mems.(contents := r.mems.contents[r.mems.logfile := Mem(r.mems) + {w.group[w.inserted]}]),
       writer := Some(w.(inserted := w.inserted + 1)))
  }

  /** SetLastSequence, and the write returns. */
  ghost function Publish(r: Ram): Ram
    requires r.writer.Some?
  {
    r.(lastSequence := r.lastSequence + |r.writer.value.group|, writer := None)
  }

  /** MakeRoomForWrite's last branch: a new log, mem_ becomes imm_. */
  ghost function Switch(d: Disk, r: Ram): (Disk, Ram) {
    (d.(logs := d.logs[r.nextFile := []]),
     r.(mems := Memtables(r.mems.contents[r.nextFile := {}], Some(r.mems.logfile), r.nextFile, r.lastSequence, r.mems.cut),
        nextFile := r.nextFile + 1))
  }

  // ----- actions of the background thread

  ghost function StartFlush(d: Disk, r: Ram): (Disk, Ram) {
    (d.(tables := d.tables[r.nextFile := {}]),
     r.(nextFile := r.nextFile + 1,
        worker := r.worker.(flush := Some(Flush(r.nextFile, false)), pending := r.worker.pending + {r.nextFile})))
  }

  ghost function FinishFlush(d: Disk, r: Ram): (Disk, Ram)
    requires r.worker.flush.Some?
  {
    var n := r.worker.flush.value.number;
    (d.(tables := d.tables[n := Imm(r.mems)]),
     r.(worker := r.worker.(flush := Some(Flush(n, true)), pending := r.worker.pending - {n})))
  }

  /** LogAndApply of a flush: logs older than the current one are no longer needed. */
  ghost function InstallFlush(d: Disk, r: Ram): (Disk, Ram)
    requires r.worker.flush.Some?
  {
    (d.(manifest := Manifest(d.manifest.live + {r.worker.flush.value.number}, r.mems.logfile, r.nextFile, r.lastSequence)),
     r.(mems := r.mems.(imm := None), worker := r.worker.(flush := None, sweeping := true)))
  }

  ghost function SmallestSnapshot(r: Ram): nat {
    if r.snapshots == [] then r.lastSequence else r.snapshots[0]
  }

  ghost function StartMerge(cmp: Comparator, r: Ram, inputs: set<nat>, deeper: set<nat>, input: seq<Entry>,
                            base: Bytes -> bool): Ram
  {
    var s := SmallestSnapshot(r);
    var todo := Survivors(cmp, input, s, base, |input|);
    r.(worker := r.worker.(merge := Some(Merge(inputs, deeper, input, base, s, todo, {}, None))))
  }

  ghost function OpenOutput(d: Disk, r: Ram): (Disk, Ram)
    requires r.worker.merge.Some?
  {
    var n := r.nextFile;
    (d.(tables := d.tables[n := {}]),
     r.(nextFile := n + 1,
        worker := r.worker.(merge := Some(r.worker.merge.value.(open := Some(n))), pending := r.worker.pending + {n})))
  }

  ghost function FinishOutput(d: Disk, r: Ram, count: nat): (Disk, Ram)
    requires r.worker.merge.Some? && r.worker.merge.value.open.Some? && count <= |r.worker.merge.value.todo|
  {
    var c := r.worker.merge.value;
    var n := c.open.value;
    (d.(tables := d.tables[n := ToSet(c.todo[..count])]),
     r.(worker := r.worker.(merge := Some(c.(open := None, outputs := c.outputs + {n}, todo := c.todo[count..])))))
  }

  /** InstallCompactionResults and CleanupCompaction. */
  ghost function InstallMerge(d: Disk, r: Ram): (Disk, Ram)
    requires r.worker.merge.Some?
  {
    var c := r.worker.merge.value;
    (d.(manifest := Manifest(d.manifest.live - c.inputs + c.outputs, d.manifest.logNumber, r.nextFile, r.lastSequence)),
     r.(worker := r.worker.(merge := None, pending := r.worker.pending - c.outputs, sweeping := true)))
  }

  /** The same without installing, when the database is being closed. */
  ghost function AbortMerge(r: Ram): Ram
    requires r.worker.merge.Some?
  {
    var c := r.worker.merge.value;
    r.(worker := r.worker.(merge := None, pending := r.worker.pending - c.outputs - Opened(c), sweeping := true))
  }

  ghost function Opened(c: Merge): set<nat> {
    if c.open.Some? then {c.open.value} else {}
  }

  /** Tables DeleteObsoleteFiles keeps: pending outputs and those of any referenced version. */
  ghost predicate KeptTable(d: Disk, r: Ram, n: nat) {
    n in r.worker.pending || n in d.manifest.live || exists i :: 0 <= i < |r.readers| && n in r.readers[i].version
  }

  // ----- actions of users

  ghost function NewSnapshot(r: Ram): Ram {
    r.(snapshots := r.snapshots + [r.lastSequence])
  }

  ghost function ReleaseSnapshot(r: Ram, i: nat): Ram
    requires i < |r.snapshots|
  {
    r.(snapshots := r.snapshots[..i] + r.snapshots[i + 1..])
  }

  /** The locked prefix of Get or NewIterator, at snapshot number `at` or at LastSequence. */
  ghost function BeginRead(d: Disk, r: Ram, at: Option<nat>): Ram
    requires at.Some? ==> at.value < |r.snapshots|
  {
    var s := if at.Some? then r.snapshots[at.value] else r.lastSequence;
    r.(readers := r.readers + [Reader(s, r.mems.logfile, r.mems.imm, d.manifest.live)])
  }

  ghost function EndRead(r: Ram, i: nat): Ram
    requires i < |r.readers|
  {
    r.(readers := r.readers[..i] + r.readers[i + 1..])
  }

  // ----- crash and recovery

  /** After a crash only the files are left. The new manifest takes a file number. */
  ghost function Restart(d: Disk): Replay {
    Replay(set n | n in d.logs && d.manifest.logNumber <= n, 0, {}, 0, d.manifest.nextFile + 1)
  }

  ghost function Numbers(es: set<Entry>): set<nat> {
    set e | e in es :: e.seqno
  }

  ghost function MaxSequence(bound: nat, es: set<Entry>): (m: nat)
    ensures bound <= m && forall e | e in es :: e.seqno <= m
    ensures m == bound || m in Numbers(es)
    decreases |es|
  {
    if es == {} then bound
    else var e :| e in es; MaxSequence(if bound < e.seqno then e.seqno else bound, es - {e})
  }

  /** RecoverLogFile: the records of log `n` up to `upto` go into a level-0 table; the
      number of a finished log is marked as used. */
  ghost function Spill(d: Disk, p: Replay, n: nat, upto: nat): (Disk, Replay)
    requires n in d.logs && p.pos <= upto <= |d.logs[n]|
  {
    var table := LogEntries(d.logs[n][p.pos..upto]);
    var done := upto == |d.logs[n]|;
    (d.(tables := d.tables[p.nextFile := table]),
     Replay(if done then p.todo - {n} else p.todo, if done then 0 else upto, p.edit + {p.nextFile},
            MaxSequence(p.maxSequence, table), if done && p.nextFile < n then n + 1 else p.nextFile + 1))
  }

  /** The end of DB::Open: a new log and memtable, and the edit goes to the manifest. */
  ghost function Commit(d: Disk, p: Replay): (Disk, Ram) {
    var log := p.nextFile;
    var last := if d.manifest.lastSequence < p.maxSequence then p.maxSequence else d.manifest.lastSequence;
    (Disk(d.logs[log := []], d.tables, Manifest(d.manifest.live + p.edit, log, log + 1, last)),
     Ram(Memtables(map[log := {}], None, log, last, last), last, log + 1, [], [], None, Worker({}, None, None, true)))
  }

  // ----- the transition relation

  ghost predicate WriterStep(d: Disk, r: Ram, d': Disk, r': Ram) {
    || (r.writer.None? && r.mems.logfile in d.logs && exists ops :: (d', r') == Append(d, r, ops))
    || (r.writer.Some? && r.writer.value.inserted < |r.writer.value.group| && (d', r') == (d, InsertOne(r)))
    || (r.writer.None? && r.mems.imm.None? && (d', r') == Switch(d, r))
  }

  /** The table numbers and order a compaction may be picked with: what lies above the
      inputs is newer, and a base-level key has nothing below the output level. */
  ghost predicate MergeMayStart(cmp: Comparator, d: Disk, inputs: set<nat>, deeper: set<nat>, input: seq<Entry>,
                                base: Bytes -> bool)
  {
    var live := d.manifest.live;
    && inputs <= live && deeper <= live - inputs
    && Sorted(cmp, input) && ToSet(input) == Contents(d.tables, inputs)
    && AllNewerThan(cmp, Contents(d.tables, live - inputs - deeper), input)
    && BaseMeansNothingBelow(cmp, base, input, Contents(d.tables, deeper))
  }

  ghost predicate FlushStep(d: Disk, r: Ram, d': Disk, r': Ram) {
    var k := r.worker;
    && r.mems.imm.Some?
    && (|| (k.flush.None? && !k.sweeping && (d', r') == StartFlush(d, r))
        || (k.flush.Some? && !k.flush.value.built && (d', r') == FinishFlush(d, r))
        || (k.flush.Some? && k.flush.value.built && (d', r') == InstallFlush(d, r)))
  }

  ghost predicate StartMergeStep(cmp: Comparator, d: Disk, r: Ram, d': Disk, r': Ram) {
    var k := r.worker;
    && r.mems.imm.None? && k.flush.None? && k.merge.None? && !k.sweeping && d' == d
    && exists inputs, deeper, input, base ::
         MergeMayStart(cmp, d, inputs, deeper, input, base) && r' == StartMerge(cmp, r, inputs, deeper, input, base)
  }

  ghost predicate MergeStep(d: Disk, r: Ram, d': Disk, r': Ram) {
    var k := r.worker;
    && k.merge.Some? && k.flush.None? && !k.sweeping
    && var c := k.merge.value;
       || (c.open.None? && c.todo != [] && (d', r') == OpenOutput(d, r))
       || (c.open.Some? && exists count | 0 < count <= |c.todo| :: (d', r') == FinishOutput(d, r, count))
       || (d', r') == (d, AbortMerge(r))
  }

  ghost predicate SweepStep(d: Disk, r: Ram, d': Disk, r': Ram) {
    && r.worker.sweeping
    && (|| (r' == r && exists n :: n in d.tables && !KeptTable(d, r, n) && d' == d.(tables := d.tables - {n}))
        || (r' == r && exists n :: n in d.logs && n < d.manifest.logNumber && d' == d.(logs := d.logs - {n}))
        || (d' == d && r' == r.(worker := r.worker.(sweeping := false))))
  }

  ghost predicate UserStep(d: Disk, r: Ram, d': Disk, r': Ram) {
    && d' == d
    && (|| r' == NewSnapshot(r)
        || (exists i | 0 <= i < |r.snapshots| :: r' == ReleaseSnapshot(r, i))
        || r' == BeginRead(d, r, None)
        || (exists i | 0 <= i < |r.snapshots| :: r' == BeginRead(d, r, Some(i)))
        || (exists i | 0 <= i < |r.readers| :: r' == EndRead(r, i)))
  }

  /** Actions that change neither the history nor the floor. */
  ghost predicate QuietStep(cmp: Comparator, d: Disk, r: Ram, d': Disk, r': Ram) {
    || WriterStep(d, r, d', r') || FlushStep(d, r, d', r') || StartMergeStep(cmp, d, r, d', r')
    || MergeStep(d, r, d', r') || SweepStep(d, r, d', r') || UserStep(d, r, d', r')
  }

  ghost predicate PublishStep(st: State, st': State)
    requires st.phase.Running?
  {
    var r := st.phase.ram;
    && r.writer.Some? && r.writer.value.inserted == |r.writer.value.group|
    && st' == st.(phase := Running(Publish(r)), history := st.history + [r.writer.value.group], asked := st.asked + r.writer.value.ops)
  }

  ghost predicate InstallMergeStep(st: State, st': State)
    requires st.phase.Running?
  {
    var r := st.phase.ram;
    && r.worker.merge.Some? && r.worker.flush.None? && !r.worker.sweeping
    && var c := r.worker.merge.value;
       && c.open.None? && c.todo == []
       && var (d', r') := InstallMerge(st.disk, r);
          st' == st.(disk := d', phase := Running(r'), floor := if c.smallest < st.floor then st.floor else c.smallest)
  }

  /** The group of a write in progress, which is in the log already, and its operations. */
  ghost function InLog(st: State): seq<Group> {
    if st.phase.Running? && st.phase.ram.writer.Some? then [st.phase.ram.writer.value.group] else []
  }

  ghost function AskedInLog(st: State): seq<Op> {
    if st.phase.Running? && st.phase.ram.writer.Some? then st.phase.ram.writer.value.ops else []
  }

  /** A process crash at any moment. A record already in the log is part of history. */
  ghost predicate CrashStep(st: State, st': State) {
    st' == st.(phase := Recovering(Restart(st.disk)), history := st.history + InLog(st), asked := st.asked + AskedInLog(st))
  }

  ghost predicate RecoverStep(st: State, st': State)
    requires st.phase.Recovering?
  {
    var d, p := st.disk, st.phase.replay;
    || (exists n, upto | First(p.todo, n) && n in d.logs && p.pos <= upto <= |d.logs[n]| ::
          var (d', p') := Spill(d, p, n, upto); st' == st.(disk := d', phase := Recovering(p')))
    || (p.todo == {} && var (d', r') := Commit(d, p); st' == st.(disk := d', phase := Running(r')))
  }

  ghost predicate Next(cmp: Comparator, st: State, st': State) {
    || CrashStep(st, st')
    || (st.phase.Recovering? && RecoverStep(st, st'))
    || (st.phase.Running? && (PublishStep(st, st') || InstallMergeStep(st, st')))
    || (st.phase.Running? && st'.phase.Running? && st'.history == st.history && st'.floor == st.floor && st'.asked == st.asked
        && QuietStep(cmp, st.disk, st.phase.ram, st'.disk, st'.phase.ram))
  }

  /** A new database, as DB::Open leaves it: log 3 after manifest 2. */
  function Initial(): State {
    State(Disk(map[3 := []], map[], Manifest({}, 3, 4, 0)),
          Running(Ram(Memtables(map[3 := {}], None, 3, 0, 0), 0, 4, [], [], None, Worker({}, None, None, true))), [], 0, [])
  }

  ghost predicate StepAt(cmp: Comparator, run: seq<State>, i: int) {
    0 <= i < |run| - 1 ==> Next(cmp, run[i], run[i + 1])
  }

  ghost predicate IsRun(cmp: Comparator, run: seq<State>) {
    && run != [] && run[0] == Initial()
    && forall i {:trigger StepAt(cmp, run, i)} :: StepAt(cmp, run, i)
  }
}
