/** Scheduling of LevelDB's background work. A step is what one thread does between taking the
    mutex and giving it up. */
module Background {
  import opened Store

  /** Where the background call is while it does not hold the mutex. */
  datatype Phase =
    | Flushing                        // building a table from imm_
    | Merging(isManual: bool)         // DoCompactionWork's loop
    | MergeFlushing(isManual: bool)   // building a table from imm_ in the middle of that loop

  /** `needs` is versions_->NeedsCompaction(), `tooManyFiles` that level 0 is at its stop
      trigger; `queued` counts calls handed to the environment, `waiting` are the threads in
      background_work_finished_signal_.Wait(). */
  datatype State = State(
    imm: bool, hasImm: bool, manual: Option<nat>, needs: bool, tooManyFiles: bool,
    error: bool, shutdown: bool,
    scheduled: bool, queued: nat, running: Option<Phase>, waiting: set<nat>)

  // ----- pieces of code under the mutex

  function MaybeScheduleCompaction(s: State): State {
    if s.scheduled then s
    else if s.shutdown then s
    else if s.error then s
    else if !s.imm && s.manual.None? && !s.needs then s
    else s.(scheduled := true, queued := s.queued + 1)
  }

  function SignalAll(s: State): State {
    s.(waiting := {})
  }

  function RecordBackgroundError(s: State): State {
    if s.error then s else SignalAll(s.(error := true))
  }

  /** The end of BackgroundCall. */
  function FinishCall(s: State): State {
    SignalAll(MaybeScheduleCompaction(s.(scheduled := false, running := None)))
  }

  /** A new version is current; files have moved between levels. */
  function Versioned(s: State, needs: bool, tooManyFiles: bool): State {
    s.(needs := needs || tooManyFiles, tooManyFiles := tooManyFiles)
  }

  /** The end of CompactMemTable: `ok` if the table was built and installed. */
  function FlushEnds(s: State, ok: bool, needs: bool, tooManyFiles: bool): State {
    if ok && !s.shutdown then Versioned(s.(imm := false, hasImm := false), needs, tooManyFiles)
    else RecordBackgroundError(s)
  }

  /** The end of BackgroundCompaction's manual part: the request is taken off. */
  function EndManual(s: State, isManual: bool): State {
    if isManual then s.(manual := None) else s
  }

  // ----- steps; clients make none once the destructor has begun

  datatype Action =
    | Switch                                              // MakeRoomForWrite: a full memtable becomes imm_
    | WaitForRoom(thread: nat)                            // MakeRoomForWrite, TEST_CompactMemTable
    | Request(thread: nat)                                // TEST_CompactRange hands in its range
    | WaitForManual(thread: nat)
    | Cancel(thread: nat)                                 // TEST_CompactRange gives up
    | ReadSample                                          // Get or an iterator asks for a compaction
    | BeginShutdown
    | WaitForShutdown(thread: nat)                        // the destructor
    | StartCall                                           // BackgroundCall finds nothing to do, or gives up
    | StartFlush
    | StartMerge
    | MoveFile(ok: bool, needs: bool, tooManyFiles: bool) // a trivial move
    | EndFlush(ok: bool, needs: bool, tooManyFiles: bool)
    | MergeSeesImm
    | EndMergeFlush(ok: bool, needs: bool, tooManyFiles: bool)
    | EndMerge(ok: bool, needs: bool, tooManyFiles: bool)

  /** The environment runs a queued call. */
  function Dequeue(s: State): State {
    if s.queued > 0 then s.(queued := s.queued - 1) else s
  }

  ghost predicate Next(s: State, a: Action, s': State) {
    match a
    case Switch =>
      !s.error && !s.shutdown && !s.imm && !s.tooManyFiles && s' == MaybeScheduleCompaction(s.(imm := true, hasImm := true))
    case WaitForRoom(t) =>
      !s.error && !s.shutdown && (s.imm || s.tooManyFiles) && s' == s.(waiting := s.waiting + {t})
    case Request(t) =>
      !s.error && !s.shutdown && s.manual.None? && s' == MaybeScheduleCompaction(s.(manual := Some(t)))
    case WaitForManual(t) =>
      !s.error && !s.shutdown && s.manual.Some? && s' == s.(waiting := s.waiting + {t})
    case Cancel(t) =>
      (s.error || s.shutdown) && t !in s.waiting && s.manual == Some(t) && s' == s.(manual := None)
    case ReadSample => s' == MaybeScheduleCompaction(s.(needs := true))
    case BeginShutdown => s' == s.(shutdown := true)
    case WaitForShutdown(t) => s.shutdown && s.scheduled && s' == s.(waiting := s.waiting + {t})
    case StartCall =>
      && s.queued > 0 && s.running.None?
      && (s.shutdown || s.error || !s.imm)
      && s' == FinishCall(EndManual(Dequeue(s), !s.shutdown && !s.error && s.manual.Some?))
    case StartFlush =>
      s.queued > 0 && s.running.None? && !s.shutdown && !s.error && s.imm && s' == Dequeue(s).(running := Some(Flushing))
    case StartMerge =>
      s.queued > 0 && s.running.None? && !s.shutdown && !s.error && !s.imm && s' == Dequeue(s).(running := Some(Merging(s.manual.Some?)))
    case MoveFile(ok, needs, tooMany) =>
      && s.queued > 0 && s.running.None? && !s.shutdown && !s.error && !s.imm && s.manual.None?
      && s' == FinishCall(if ok then Versioned(Dequeue(s), needs, tooMany) else RecordBackgroundError(Dequeue(s)))
    case EndFlush(ok, needs, tooMany) =>
      s.running == Some(Flushing) && s' == FinishCall(FlushEnds(s, ok, needs, tooMany))
    case MergeSeesImm =>
      s.running.Some? && s.running.value.Merging? && s.hasImm && s.imm && s' == s.(running := Some(MergeFlushing(s.running.value.isManual)))
    case EndMergeFlush(ok, needs, tooMany) =>
      s.running.Some? && s.running.value.MergeFlushing?
      && s' == SignalAll(FlushEnds(s, ok, needs, tooMany)).(running := Some(Merging(s.running.value.isManual)))
    case EndMerge(ok, needs, tooMany) =>
      s.running.Some? && s.running.value.Merging?
      && s' == FinishCall(EndManual(if ok && !s.shutdown then Versioned(s, needs, tooMany) else RecordBackgroundError(s),
                                    s.running.value.isManual))
  }

  /** DB::Open ends with MaybeScheduleCompaction. */
  function Opened(needs: bool, tooManyFiles: bool): State {
    MaybeScheduleCompaction(State(false, false, None, needs || tooManyFiles, tooManyFiles, false, false, false, 0, None, {}))
  }

  ghost predicate Initial(s: State) {
    exists needs, tooManyFiles :: s == Opened(needs, tooManyFiles)
  }

  ghost predicate IsRun(run: seq<State>, actions: seq<Action>) {
    && |run| == |actions| + 1 && Initial(run[0])
    && forall i {:trigger StepAt(run, actions, i)} :: StepAt(run, actions, i)
  }

  ghost predicate StepAt(run: seq<State>, actions: seq<Action>, i: int) {
    0 <= i < |actions| && i + 1 < |run| ==> Next(run[i], actions[i], run[i + 1])
  }

  /** The steps that only the background call takes. */
  predicate ByBackground(a: Action) {
    a.StartCall? || a.StartFlush? || a.StartMerge? || a.MoveFile? || a.EndFlush? || a.MergeSeesImm? || a.EndMergeFlush? || a.EndMerge?
  }

  // ----- what every run keeps

  ghost predicate Inv(s: State) {
    && s.queued + (if s.running.Some? then 1 else 0) == (if s.scheduled then 1 else 0)
    && s.hasImm == s.imm
    && (s.tooManyFiles ==> s.needs)
    && ((s.imm || s.manual.Some? || s.needs) && !s.error && !s.shutdown ==> s.scheduled)
    && (s.waiting != {} ==> s.scheduled)
    && (s.running.Some? && !s.running.value.Merging? ==> s.imm)
    && (s.running.Some? && !s.running.value.Flushing? && s.running.value.isManual && s.manual.None? ==> s.error || s.shutdown)
  }

  /** What holds when BackgroundCall comes to its end. */
  ghost predicate CallEnds(s: State) {
    s.queued == 0 && s.hasImm == s.imm && (s.tooManyFiles ==> s.needs)
  }

  lemma FinishInv(s: State)
    requires CallEnds(s)
    ensures Inv(FinishCall(s))
  {
  }

  lemma ClientStepInv(s: State, a: Action, s': State)
    requires Inv(s) && Next(s, a, s') && !ByBackground(a)
    ensures Inv(s')
  {
  }

  lemma BackgroundStepInv(s: State, a: Action, s': State)
    requires Inv(s) && Next(s, a, s') && ByBackground(a)
    ensures Inv(s')
  {
    hide FinishCall;
    match a
    case StartCall => FinishInv(EndManual(Dequeue(s), !s.shutdown && !s.error && s.manual.Some?));
    case MoveFile(ok, needs, tooMany) =>
      FinishInv(if ok then Versioned(Dequeue(s), needs, tooMany) else RecordBackgroundError(Dequeue(s)));
    case EndFlush(ok, needs, tooMany) => FinishInv(FlushEnds(s, ok, needs, tooMany));
    case EndMerge(ok, needs, tooMany) =>
      FinishInv(EndManual(if ok && !s.shutdown then Versioned(s, needs, tooMany) else RecordBackgroundError(s), s.running.value.isManual));
    case _ =>
  }

  lemma StepInv(s: State, a: Action, s': State)
    requires Inv(s) && Next(s, a, s')
    ensures Inv(s')
  {
    hide Inv, Next;
    if ByBackground(a) {
      BackgroundStepInv(s, a, s');
    } else {
      ClientStepInv(s, a, s');
    }
  }

  lemma InitialInv(s: State)
    requires Initial(s)
    ensures Inv(s)
  {
  }

  lemma {:induction false} RunInv(run: seq<State>, actions: seq<Action>, n: nat)
    requires IsRun(run, actions) && n < |run|
    ensures Inv(run[n])
  {
    hide Inv, Next, Initial;
    if n == 0 {
      InitialInv(run[0]);
    } else {
      RunInv(run, actions, n - 1);
      assert StepAt(run, actions, n - 1);
      StepInv(run[n - 1], actions[n - 1], run[n]);
    }
  }

  /** No lost work: with work pending and no error or shutdown, exactly one background call is
      queued or running, and has_imm_ agrees with imm_. */
  lemma NoLostWork(run: seq<State>, actions: seq<Action>, n: nat)
    requires IsRun(run, actions) && n < |run|
    ensures var s := run[n];
            && s.hasImm == s.imm && s.queued + (if s.running.Some? then 1 else 0) <= 1
            && (s.scheduled <==> s.queued + (if s.running.Some? then 1 else 0) == 1)
            && ((s.imm || s.manual.Some? || s.needs) && !s.error && !s.shutdown ==> s.scheduled)
  {
    RunInv(run, actions, n);
  }

  // ----- wake-ups

  /** How many more steps the background call can take before it signals. */
  function Distance(s: State): (d: nat)
    ensures d <= 3
  {
    if s.running.None? then (if s.queued > 0 then 3 else 0)
    else if s.running.value.Merging? then 2
    else 1
  }

  /** Whichever step the background call takes, it signals everybody or comes nearer to it. */
  lemma SignalNears(s: State, a: Action, s': State)
    requires Inv(s) && s.waiting != {} && Next(s, a, s') && ByBackground(a)
    ensures s'.waiting == {} || (s'.waiting == s.waiting && Distance(s') < Distance(s))
  {
  }

  /** Nobody else's step sets it back. */
  lemma SignalStaysNear(s: State, a: Action, s': State)
    requires Inv(s) && s.waiting != {} && Next(s, a, s') && !ByBackground(a)
    ensures s.waiting <= s'.waiting && Distance(s') == Distance(s)
  {
  }

  function BackgroundSteps(actions: seq<Action>): nat {
    if actions == [] then 0
    else BackgroundSteps(actions[..|actions| - 1]) + if ByBackground(actions[|actions| - 1]) then 1 else 0
  }

  /** While a thread has not been signalled, every step of the background call uses up some of
      the distance. */
  lemma {:induction false} StillWaiting(run: seq<State>, actions: seq<Action>, n: nat, m: nat, t: nat)
    requires IsRun(run, actions) && n <= m < |run| && forall i | n <= i <= m :: t in run[i].waiting
    ensures BackgroundSteps(actions[n..m]) + Distance(run[m]) <= Distance(run[n])
  {
    hide Inv, Next, Distance;
    if n < m {
      StillWaiting(run, actions, n, m - 1, t);
      RunInv(run, actions, m - 1);
      assert StepAt(run, actions, m - 1);
      assert actions[n..m][..m - 1 - n] == actions[n..m - 1];
      assert t in run[m - 1].waiting && t in run[m].waiting;
      if ByBackground(actions[m - 1]) {
        SignalNears(run[m - 1], actions[m - 1], run[m]);
      } else {
        SignalStaysNear(run[m - 1], actions[m - 1], run[m]);
      }
    }
  }

  /** In every run a waiting thread has been signalled by the time the background call has
      taken three more steps. */
  lemma WakeUpComes(run: seq<State>, actions: seq<Action>, n: nat, m: nat, t: nat)
    requires IsRun(run, actions) && n <= m < |run| && t in run[n].waiting && 3 <= BackgroundSteps(actions[n..m])
    ensures exists i :: n < i <= m && t !in run[i].waiting
  {
    if forall i | n <= i <= m :: t in run[i].waiting {
      StillWaiting(run, actions, n, m, t);
      RunInv(run, actions, m);
    }
  }

  /** Two are not enough: a compaction starts, and then stops for a memtable. */
  lemma WakeUpTakesThree() returns (run: seq<State>, actions: seq<Action>, n: nat, m: nat, t: nat)
    ensures IsRun(run, actions) && n <= m < |run| && BackgroundSteps(actions[n..m]) == 2
    ensures forall i | n <= i <= m :: t in run[i].waiting
  {
    hide Next;
    var s0 := Opened(false, false);
    var s1, s2, s3, s4, s5 := MergeStopsForFlush(s0, 7);
    run := [s0, s1, s2, s3, s4, s5];
    actions := [Request(7), WaitForManual(7), StartMerge, Switch, MergeSeesImm];
    n, m, t := 2, 5, 7;
    TwoOfThree(StartMerge, Switch, MergeSeesImm);
    assert actions[2..5] == [StartMerge, Switch, MergeSeesImm];
  }

  lemma MergeStopsForFlush(s0: State, t: nat) returns (s1: State, s2: State, s3: State, s4: State, s5: State)
    requires s0 == Opened(false, false)
    ensures Next(s0, Request(t), s1) && Next(s1, WaitForManual(t), s2) && Next(s2, StartMerge, s3)
    ensures Next(s3, Switch, s4) && Next(s4, MergeSeesImm, s5)
    ensures t in s2.waiting && t in s3.waiting && t in s4.waiting && t in s5.waiting
  {
    s1 := MaybeScheduleCompaction(s0.(manual := Some(t)));
    s2 := s1.(waiting := {t});
    s3 := Dequeue(s2).(running := Some(Merging(true)));
    s4 := s3.(imm := true, hasImm := true);
    s5 := s4.(running := Some(MergeFlushing(true)));
  }

  lemma TwoOfThree(a: Action, b: Action, c: Action)
    requires ByBackground(a) && !ByBackground(b) && ByBackground(c)
    ensures BackgroundSteps([a, b, c]) == 2
  {
    assert [a, b, c][..2] == [a, b] && [a, b][..1] == [a] && [a][..0] == [];
    assert BackgroundSteps([a]) == 1 && BackgroundSteps([a, b]) == 1;
  }

  /** And the call can always go on. */
  lemma CallGoesOn(s: State) returns (a: Action, s': State)
    requires Inv(s) && s.waiting != {}
    ensures ByBackground(a) && Next(s, a, s')
  {
    if s.running.Some? {
      a, s' := CallEndsNow(s);
    } else if !s.shutdown && !s.error && s.imm {
      a, s' := StartFlush, Dequeue(s).(running := Some(Flushing));
    } else {
      a, s' := StartCall, FinishCall(EndManual(Dequeue(s), !s.shutdown && !s.error && s.manual.Some?));
    }
  }

  lemma CallEndsNow(s: State) returns (a: Action, s': State)
    requires Inv(s) && s.running.Some?
    ensures ByBackground(a) && Next(s, a, s') && s'.waiting == {}
  {
    match s.running.value
    case Flushing => a, s' := EndFlush(true, false, false), FinishCall(FlushEnds(s, true, false, false));
    case Merging(isManual) =>
      a := EndMerge(true, false, false);
      s' := FinishCall(EndManual(if !s.shutdown then Versioned(s, false, false) else RecordBackgroundError(s), isManual));
    case MergeFlushing(isManual) =>
      a := EndMergeFlush(true, false, false);
      s' := SignalAll(FlushEnds(s, true, false, false)).(running := Some(Merging(isManual)));
  }

  /** In every reachable state a waiting thread has a background call to wake it. */
  lemma WaitersAreServed(run: seq<State>, actions: seq<Action>, n: nat)
    requires IsRun(run, actions) && n < |run| && run[n].waiting != {}
    ensures run[n].scheduled && run[n].queued + (if run[n].running.Some? then 1 else 0) == 1
  {
    RunInv(run, actions, n);
  }

  // ----- what is not lost, and what stops

  /** The immutable memtable goes only when it has been flushed with success. */
  lemma ImmGoesWhenFlushed(s: State, a: Action, s': State)
    requires Inv(s) && Next(s, a, s') && s.imm && !s'.imm
    ensures (a.EndFlush? || a.EndMergeFlush?) && a.ok && !s.shutdown
  {
  }

  /** A manual request goes only when the call that works on it ends, when a call finds nothing to
      do for it, or when its owner gives up after an error or during a shutdown. */
  lemma ManualGoesWhenDone(s: State, a: Action, s': State)
    requires Inv(s) && Next(s, a, s') && s.manual.Some? && s'.manual != s.manual
    ensures s'.manual.None?
    ensures || (a.EndMerge? && WorkingOnManual(s))
            || (a.StartCall? && !s.imm && !s.error && !s.shutdown)
            || (a == Cancel(s.manual.value) && (s.error || s.shutdown))
  {
    if ByBackground(a) {
      BackgroundManual(s, a, s');
    } else {
      ClientManual(s, a, s');
    }
  }

  lemma ClientManual(s: State, a: Action, s': State)
    requires Next(s, a, s') && !ByBackground(a) && s.manual.Some? && s'.manual != s.manual
    ensures s'.manual.None? && a == Cancel(s.manual.value) && (s.error || s.shutdown)
  {
    hide MaybeScheduleCompaction;
    ScheduleKeepsManual(s.(needs := true));
    ScheduleKeepsManual(s.(imm := true, hasImm := true));
  }

  lemma BackgroundManual(s: State, a: Action, s': State)
    requires Next(s, a, s') && ByBackground(a) && s.manual.Some? && s'.manual != s.manual
    ensures s'.manual.None? && ((a.EndMerge? && WorkingOnManual(s)) || (a.StartCall? && !s.imm && !s.error && !s.shutdown))
  {
    hide FinishCall;
    match a
    case StartCall => FinishKeepsManual(EndManual(Dequeue(s), !s.shutdown && !s.error && s.manual.Some?));
    case MoveFile(ok, needs, tooMany) =>
      FinishKeepsManual(if ok then Versioned(Dequeue(s), needs, tooMany) else RecordBackgroundError(Dequeue(s)));
    case EndFlush(ok, needs, tooMany) => FinishKeepsManual(FlushEnds(s, ok, needs, tooMany));
    case EndMerge(ok, needs, tooMany) =>
      FinishKeepsManual(EndManual(if ok && !s.shutdown then Versioned(s, needs, tooMany) else RecordBackgroundError(s), s.running.value.isManual));
    case _ =>
  }

  lemma FinishKeepsManual(s: State)
    ensures FinishCall(s).manual == s.manual
  {
  }

  lemma ScheduleKeepsManual(s: State)
    ensures MaybeScheduleCompaction(s).manual == s.manual
  {
  }

  /** An error stays, and after it or during a shutdown no further call is handed to the
      environment. */
  lemma NothingAfterError(s: State, a: Action, s': State)
    requires Inv(s) && Next(s, a, s')
    ensures (s.error ==> s'.error) && (s.shutdown ==> s'.shutdown)
    ensures s.error || s.shutdown ==> s'.queued <= s.queued
    ensures s'.error && !s.error ==> (a.MoveFile? || a.EndFlush? || a.EndMergeFlush? || a.EndMerge?) && (!a.ok || s.shutdown)
  {
    if ByBackground(a) {
      BackgroundError(s, a, s');
      ErrorComesFrom(s, a, s');
    } else {
      ClientError(s, a, s');
    }
  }

  lemma ClientError(s: State, a: Action, s': State)
    requires Next(s, a, s') && !ByBackground(a)
    ensures s'.error == s.error && (s.shutdown ==> s'.shutdown) && (s.error || s.shutdown ==> s'.queued == s.queued)
  {
  }

  lemma BackgroundError(s: State, a: Action, s': State)
    requires Next(s, a, s') && ByBackground(a)
    ensures (s.error ==> s'.error) && s'.shutdown == s.shutdown && (s.error || s.shutdown ==> s'.queued <= s.queued)
  {
    hide Next;
    if a.StartCall? || a.StartFlush? || a.StartMerge? || a.MoveFile? {
      StartError(s, a, s');
    } else {
      EndError(s, a, s');
    }
  }

  lemma StartError(s: State, a: Action, s': State)
    requires Next(s, a, s') && (a.StartCall? || a.StartFlush? || a.StartMerge? || a.MoveFile?)
    ensures (s.error ==> s'.error) && s'.shutdown == s.shutdown && (s.error || s.shutdown ==> s'.queued <= s.queued)
  {
    hide FinishCall;
    match a
    case StartCall => FinishAfterError(EndManual(Dequeue(s), !s.shutdown && !s.error && s.manual.Some?));
    case MoveFile(ok, needs, tooMany) =>
      FinishAfterError(if ok then Versioned(Dequeue(s), needs, tooMany) else RecordBackgroundError(Dequeue(s)));
    case _ =>
  }

  lemma EndError(s: State, a: Action, s': State)
    requires Next(s, a, s') && (a.EndFlush? || a.MergeSeesImm? || a.EndMergeFlush? || a.EndMerge?)
    ensures (s.error ==> s'.error) && s'.shutdown == s.shutdown && (s.error || s.shutdown ==> s'.queued <= s.queued)
  {
    hide FinishCall;
    match a
    case EndFlush(ok, needs, tooMany) => FinishAfterError(FlushEnds(s, ok, needs, tooMany));
    case EndMerge(ok, needs, tooMany) =>
      FinishAfterError(EndManual(if ok && !s.shutdown then Versioned(s, needs, tooMany) else RecordBackgroundError(s), s.running.value.isManual));
    case _ =>
  }

  /** A call that comes to run after an error or during a shutdown does no work. */
  lemma NoWorkAfterError(s: State, a: Action, s': State)
    requires Next(s, a, s') && ByBackground(a) && s.running.None? && (s.error || s.shutdown)
    ensures a.StartCall? && s'.imm == s.imm && s'.manual == s.manual && s'.needs == s.needs && s'.running.None?
  {
  }

  lemma ErrorComesFrom(s: State, a: Action, s': State)
    requires Next(s, a, s') && ByBackground(a)
    ensures s'.error && !s.error ==> (a.MoveFile? || a.EndFlush? || a.EndMergeFlush? || a.EndMerge?) && (!a.ok || s.shutdown)
  {
    hide FinishCall;
    match a
    case StartCall => FinishAfterError(EndManual(Dequeue(s), !s.shutdown && !s.error && s.manual.Some?));
    case MoveFile(ok, needs, tooMany) =>
      FinishAfterError(if ok then Versioned(Dequeue(s), needs, tooMany) else RecordBackgroundError(Dequeue(s)));
    case EndFlush(ok, needs, tooMany) => FinishAfterError(FlushEnds(s, ok, needs, tooMany));
    case EndMerge(ok, needs, tooMany) =>
      FinishAfterError(EndManual(if ok && !s.shutdown then Versioned(s, needs, tooMany) else RecordBackgroundError(s), s.running.value.isManual));
    case _ =>
  }

  lemma FinishAfterError(s: State)
    ensures FinishCall(s).error == s.error && FinishCall(s).shutdown == s.shutdown
    ensures s.error || s.shutdown ==> FinishCall(s).queued == s.queued
  {
  }

  // ----- the manual request while it is being worked on

  ghost predicate WorkingOnManual(s: State) {
    s.running.Some? && !s.running.value.Flushing? && s.running.value.isManual
  }

  /** The request that the call works on stays in place as long as there is no error and no
      shutdown. */
  lemma ManualStays(run: seq<State>, actions: seq<Action>, n: nat)
    requires IsRun(run, actions) && n < |run| && WorkingOnManual(run[n]) && !run[n].error && !run[n].shutdown
    ensures run[n].manual.Some?
  {
    RunInv(run, actions, n);
  }

  /** With an error or a shutdown it can go: its owner, no longer waiting, takes it back, and
      the call finds no request at its end. */
  lemma ManualCanVanish(s: State)
    requires Inv(s) && WorkingOnManual(s) && s.manual.Some? && s.manual.value !in s.waiting && (s.error || s.shutdown)
    ensures exists a, s' :: Next(s, a, s') && WorkingOnManual(s') && s'.manual.None?
  {
    assert Next(s, Cancel(s.manual.value), s.(manual := None));
  }

  /** A run in which that happens: a flush in the middle of a manual compaction fails. */
  lemma ManualVanishes() returns (run: seq<State>, actions: seq<Action>)
    ensures IsRun(run, actions) && WorkingOnManual(run[|run| - 1]) && run[|run| - 1].manual.None?
  {
    hide Next;
    var s0 := Opened(false, false);
    var s1, s2 := ManualStarts(s0, 7);
    var s3, s4, s5, s6 := FlushFailsWithin(s2, 7);
    run := [s0, s1, s2, s3, s4, s5, s6];
    actions := [Request(7), StartMerge, Switch, MergeSeesImm, EndMergeFlush(false, false, false), Cancel(7)];
  }

  lemma ManualStarts(s0: State, t: nat) returns (s1: State, s2: State)
    requires s0 == Opened(false, false)
    ensures Next(s0, Request(t), s1) && Next(s1, StartMerge, s2)
    ensures WorkingOnManual(s2) && s2.running == Some(Merging(true)) && s2.manual == Some(t) && s2.waiting == {}
    ensures !s2.imm && !s2.tooManyFiles && !s2.error && !s2.shutdown && s2.scheduled
  {
    s1 := MaybeScheduleCompaction(s0.(manual := Some(t)));
    s2 := Dequeue(s1).(running := Some(Merging(true)));
  }

  lemma FlushFailsWithin(s2: State, t: nat) returns (s3: State, s4: State, s5: State, s6: State)
    requires s2.running == Some(Merging(true)) && s2.manual == Some(t) && s2.waiting == {}
    requires !s2.imm && !s2.tooManyFiles && !s2.error && !s2.shutdown && s2.scheduled
    ensures Next(s2, Switch, s3) && Next(s3, MergeSeesImm, s4) && Next(s4, EndMergeFlush(false, false, false), s5) && Next(s5, Cancel(t), s6)
    ensures WorkingOnManual(s6) && s6.manual.None?
  {
    s3 := s2.(imm := true, hasImm := true);
    s4 := s3.(running := Some(MergeFlushing(true)));
    s5 := s4.(error := true, running := Some(Merging(true)));
    s6 := s5.(manual := None);
  }
}
