/** The merge loop of a table compaction and its two drop rules. */
module Compaction {
  import opened Store

  /** Rule (A): a newer entry for the same user key, itself no newer than the
      oldest snapshot, hides this one from every reader. */
  ghost predicate HiddenInInput(cmp: Comparator, input: seq<Entry>, smallest: nat, e: Entry) {
    exists newer :: newer in input && Hides(cmp, newer, e, smallest)
  }

  /** The second rule: a deletion marker with nothing underneath it. */
  predicate ObsoleteMarker(smallest: nat, base: Bytes -> bool, e: Entry) {
    e.kind.Deletion? && e.seqno <= smallest && base(e.key)
  }

  ghost predicate Survives(cmp: Comparator, input: seq<Entry>, smallest: nat, base: Bytes -> bool, e: Entry) {
    !HiddenInInput(cmp, input, smallest, e) && !ObsoleteMarker(smallest, base, e)
  }

  /** The survivors among the first `n` input entries, in input order. */
  ghost function Survivors(cmp: Comparator, input: seq<Entry>, smallest: nat, base: Bytes -> bool, n: nat): seq<Entry>
    requires n <= |input|
  {
    if n == 0 then []
    else Survivors(cmp, input, smallest, base, n - 1)
         + if Survives(cmp, input, smallest, base, input[n - 1]) then [input[n - 1]] else []
  }

  /** In sorted input, rule (A) only ever needs to look at the entry just before. */
  lemma RuleAIsAdjacent(cmp: Comparator, input: seq<Entry>, smallest: nat, i: nat)
    requires Sorted(cmp, input) && i < |input|
    ensures HiddenInInput(cmp, input, smallest, input[i])
       <==> 0 < i && Same(cmp, input[i - 1].key, input[i].key) && input[i - 1].seqno <= smallest
  {
    if HiddenInInput(cmp, input, smallest, input[i]) {
      var newer :| newer in input && Hides(cmp, newer, input[i], smallest);
      var j :| 0 <= j < |input| && input[j] == newer;
      SameIsEquivalence(cmp, newer.key, input[i].key, newer.key);
      if i <= j {
        assert false;
      }
      if j < i - 1 {
        assert InternalBefore(cmp, input[j], input[i - 1]) && InternalBefore(cmp, input[i - 1], input[i]);
        SameIsEquivalence(cmp, newer.key, input[i - 1].key, input[i].key);
      }
    } else if 0 < i && Same(cmp, input[i - 1].key, input[i].key) && input[i - 1].seqno <= smallest {
      assert InternalBefore(cmp, input[i - 1], input[i]);
      assert Hides(cmp, input[i - 1], input[i], smallest);
    }
  }

  lemma {:induction false} SurvivorsAreThose(cmp: Comparator, input: seq<Entry>, smallest: nat, base: Bytes -> bool,
                                             n: nat, e: Entry)
    requires n <= |input|
    ensures e in Survivors(cmp, input, smallest, base, n)
       <==> e in input[..n] && Survives(cmp, input, smallest, base, e)
  {
    if n > 0 {
      SurvivorsAreThose(cmp, input, smallest, base, n - 1, e);
      assert input[..n] == input[..n - 1] + [input[n - 1]];
    }
  }

  /** What is kept, exactly: everything newer than the smallest snapshot, and of what is not, the
      newest entry of each key, unless that is a deletion and nothing lies below. */
  lemma KeptExactly(cmp: Comparator, input: seq<Entry>, smallest: nat, base: Bytes -> bool, e: Entry)
    ensures e in Survivors(cmp, input, smallest, base, |input|) <==>
              && e in input
              && (|| smallest < e.seqno
                  || (&& (forall o | o in input && Same(cmp, o.key, e.key) && o.seqno <= smallest :: o.seqno <= e.seqno)
                      && (e.kind.Value? || !base(e.key))))
  {
    SurvivorsAreThose(cmp, input, smallest, base, |input|, e);
    assert input[..|input|] == input;
    if e in input && e.seqno <= smallest {
      assert HiddenInInput(cmp, input, smallest, e) <==>
             exists o :: o in input && Same(cmp, o.key, e.key) && e.seqno < o.seqno <= smallest by {
        if o :| o in input && Same(cmp, o.key, e.key) && e.seqno < o.seqno <= smallest {
          assert Hides(cmp, o, e, smallest);
        }
      }
    }
  }

  /** So at the base level nothing old is kept but what the smallest snapshot reads. */
  lemma BaseKeepsOnlyTheView(cmp: Comparator, input: seq<Entry>, smallest: nat, base: Bytes -> bool, e: Entry)
    requires e in Survivors(cmp, input, smallest, base, |input|) && e.seqno <= smallest && base(e.key)
    ensures e in View(cmp, ToSet(input), smallest)
  {
    KeptExactly(cmp, input, smallest, base, e);
  }

  /** Each entry is kept once, and in order. */
  lemma {:induction false} SurvivorsSorted(cmp: Comparator, input: seq<Entry>, smallest: nat, base: Bytes -> bool, n: nat)
    requires Sorted(cmp, input) && n <= |input|
    ensures Sorted(cmp, Survivors(cmp, input, smallest, base, n))
  {
    if n > 0 {
      SurvivorsSorted(cmp, input, smallest, base, n - 1);
      var before := Survivors(cmp, input, smallest, base, n - 1);
      forall i | 0 <= i < |before|
        ensures InternalBefore(cmp, before[i], input[n - 1])
      {
        SurvivorsAreThose(cmp, input, smallest, base, n - 1, before[i]);
        var k :| 0 <= k < n - 1 && input[k] == before[i];
      }
    }
  }

  /** Among the input entries for one key that no snapshot below `smallest` needs, the
      newest one is not hidden by rule (A). */
  lemma {:induction false} NewestUnhidden(cmp: Comparator, input: seq<Entry>, smallest: nat, i: nat)
    returns (top: Entry)
    requires Sorted(cmp, input) && i < |input| && input[i].seqno <= smallest
    ensures top in input && Same(cmp, top.key, input[i].key)
    ensures input[i].seqno <= top.seqno <= smallest
    ensures !HiddenInInput(cmp, input, smallest, top)
  {
    RuleAIsAdjacent(cmp, input, smallest, i);
    SameIsEquivalence(cmp, input[i].key, input[i].key, input[i].key);
    top := input[i];
    if HiddenInInput(cmp, input, smallest, top) {
      assert InternalBefore(cmp, input[i - 1], input[i]);
      top := NewestUnhidden(cmp, input, smallest, i - 1);
      SameIsEquivalence(cmp, top.key, input[i - 1].key, input[i].key);
    }
  }

  ghost predicate AllNewerThan(cmp: Comparator, newer: set<Entry>, es: seq<Entry>) {
    forall u, e | u in newer && e in es && Same(cmp, u.key, e.key) :: e.seqno < u.seqno
  }

  ghost predicate BaseMeansNothingBelow(cmp: Comparator, base: Bytes -> bool, es: seq<Entry>, older: set<Entry>) {
    forall d, e | d in older && e in es && Same(cmp, e.key, d.key) :: !base(e.key)
  }

  /** An entry that a dropped one was hiding is itself hidden by a survivor. */
  lemma DroppedHidesNothing(cmp: Comparator, input: seq<Entry>, smallest: nat, base: Bytes -> bool,
                            newer: set<Entry>, older: set<Entry>, s: nat, dropped: Entry, e: Entry)
    requires Sorted(cmp, input) && smallest <= s
    requires AllNewerThan(cmp, newer, input)
    requires BaseMeansNothingBelow(cmp, base, input, older)
    requires dropped in input && !Survives(cmp, input, smallest, base, dropped)
    requires Hides(cmp, dropped, e, s)
    requires e in newer || e in older || (e in input && Survives(cmp, input, smallest, base, e))
    ensures exists top :: top in input && Survives(cmp, input, smallest, base, top) && Hides(cmp, top, e, s)
  {
    var i :| 0 <= i < |input| && input[i] == dropped;
    var top := NewestUnhidden(cmp, input, smallest, i);
    SameIsEquivalence(cmp, top.key, dropped.key, e.key);
    SameIsEquivalence(cmp, e.key, dropped.key, e.key);
    SameIsEquivalence(cmp, top.key, e.key, top.key);
    assert Hides(cmp, top, e, smallest);
    assert e !in newer;
    if ObsoleteMarker(smallest, base, top) {
      assert false;
    }
  }

  lemma HiddenIsNotLive(cmp: Comparator, es: set<Entry>, hider: Entry, e: Entry, smallest: nat, s: nat)
    requires hider in es && Hides(cmp, hider, e, smallest) && smallest <= s
    ensures !Live(cmp, es, s, e)
  {
    assert Hides(cmp, hider, e, s);
  }

  /** Compaction preserves every read: whatever lies above the compacted tables and
      below them, each snapshot from `smallest` on sees the same thing afterwards. */
  lemma CompactionPreservesView(cmp: Comparator, input: seq<Entry>, smallest: nat, base: Bytes -> bool,
                                newer: set<Entry>, older: set<Entry>, s: nat)
    requires Sorted(cmp, input) && smallest <= s
    requires AllNewerThan(cmp, newer, input)
    requires BaseMeansNothingBelow(cmp, base, input, older)
    ensures View(cmp, newer + ToSet(input) + older, s)
         == View(cmp, newer + ToSet(Survivors(cmp, input, smallest, base, |input|)) + older, s)
  {
    var kept := ToSet(Survivors(cmp, input, smallest, base, |input|));
    var before := newer + ToSet(input) + older;
    var after := newer + kept + older;
    forall e
      ensures e in kept <==> e in input && Survives(cmp, input, smallest, base, e)
    {
      SurvivorsAreThose(cmp, input, smallest, base, |input|, e);
      assert input[..|input|] == input;
    }
    forall e | Live(cmp, before, s, e)
      ensures Live(cmp, after, s, e)
    {
      if e in input && HiddenInInput(cmp, input, smallest, e) {
        var hider :| hider in input && Hides(cmp, hider, e, smallest);
        HiddenIsNotLive(cmp, before, hider, e, smallest, s);
      }
    }
    forall e | Live(cmp, after, s, e)
      ensures Live(cmp, before, s, e)
    {
      forall hider | hider in before
        ensures !Hides(cmp, hider, e, s)
      {
        if hider !in after && Hides(cmp, hider, e, s) {
          DroppedHidesNothing(cmp, input, smallest, base, newer, older, s, hider, e);
        }
      }
    }
  }

  /** What has been written so far: the finished tables and the one being built. */
  ghost function Written(outputs: seq<seq<Entry>>, builder: Option<seq<Entry>>): seq<Entry> {
    Flatten(outputs) + if builder.Some? then builder.value else []
  }

  lemma FinishTable(outputs: seq<seq<Entry>>, table: seq<Entry>)
    ensures Written(outputs + [table], None) == Written(outputs, Some(table))
  {
    assert (outputs + [table])[..|outputs|] == outputs;
  }

  /** The last sequence number for the i-th entry's key, as the loop carries it. */
  ghost function LastSequence(cmp: Comparator, input: seq<Entry>, i: nat): nat
    requires i < |input|
  {
    if 0 < i && Same(cmp, input[i - 1].key, input[i].key) then input[i - 1].seqno else MAX_SEQUENCE
  }

  lemma SameAsCurrent(cmp: Comparator, current: Bytes, previous: Bytes, next: Bytes)
    requires Same(cmp, current, previous)
    ensures cmp(next, current) == 0 <==> Same(cmp, previous, next)
    ensures cmp(next, current) == 0 ==> Same(cmp, current, next)
  {
    SameIsEquivalence(cmp, previous, current, next);
    SameIsEquivalence(cmp, next, current, previous);
    SameIsEquivalence(cmp, current, previous, next);
    SameIsEquivalence(cmp, next, previous, next);
    SameIsEquivalence(cmp, previous, next, previous);
    SameIsEquivalence(cmp, current, next, current);
  }

  ghost predicate TablesNonEmpty(outputs: seq<seq<Entry>>, builder: Option<seq<Entry>>) {
    && (forall table | table in outputs :: table != [])
    && (builder.Some? ==> builder.value != [])
  }

  /** A table is closed as soon as it is large enough: none of its beginnings was. */
  ghost predicate ClosedInTime(full: seq<Entry> -> bool, table: seq<Entry>) {
    forall n | 0 < n < |table| :: !full(table[..n])
  }

  ghost predicate AllClosedInTime(full: seq<Entry> -> bool, outputs: seq<seq<Entry>>, builder: Option<seq<Entry>>) {
    && (forall table | table in outputs :: ClosedInTime(full, table))
    && (builder.Some? ==> ClosedInTime(full, builder.value) && !full(builder.value))
  }

  lemma OneMore(full: seq<Entry> -> bool, table: seq<Entry>, e: Entry)
    requires ClosedInTime(full, table) && (table != [] ==> !full(table))
    ensures ClosedInTime(full, table + [e])
  {
    forall n | 0 < n < |table + [e]|
      ensures !full((table + [e])[..n])
    {
      assert (table + [e])[..n] == table[..n];
      assert table[..|table|] == table;
    }
  }

  /** Finished tables are closed for a reason, and a reason closes them. */
  ghost predicate CutForReason(stopBefore: nat -> bool, full: seq<Entry> -> bool, outputs: seq<seq<Entry>>, builder: Option<seq<Entry>>) {
    && ((forall j :: !stopBefore(j)) ==> forall k | 0 <= k < |outputs| :: full(outputs[k]))
    && ((forall j :: stopBefore(j)) ==> (forall k | 0 <= k < |outputs| :: |outputs[k]| == 1) && (builder.Some? ==> |builder.value| == 1))
  }

  lemma StopFinishes(stopBefore: nat -> bool, i: nat, full: seq<Entry> -> bool, outputs: seq<seq<Entry>>, table: seq<Entry>)
    requires CutForReason(stopBefore, full, outputs, Some(table)) && stopBefore(i)
    requires AllClosedInTime(full, outputs, Some(table)) && TablesNonEmpty(outputs, Some(table))
    ensures CutForReason(stopBefore, full, outputs + [table], None)
    ensures AllClosedInTime(full, outputs + [table], None) && TablesNonEmpty(outputs + [table], None)
  {
  }

  lemma NoTables(stopBefore: nat -> bool, full: seq<Entry> -> bool)
    ensures CutForReason(stopBefore, full, [], None) && AllClosedInTime(full, [], None) && TablesNonEmpty([], None)
  {
  }

  /** No table is empty or larger than it has to be. Without stops all but the last are large enough,
      and with a stop before every entry each has one. */
  ghost predicate WellCut(stopBefore: nat -> bool, full: seq<Entry> -> bool, outputs: seq<seq<Entry>>) {
    && (forall table | table in outputs :: table != [] && ClosedInTime(full, table))
    && ((forall i :: !stopBefore(i)) ==> forall k | 0 <= k < |outputs| - 1 :: full(outputs[k]))
    && ((forall i :: stopBefore(i)) ==> forall k | 0 <= k < |outputs| :: |outputs[k]| == 1)
  }

  /** What the finished list of tables is like. */
  lemma TablesAtEnd(stopBefore: nat -> bool, full: seq<Entry> -> bool, outputs: seq<seq<Entry>>, builder: Option<seq<Entry>>)
    requires CutForReason(stopBefore, full, outputs, builder) && TablesNonEmpty(outputs, builder) && AllClosedInTime(full, outputs, builder)
    ensures WellCut(stopBefore, full, outputs + (if builder.Some? then [builder.value] else []))
  {
  }

  /** Opens an output table if none is open, adds the entry, closes the table when it is full. */
  method AddToOutput(outputs: seq<seq<Entry>>, builder: Option<seq<Entry>>, e: Entry, ghost stopBefore: nat -> bool, full: seq<Entry> -> bool)
    returns (outputs': seq<seq<Entry>>, builder': Option<seq<Entry>>)
    requires TablesNonEmpty(outputs, builder) && AllClosedInTime(full, outputs, builder)
    requires CutForReason(stopBefore, full, outputs, builder) && ((forall j :: stopBefore(j)) ==> builder.None?)
    ensures TablesNonEmpty(outputs', builder') && AllClosedInTime(full, outputs', builder')
    ensures CutForReason(stopBefore, full, outputs', builder')
    ensures Written(outputs', builder') == Written(outputs, builder) + [e]
  {
    var table := if builder.Some? then builder.value + [e] else [e];
    OneMore(full, if builder.Some? then builder.value else [], e);
    assert [] + [e] == [e];
    assert Written(outputs, Some(table)) == Written(outputs, builder) + [e];
    if full(table) {
      FinishTable(outputs, table);
      outputs', builder' := outputs + [table], None;
    } else {
      outputs', builder' := outputs, Some(table);
    }
  }

  /** The loop of DoCompactionWork. `stopBefore(i)` is ShouldStopBefore at the i-th
      input entry and `full` says when a table under construction is large enough. */
  method DoCompactionWork(cmp: Comparator, input: seq<Entry>, smallest: nat, base: Bytes -> bool,
                          stopBefore: nat -> bool, full: seq<Entry> -> bool)
    returns (outputs: seq<seq<Entry>>)
    requires Sorted(cmp, input)
    requires forall e | e in input :: e.seqno <= MAX_SEQUENCE
    ensures smallest < MAX_SEQUENCE ==> Flatten(outputs) == Survivors(cmp, input, smallest, base, |input|)
    // a snapshot at the sentinel would make the loop take every first entry for hidden
    ensures MAX_SEQUENCE <= smallest ==> outputs == []
    ensures WellCut(stopBefore, full, outputs)
  {
    hide CutForReason, AllClosedInTime, WellCut, TablesNonEmpty;
    outputs := [];
    NoTables(stopBefore, full);
    var builder: Option<seq<Entry>> := None;
    var currentUserKey: Option<Bytes> := None;
    var lastSequenceForKey := MAX_SEQUENCE;
    for i := 0 to |input|
      invariant MAX_SEQUENCE <= smallest ==> outputs == [] && builder.None?
      invariant smallest < MAX_SEQUENCE ==>
                Written(outputs, builder) == Survivors(cmp, input, smallest, base, i)
      invariant TablesNonEmpty(outputs, builder) && AllClosedInTime(full, outputs, builder)
      invariant CutForReason(stopBefore, full, outputs, builder)
      invariant currentUserKey.Some? <==> 0 < i
      invariant 0 < i ==> Same(cmp, currentUserKey.value, input[i - 1].key)
      invariant 0 < i ==> lastSequenceForKey == input[i - 1].seqno
    {
      var e := input[i];
      if stopBefore(i) && builder.Some? {
        FinishTable(outputs, builder.value);
        StopFinishes(stopBefore, i, full, outputs, builder.value);
        outputs, builder := outputs + [builder.value], None;
      }
      if 0 < i {
        SameAsCurrent(cmp, currentUserKey.value, input[i - 1].key, e.key);
      }
      if currentUserKey.None? || cmp(e.key, currentUserKey.value) != 0 {
        currentUserKey := Some(e.key);
        lastSequenceForKey := MAX_SEQUENCE;
        SameIsEquivalence(cmp, e.key, e.key, e.key);
      }
      assert lastSequenceForKey == LastSequence(cmp, input, i);
      var drop := false;
      if lastSequenceForKey <= smallest {
        drop := true;
      } else if e.kind.Deletion? && e.seqno <= smallest && base(e.key) {
        drop := true;
      }
      RuleAIsAdjacent(cmp, input, smallest, i);
      lastSequenceForKey := e.seqno;
      if !drop {
        outputs, builder := AddToOutput(outputs, builder, e, stopBefore, full);
      }
    }
    TablesAtEnd(stopBefore, full, outputs, builder);
    assert outputs + [] == outputs;
    if builder.Some? {
      FinishTable(outputs, builder.value);
      outputs := outputs + [builder.value];
    }
  }
}
