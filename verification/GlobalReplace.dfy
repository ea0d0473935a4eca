/** pcrecpp's RE::GlobalReplace over any matcher that respects its flags. */
module GlobalReplace {
  import opened Lists
  import opened Store

  const BACKSLASH: Byte := 92
  const CR: Byte := 13
  const LF: Byte := 10

  /** A captured group: where it lies in the text, or not set. */
  datatype Group = Unset | Range(from: nat, to: nat)

  /** A match: the groups of the output vector, the whole match first. */
  type Match = seq<Group>

  predicate GroupIn(g: Group, text: Bytes) {
    g.Range? ==> g.from <= g.to <= |text|
  }

  predicate MatchIn(m: Match, text: Bytes, start: nat) {
    m != [] && m[0].Range? && start <= m[0].from && forall g | g in m :: GroupIn(g, text)
  }

  /** What the flags promise: matches lie in the text at or after the start, at the start if
      anchored, and are not empty if that is asked for. */
  ghost predicate RespectsAt(f: (Bytes, nat, bool, bool) -> Option<Match>, text: Bytes, start: nat, anchored: bool, notEmpty: bool) {
    start <= |text| && f(text, start, anchored, notEmpty).Some? ==>
      var m := f(text, start, anchored, notEmpty).value;
      MatchIn(m, text, start) && (anchored ==> m[0].from == start) && (notEmpty ==> m[0].from < m[0].to)
  }

  ghost predicate Respects(f: (Bytes, nat, bool, bool) -> Option<Match>) {
    forall text, start, anchored, notEmpty {:trigger RespectsAt(f, text, start, anchored, notEmpty)} ::
      RespectsAt(f, text, start, anchored, notEmpty)
  }

  /** TryMatch with PCRE_ANCHORED and PCRE_NOTEMPTY as options. */
  type Matcher = f: (Bytes, nat, bool, bool) -> Option<Match> | Respects(f)
    ghost witness (text: Bytes, start: nat, anchored: bool, notEmpty: bool) => None

  lemma MatcherLaw(f: Matcher, text: Bytes, start: nat, anchored: bool, notEmpty: bool)
    requires start <= |text| && f(text, start, anchored, notEmpty).Some?
    ensures var m := f(text, start, anchored, notEmpty).value;
            && MatchIn(m, text, start) && m[0].from <= m[0].to <= |text|
            && (anchored ==> m[0].from == start) && (notEmpty ==> m[0].from < m[0].to)
  {
    assert RespectsAt(f, text, start, anchored, notEmpty);
    assert GroupIn(f(text, start, anchored, notEmpty).value[0], text);
  }

  // ----- Rewrite

  function IsDigit(b: Byte): bool {
    48 <= b <= 57
  }

  function GroupText(text: Bytes, m: Match, n: nat): Bytes
    requires n < |m| && GroupIn(m[n], text)
  {
    if m[n].Range? then text[m[n].from..m[n].to] else []
  }

  /** What Rewrite appends, up to the first error if there is one. `past` is the byte after the
      end of the rewrite string, which a backslash at its end makes Rewrite look at. */
  function Rewritten(rewrite: Bytes, past: Byte, text: Bytes, m: Match): Bytes
    requires forall g | g in m :: GroupIn(g, text)
    decreases |rewrite|
  {
    if rewrite == [] then []
    else if rewrite[0] != BACKSLASH then [rewrite[0]] + Rewritten(rewrite[1..], past, text, m)
    else
      var c := if |rewrite| > 1 then rewrite[1] else past;
      var rest := if |rewrite| > 1 then rewrite[2..] else [];
      if IsDigit(c) then
        var n := c - 48;
        if n >= |m| then [] else GroupText(text, m, n) + Rewritten(rest, past, text, m)
      else if c == BACKSLASH then [BACKSLASH] + Rewritten(rest, past, text, m)
      else []
  }

  /** What may follow a backslash. */
  predicate Escapable(c: Byte, groups: nat) {
    c == BACKSLASH || (IsDigit(c) && c - 48 < groups)
  }

  /** Every backslash is followed by another or by the number of a group. */
  predicate WellFormed(rewrite: Bytes, groups: nat) {
    rewrite == [] ||
    (if rewrite[0] != BACKSLASH then WellFormed(rewrite[1..], groups)
     else |rewrite| > 1 && Escapable(rewrite[1], groups) && WellFormed(rewrite[2..], groups))
  }

  /** Well formed but for a lone backslash at the end. */
  predicate Dangling(rewrite: Bytes, groups: nat) {
    rewrite != [] && rewrite[|rewrite| - 1] == BACKSLASH && WellFormed(rewrite[..|rewrite| - 1], groups)
  }

  lemma DanglingLonger(rewrite: Bytes, groups: nat)
    requires |rewrite| > 1
    ensures rewrite[0] != BACKSLASH ==> (Dangling(rewrite, groups) <==> Dangling(rewrite[1..], groups))
    ensures rewrite[0] == BACKSLASH ==> (Dangling(rewrite, groups) <==> Escapable(rewrite[1], groups) && Dangling(rewrite[2..], groups))
  {
    var front := rewrite[..|rewrite| - 1];
    assert rewrite[1..][..|rewrite| - 2] == front[1..];
    if |rewrite| > 2 {
      assert rewrite[2..][..|rewrite| - 3] == front[2..];
    }
  }

  /** A rewrite string does not look past its end, unless it has such a backslash. */
  lemma {:induction false} PastIsIgnored(rewrite: Bytes, past: Byte, past': Byte, text: Bytes, m: Match)
    requires (forall g | g in m :: GroupIn(g, text)) && !Dangling(rewrite, |m|)
    ensures Rewritten(rewrite, past, text, m) == Rewritten(rewrite, past', text, m)
    decreases |rewrite|
  {
    if |rewrite| > 1 {
      DanglingLonger(rewrite, |m|);
      if rewrite[0] != BACKSLASH {
        PastIsIgnored(rewrite[1..], past, past', text, m);
      } else if Escapable(rewrite[1], |m|) {
        PastIsIgnored(rewrite[2..], past, past', text, m);
      }
    }
  }

  /** With such a backslash, what is appended depends on the byte after the end. */
  lemma {:induction false} PastMatters(rewrite: Bytes, text: Bytes, m: Match)
    requires (forall g | g in m :: GroupIn(g, text)) && Dangling(rewrite, |m|)
    ensures Rewritten(rewrite, BACKSLASH, text, m) == Rewritten(rewrite, 0, text, m) + [BACKSLASH]
    decreases |rewrite|
  {
    if |rewrite| > 1 {
      DanglingLonger(rewrite, |m|);
      if rewrite[0] != BACKSLASH {
        PastMatters(rewrite[1..], text, m);
      } else {
        PastMatters(rewrite[2..], text, m);
        var rest := Rewritten(rewrite[2..], 0, text, m);
        if IsDigit(rewrite[1]) {
          Associative(GroupText(text, m, rewrite[1] - 48), rest, [BACKSLASH]);
        } else {
          Associative([BACKSLASH], rest, [BACKSLASH]);
        }
      }
    } else {
      assert rewrite == [BACKSLASH];
    }
  }

  /** When Rewrite succeeds. */
  predicate Accepted(rewrite: Bytes, past: Byte, groups: nat) {
    WellFormed(rewrite, groups) || (Dangling(rewrite, groups) && Escapable(past, groups))
  }

  lemma AcceptedStep(rewrite: Bytes, past: Byte, groups: nat)
    requires rewrite != []
    ensures Accepted(rewrite, past, groups) <==>
              if rewrite[0] != BACKSLASH then Accepted(rewrite[1..], past, groups)
              else if |rewrite| == 1 then Escapable(past, groups)
              else Escapable(rewrite[1], groups) && Accepted(rewrite[2..], past, groups)
  {
    if |rewrite| > 1 {
      DanglingLonger(rewrite, groups);
    }
  }

  lemma NothingAccepted(past: Byte, groups: nat)
    ensures Accepted([], past, groups)
  {
  }

  method Rewrite(out: Bytes, rewrite: Bytes, past: Byte, text: Bytes, m: Match) returns (out': Bytes, ok: bool)
    requires forall g | g in m :: GroupIn(g, text)
    ensures out' == out + Rewritten(rewrite, past, text, m)
    ensures ok <==> Accepted(rewrite, past, |m|)
  {
    hide Accepted;
    out' := out;
    var s := 0;
    assert rewrite[0..] == rewrite;
    NothingAccepted(past, |m|);
    while s < |rewrite|
      invariant 0 <= s
      invariant s <= |rewrite| ==> out' + Rewritten(rewrite[s..], past, text, m) == out + Rewritten(rewrite, past, text, m)
      invariant s > |rewrite| ==> out' == out + Rewritten(rewrite, past, text, m)
      invariant s <= |rewrite| ==> (Accepted(rewrite, past, |m|) <==> Accepted(rewrite[s..], past, |m|))
      invariant s > |rewrite| ==> Accepted(rewrite, past, |m|)
      decreases |rewrite| - s
    {
      ghost var tail := rewrite[s..];
      AcceptedStep(tail, past, |m|);
      var c := rewrite[s];
      if c == BACKSLASH {
        s := s + 1;
        c := if s < |rewrite| then rewrite[s] else past;
        assert s < |rewrite| ==> tail[2..] == rewrite[s + 1..];
        if IsDigit(c) {
          var n := c - 48;
          if n >= |m| {
            return out', false;
          }
          assert GroupIn(m[n], text);
          Associative(out', GroupText(text, m, n), Rewritten(if |tail| > 1 then tail[2..] else [], past, text, m));
          if m[n].Range? {
            out' := out' + text[m[n].from..m[n].to];
          }
        } else if c == BACKSLASH {
          Associative(out', [BACKSLASH], Rewritten(if |tail| > 1 then tail[2..] else [], past, text, m));
          out' := out' + [BACKSLASH];
        } else {
          return out', false;
        }
      } else {
        assert tail[1..] == rewrite[s + 1..];
        Associative(out', [c], Rewritten(tail[1..], past, text, m));
        out' := out' + [c];
      }
      s := s + 1;
    }
    return out', true;
  }

  /** A rewrite string without backslashes is copied as it is. */
  lemma {:induction false} LiteralRewrite(rewrite: Bytes, past: Byte, text: Bytes, m: Match)
    requires BACKSLASH !in rewrite && forall g | g in m :: GroupIn(g, text)
    ensures Rewritten(rewrite, past, text, m) == rewrite && WellFormed(rewrite, |m|)
  {
    if rewrite != [] {
      LiteralRewrite(rewrite[1..], past, text, m);
      assert rewrite == [rewrite[0]] + rewrite[1..];
    }
  }

  // ----- where the matches are

  datatype Options = Options(crlf: bool, utf8: bool)

  predicate Continuation(b: Byte) {
    128 <= b < 192
  }

  function SkipContinuation(text: Bytes, p: nat): (q: nat)
    requires p <= |text|
    ensures p <= q <= |text| && (q < |text| ==> !Continuation(text[q]))
    ensures forall i | p <= i < q :: Continuation(text[i])
    decreases |text| - p
  {
    if p < |text| && Continuation(text[p]) then SkipContinuation(text, p + 1) else p
  }

  /** One character on: CR LF counts as one where both end a line, and so does a character of
      several bytes. */
  function Advance(text: Bytes, start: nat, o: Options): (next: nat)
    requires start <= |text|
    ensures start < next <= |text| + 1 && (start < |text| ==> next <= |text|)
    ensures o.utf8 && next < |text| ==> !Continuation(text[next])
  {
    var p := if start + 1 < |text| && text[start] == CR && text[start + 1] == LF && o.crlf then start + 2 else start + 1;
    if o.utf8 && p < |text| then SkipContinuation(text, p) else p
  }

  /** The successive matches from `start` on. After an empty match the next one must not be
      empty and must be at the same place; if there is none the search goes on one character
      further. */
  function Matches(f: Matcher, o: Options, text: Bytes, start: nat, afterEmpty: bool): seq<Match>
    decreases |text| + 1 - start, if afterEmpty then 0 else 1
  {
    if start > |text| then []
    else
      match f(text, start, afterEmpty, afterEmpty)
      case Some(m) =>
        MatcherLaw(f, text, start, afterEmpty, afterEmpty);
        [m] + Matches(f, o, text, m[0].to, m[0].from == m[0].to)
      case None => if afterEmpty then Matches(f, o, text, Advance(text, start, o), false) else []
  }

  /** Matches lie in the text, one after the other. */
  predicate InOrder(text: Bytes, from: nat, ms: seq<Match>)
    decreases ms
  {
    ms == [] || (MatchIn(ms[0], text, from) && InOrder(text, ms[0][0].to, ms[1..]))
  }

  lemma {:induction false} MatchesInOrder(f: Matcher, o: Options, text: Bytes, start: nat, afterEmpty: bool)
    ensures InOrder(text, start, Matches(f, o, text, start, afterEmpty))
    decreases |text| + 1 - start, if afterEmpty then 0 else 1
  {
    if start <= |text| {
      var r := f(text, start, afterEmpty, afterEmpty);
      if r.Some? {
        MatcherLaw(f, text, start, afterEmpty, afterEmpty);
        var m := r.value;
        MatchesInOrder(f, o, text, m[0].to, m[0].from == m[0].to);
        assert Matches(f, o, text, start, afterEmpty)[1..] == Matches(f, o, text, m[0].to, m[0].from == m[0].to);
      } else if afterEmpty {
        MatchesInOrder(f, o, text, Advance(text, start, o), false);
        Earlier(text, Advance(text, start, o), start, Matches(f, o, text, Advance(text, start, o), false));
      }
    }
  }

  lemma Earlier(text: Bytes, from: nat, from': nat, ms: seq<Match>)
    requires InOrder(text, from, ms) && from' <= from
    ensures InOrder(text, from', ms)
  {
  }

  /** After an empty match the next one ends further on. */
  predicate Progress(from: nat, afterEmpty: bool, ms: seq<Match>)
    decreases ms
  {
    ms == [] ||
    (&& ms[0] != [] && ms[0][0].Range? && (afterEmpty ==> from < ms[0][0].to)
     && Progress(ms[0][0].to, ms[0][0].from == ms[0][0].to, ms[1..]))
  }

  /** The search never finds the same empty match twice. */
  lemma {:induction false} MatchesProgress(f: Matcher, o: Options, text: Bytes, start: nat, afterEmpty: bool)
    ensures Progress(start, afterEmpty, Matches(f, o, text, start, afterEmpty))
    decreases |text| + 1 - start, if afterEmpty then 0 else 1
  {
    if start <= |text| {
      MatchesStep(f, o, text, start, afterEmpty);
      var r := f(text, start, afterEmpty, afterEmpty);
      if r.Some? {
        MatcherLaw(f, text, start, afterEmpty, afterEmpty);
        MatchesProgress(f, o, text, r.value[0].to, r.value[0].from == r.value[0].to);
      } else if afterEmpty {
        var next := Advance(text, start, o);
        MatchesProgress(f, o, text, next, false);
        MatchesInOrder(f, o, text, next, false);
        FurtherOn(text, start, next, Matches(f, o, text, next, false));
      }
    }
  }

  lemma FurtherOn(text: Bytes, from: nat, next: nat, ms: seq<Match>)
    requires from < next && InOrder(text, next, ms) && Progress(next, false, ms)
    ensures Progress(from, true, ms)
  {
    if ms != [] {
      assert GroupIn(ms[0][0], text);
    }
  }

  // ----- the result

  function Tail(text: Bytes, from: nat): Bytes {
    if from <= |text| then text[from..] else []
  }

  /** The text from `from` on, with each match replaced by its rewrite and everything else as
      it was. */
  function Spliced(rewrite: Bytes, past: Byte, text: Bytes, from: nat, ms: seq<Match>): Bytes
    requires InOrder(text, from, ms)
    decreases ms
  {
    if ms == [] then Tail(text, from)
    else
      assert GroupIn(ms[0][0], text);
      text[from..ms[0][0].from] + Rewritten(rewrite, past, text, ms[0]) + Spliced(rewrite, past, text, ms[0][0].to, ms[1..])
  }

  lemma SplicedLater(rewrite: Bytes, past: Byte, text: Bytes, from: nat, next: nat, ms: seq<Match>)
    requires InOrder(text, next, ms) && from <= next
    ensures InOrder(text, from, ms)
    ensures next <= |text| ==> Spliced(rewrite, past, text, from, ms) == text[from..next] + Spliced(rewrite, past, text, next, ms)
    ensures |text| < next && from <= |text| ==> ms == [] && Spliced(rewrite, past, text, from, ms) == text[from..] && Spliced(rewrite, past, text, next, ms) == []
  {
    Earlier(text, next, from, ms);
    if ms != [] {
      assert GroupIn(ms[0][0], text);
      assert text[from..ms[0][0].from] == text[from..next] + text[next..ms[0][0].from];
    } else if next <= |text| {
      assert text[from..] == text[from..next] + text[next..];
    }
  }

  lemma SplicedHead(rewrite: Bytes, past: Byte, text: Bytes, from: nat, ms: seq<Match>)
    requires ms != [] && InOrder(text, from, ms)
    ensures from <= ms[0][0].from <= ms[0][0].to <= |text| && (forall g | g in ms[0] :: GroupIn(g, text)) && InOrder(text, ms[0][0].to, ms[1..])
    ensures Spliced(rewrite, past, text, from, ms)
         == text[from..ms[0][0].from] + Rewritten(rewrite, past, text, ms[0]) + Spliced(rewrite, past, text, ms[0][0].to, ms[1..])
  {
    assert GroupIn(ms[0][0], text);
  }

  lemma SplicedEnd(rewrite: Bytes, past: Byte, text: Bytes, from: nat)
    ensures Spliced(rewrite, past, text, from, []) == Tail(text, from)
  {
  }

  lemma Regroup(w: Bytes, x: Bytes, y: Bytes, z: Bytes)
    ensures w + (x + y + z) == (w + x) + y + z
  {
  }

  lemma NoMatchesPast(f: Matcher, o: Options, text: Bytes, start: nat, afterEmpty: bool)
    requires |text| < start
    ensures Matches(f, o, text, start, afterEmpty) == []
  {
  }

  lemma MatchesStep(f: Matcher, o: Options, text: Bytes, start: nat, afterEmpty: bool)
    requires start <= |text|
    ensures var ms, r := Matches(f, o, text, start, afterEmpty), f(text, start, afterEmpty, afterEmpty);
            if r.Some? then
              && ms != [] && ms[0] == r.value && r.value != [] && r.value[0].Range?
              && ms[1..] == Matches(f, o, text, r.value[0].to, r.value[0].from == r.value[0].to)
            else ms == if afterEmpty then Matches(f, o, text, Advance(text, start, o), false) else []
  {
    if f(text, start, afterEmpty, afterEmpty).Some? {
      MatcherLaw(f, text, start, afterEmpty, afterEmpty);
    }
  }

  /** The end of Advance's character, by the loops of the source. */
  method MatchEnd(text: Bytes, start: nat, o: Options) returns (matchend: nat)
    requires start <= |text|
    ensures matchend == Advance(text, start, o)
  {
    matchend := start + 1;
    if matchend < |text| && text[start] == CR && text[matchend] == LF && o.crlf {
      matchend := matchend + 1;
    }
    if o.utf8 {
      ghost var p := matchend;
      while matchend < |text| && Continuation(text[matchend])
        invariant p <= matchend
        invariant p <= |text| ==> matchend <= |text| && SkipContinuation(text, p) == SkipContinuation(text, matchend)
        invariant p > |text| ==> matchend == p
        decreases |text| - matchend
      {
        matchend := matchend + 1;
      }
    }
  }

  /** GlobalReplace: ends for every matcher, and returns the text with its successive matches
      rewritten, and how many there were. */
  method Replace(f: Matcher, o: Options, rewrite: Bytes, past: Byte, text: Bytes) returns (result: Bytes, count: nat)
    ensures var ms := Matches(f, o, text, 0, false);
            InOrder(text, 0, ms) && count == |ms| && result == Spliced(rewrite, past, text, 0, ms)
  {
    hide Matches, Rewritten, Spliced;
    ghost var all := Matches(f, o, text, 0, false);
    MatchesInOrder(f, o, text, 0, false);
    var out, start, lastWasEmpty := [], 0, false;
    count := 0;
    ghost var ms := all;
    while start <= |text|
      invariant 0 <= start && ms == Matches(f, o, text, start, lastWasEmpty) && InOrder(text, start, ms) && count + |ms| == |all|
      invariant out + Spliced(rewrite, past, text, start, ms) == Spliced(rewrite, past, text, 0, all)
      invariant count == 0 ==> all == ms && start == 0 && !lastWasEmpty
      decreases |text| + 1 - start, if lastWasEmpty then 0 else 1
    {
      var matches := f(text, start, lastWasEmpty, lastWasEmpty);
      MatchesStep(f, o, text, start, lastWasEmpty);
      if lastWasEmpty && matches.None? {
        var matchend := MatchEnd(text, start, o);
        MatchesInOrder(f, o, text, matchend, false);
        SplicedLater(rewrite, past, text, start, matchend, ms);
        if start < |text| {
          Associative(out, text[start..matchend], Spliced(rewrite, past, text, matchend, ms));
          out := out + text[start..matchend];
        } else {
          assert text[start..] == [];
        }
        start, lastWasEmpty := matchend, false;
      } else if matches.None? {
        break;
      } else {
        MatcherLaw(f, text, start, lastWasEmpty, lastWasEmpty);
        var m := matches.value;
        var matchstart, matchend := m[0].from, m[0].to;
        SplicedHead(rewrite, past, text, start, ms);
        var out1, _ := Rewrite(out + text[start..matchstart], rewrite, past, text, m);
        Regroup(out, text[start..matchstart], Rewritten(rewrite, past, text, m), Spliced(rewrite, past, text, matchend, ms[1..]));
        out, start, count, lastWasEmpty := out1, matchend, count + 1, matchstart == matchend;
        ms := ms[1..];
        MatchesInOrder(f, o, text, start, lastWasEmpty);
      }
    }
    if start > |text| {
      NoMatchesPast(f, o, text, start, lastWasEmpty);
    }
    SplicedEnd(rewrite, past, text, start);
    if count == 0 {
      assert text[0..] == text;
      return text, 0;
    }
    if start < |text| {
      out := out + text[start..];
    }
    result := out;
  }
}
