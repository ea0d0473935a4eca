/** What rewriting and replacing come to, stated without following the code: laws of rewrite
    strings, and the result of GlobalReplace for matchers whose matches are known. */
module ReplaceLaws {
  import opened GlobalReplace
  import opened Lists
  import opened Store

  // ----- rewrite strings

  /** A rewrite string is rewritten part by part. */
  lemma {:induction false} RewrittenConcat(a: Bytes, b: Bytes, past: Byte, text: Bytes, m: Match)
    requires (forall g | g in m :: GroupIn(g, text)) && WellFormed(a, |m|)
    ensures Rewritten(a + b, past, text, m) == Rewritten(a, past, text, m) + Rewritten(b, past, text, m)
    decreases |a|
  {
    if a == [] {
      assert a + b == b;
    } else {
      var ab := a + b;
      if a[0] != BACKSLASH {
        assert ab[1..] == a[1..] + b;
        RewrittenConcat(a[1..], b, past, text, m);
        Associative([a[0]], Rewritten(a[1..], past, text, m), Rewritten(b, past, text, m));
      } else {
        assert ab[1] == a[1] && ab[2..] == a[2..] + b;
        RewrittenConcat(a[2..], b, past, text, m);
        var first := if a[1] == BACKSLASH then [BACKSLASH] else GroupText(text, m, a[1] - 48);
        Associative(first, Rewritten(a[2..], past, text, m), Rewritten(b, past, text, m));
      }
    }
  }

  /** Backslash and digit k stand for the text of group k, or for nothing if it is not set. */
  lemma GroupReference(a: Bytes, k: nat, b: Bytes, past: Byte, text: Bytes, m: Match)
    requires (forall g | g in m :: GroupIn(g, text)) && WellFormed(a, |m|) && k < 10 && k < |m|
    ensures GroupIn(m[k], text)
    ensures Rewritten(a + [92, 48 + k] + b, past, text, m)
         == Rewritten(a, past, text, m) + (if m[k].Range? then text[m[k].from..m[k].to] else []) + Rewritten(b, past, text, m)
  {
    var r := [BACKSLASH, 48 + k];
    assert m[k] in m;
    ReferenceAlone(k, past, text, m);
    hide Rewritten, WellFormed;
    Associative(a, r, b);
    RewrittenConcat(a, r + b, past, text, m);
    RewrittenConcat(r, b, past, text, m);
    Associative(Rewritten(a, past, text, m), Rewritten(r, past, text, m), Rewritten(b, past, text, m));
  }

  lemma ReferenceAlone(k: nat, past: Byte, text: Bytes, m: Match)
    requires (forall g | g in m :: GroupIn(g, text)) && k < 10 && k < |m| && GroupIn(m[k], text)
    ensures WellFormed([92, 48 + k], |m|)
    ensures Rewritten([92, 48 + k], past, text, m) == if m[k].Range? then text[m[k].from..m[k].to] else []
  {
    var r := [BACKSLASH, 48 + k];
    assert r[2..] == [];
    assert Rewritten(r, past, text, m) == GroupText(text, m, k) + [];
  }

  /** Two backslashes stand for one. */
  lemma DoubledBackslash(a: Bytes, b: Bytes, past: Byte, text: Bytes, m: Match)
    requires (forall g | g in m :: GroupIn(g, text)) && WellFormed(a, |m|)
    ensures Rewritten(a + [92, 92] + b, past, text, m) == Rewritten(a, past, text, m) + [92] + Rewritten(b, past, text, m)
  {
    var r := [BACKSLASH, BACKSLASH];
    assert r[2..] == [] && Rewritten(r, past, text, m) == [BACKSLASH] + [];
    assert WellFormed(r, |m|);
    Associative(a, r, b);
    RewrittenConcat(a, r + b, past, text, m);
    RewrittenConcat(r, b, past, text, m);
    Associative(Rewritten(a, past, text, m), [BACKSLASH], Rewritten(b, past, text, m));
  }

  /** A reference to a group that the pattern does not have, or a backslash before anything else,
      ends the rewriting. */
  lemma BadEscape(a: Bytes, c: Byte, b: Bytes, past: Byte, text: Bytes, m: Match)
    requires (forall g | g in m :: GroupIn(g, text)) && WellFormed(a, |m|) && c != 92 && (48 <= c <= 57 ==> |m| <= c - 48)
    ensures Rewritten(a + [92, c] + b, past, text, m) == Rewritten(a, past, text, m)
  {
    var r := [BACKSLASH, c] + b;
    Associative(a, [BACKSLASH, c], b);
    RewrittenConcat(a, r, past, text, m);
    assert Rewritten(r, past, text, m) == [];
  }

  // ----- one character on

  /** Where the character at `start` ends: one byte on, or two for CR LF as a line end, and in UTF-8
      past all continuation bytes. */
  lemma AdvanceExactly(text: Bytes, start: nat, o: Options, next: nat)
    requires start <= |text|
    ensures var width := if start + 1 < |text| && text[start..start + 2] == [13, 10] && o.crlf then 2 else 1;
            next == Advance(text, start, o) <==>
              if !o.utf8 then next == start + width
              else
                && start + width <= next <= (if start + width <= |text| then |text| else start + width)
                && (forall i | start + width <= i < next && i < |text| :: 128 <= text[i] < 192)
                && (next < |text| ==> !(128 <= text[next] < 192))
  {
    if start + 1 < |text| {
      assert text[start..start + 2] == [text[start], text[start + 1]];
    }
    var p := if start + 1 < |text| && text[start] == CR && text[start + 1] == LF && o.crlf then start + 2 else start + 1;
    if o.utf8 && p < |text| {
      var q := SkipContinuation(text, p);
      assert next < q && p <= next ==> Continuation(text[next]);
      assert q < next <= |text| ==> !Continuation(text[q]);
    }
  }

  // ----- a pattern that is one byte

  function FindByte(c: Byte, text: Bytes, start: nat): (r: Option<nat>)
    ensures r.Some? ==> start <= r.value < |text| && text[r.value] == c
    decreases |text| - start
  {
    if start >= |text| then None else if text[start] == c then Some(start) else FindByte(c, text, start + 1)
  }

  function ByteMatch(c: Byte, text: Bytes, start: nat, anchored: bool): Option<Match> {
    match FindByte(c, text, start)
    case None => None
    case Some(i) => if anchored && i != start then None else Some([Range(i, i + 1)])
  }

  function ByteMatcher(c: Byte): (f: Matcher) {
    var f := (text: Bytes, start: nat, anchored: bool, notEmpty: bool) => ByteMatch(c, text, start, anchored);
    assert forall text, start, anchored, notEmpty :: RespectsAt(f, text, start, anchored, notEmpty);
    f
  }

  /** The text with every c replaced by r. */
  function Substituted(text: Bytes, c: Byte, r: Bytes): Bytes {
    if text == [] then [] else (if text[0] == c then r else [text[0]]) + Substituted(text[1..], c, r)
  }

  function Occurrences(text: Bytes, c: Byte): nat {
    if text == [] then 0 else (if text[0] == c then 1 else 0) + Occurrences(text[1..], c)
  }

  lemma {:induction false} ByteMatches(c: Byte, o: Options, r: Bytes, past: Byte, text: Bytes, start: nat)
    requires start <= |text| && BACKSLASH !in r
    ensures var ms := Matches(ByteMatcher(c), o, text, start, false);
            && InOrder(text, start, ms) && |ms| == Occurrences(text[start..], c)
            && Spliced(r, past, text, start, ms) == Substituted(text[start..], c, r)
    decreases |text| - start
  {
    hide Matches, Spliced, Rewritten, WellFormed;
    var f := ByteMatcher(c);
    var ms := Matches(f, o, text, start, false);
    MatchesInOrder(f, o, text, start, false);
    MatchesStep(f, o, text, start, false);
    if start == |text| {
      assert text[start..] == [];
      SplicedEnd(r, past, text, start);
    } else {
      assert text[start..][1..] == text[start + 1..];
      ByteMatches(c, o, r, past, text, start + 1);
      var later := Matches(f, o, text, start + 1, false);
      if text[start] == c {
        SplicedHead(r, past, text, start, ms);
        LiteralRewrite(r, past, text, ms[0]);
        assert text[start..start] == [] && [] + r == r;
      } else {
        MatchesStep(f, o, text, start + 1, false);
        assert ms == later;
        SplicedLater(r, past, text, start, start + 1, ms);
        assert text[start..start + 1] == [text[start]];
      }
    }
  }

  /** GlobalReplace of a byte by a literal string replaces every occurrence and nothing else, and
      counts them. */
  method ReplaceByte(c: Byte, o: Options, r: Bytes, past: Byte, text: Bytes) returns (result: Bytes, count: nat)
    requires BACKSLASH !in r
    ensures result == Substituted(text, c, r) && count == Occurrences(text, c)
  {
    hide Matches, Spliced;
    ByteMatches(c, o, r, past, text, 0);
    assert text[0..] == text;
    result, count := Replace(ByteMatcher(c), o, r, past, text);
  }

  // ----- the empty pattern

  function EmptyMatcher(): (f: Matcher) {
    var f := (text: Bytes, start: nat, anchored: bool, notEmpty: bool) => if notEmpty then None else Some([Range(start, start)]);
    assert forall text, start, anchored, notEmpty :: RespectsAt(f, text, start, anchored, notEmpty);
    f
  }

  /** r before every byte and at the end. */
  function Interleaved(text: Bytes, r: Bytes): Bytes {
    if text == [] then r else r + [text[0]] + Interleaved(text[1..], r)
  }

  const PLAIN := Options(false, false)

  lemma {:induction false} EmptyMatches(r: Bytes, past: Byte, text: Bytes, start: nat)
    requires start <= |text| && BACKSLASH !in r
    ensures var ms := Matches(EmptyMatcher(), PLAIN, text, start, false);
            && InOrder(text, start, ms) && |ms| == |text| - start + 1
            && Spliced(r, past, text, start, ms) == Interleaved(text[start..], r)
    decreases |text| - start
  {
    hide Matches, Spliced, Rewritten, WellFormed;
    var f := EmptyMatcher();
    var ms := Matches(f, PLAIN, text, start, false);
    MatchesInOrder(f, PLAIN, text, start, false);
    MatchesStep(f, PLAIN, text, start, false);
    MatchesStep(f, PLAIN, text, start, true);
    SplicedHead(r, past, text, start, ms);
    LiteralRewrite(r, past, text, ms[0]);
    assert text[start..start] == [] && [] + r == r;
    var later := Matches(f, PLAIN, text, start + 1, false);
    assert Advance(text, start, PLAIN) == start + 1 && ms[1..] == later;
    MatchesInOrder(f, PLAIN, text, start + 1, false);
    SplicedLater(r, past, text, start, start + 1, later);
    if start == |text| {
      assert text[start..] == [] && r + [] == r;
    } else {
      assert text[start..][1..] == text[start + 1..] && text[start..start + 1] == [text[start]];
      EmptyMatches(r, past, text, start + 1);
      Associative(r, [text[start]], Interleaved(text[start + 1..], r));
    }
  }

  /** GlobalReplace of the empty pattern puts the string before every byte and at the end. */
  method ReplaceEmpty(r: Bytes, past: Byte, text: Bytes) returns (result: Bytes, count: nat)
    requires BACKSLASH !in r
    ensures result == Interleaved(text, r) && count == |text| + 1
  {
    hide Matches, Spliced;
    EmptyMatches(r, past, text, 0);
    assert text[0..] == text;
    result, count := Replace(EmptyMatcher(), PLAIN, r, past, text);
  }
}
