/** DBIter: a cursor over the user-visible keys at a snapshot, moving in both directions
    over an internal iterator that also shows overwritten, deleted and too-new entries. */
module DbIter {
  import opened Store

  datatype Direction = Forward | Reverse

  /** An internal iterator's contents, and the snapshot to read at. */
  datatype Source = Source(cmp: Comparator, entries: seq<Entry>, sequence: nat) {

    ghost predicate Valid() {
      Sorted(cmp, entries)
    }

    ghost predicate Visible(i: int) {
      0 <= i < |entries| && entries[i].seqno <= sequence
    }

    /** The i-th entry is what a reader at the snapshot sees for its key. */
    ghost predicate LiveAt(i: int) {
      && 0 <= i < |entries|
      && entries[i] in View(cmp, ToSet(entries), sequence)
    }

    /** A visible entry for the same key comes before. */
    ghost predicate Shadowed(i: int) {
      0 <= i < |entries| && exists j :: 0 <= j < i && Visible(j) && Same(cmp, entries[j].key, entries[i].key)
    }

    lemma Order(i: int, j: int)
      requires Valid() && 0 <= i <= j < |entries|
      ensures cmp(entries[i].key, entries[j].key) <= 0
      ensures Same(cmp, entries[i].key, entries[j].key) ==> entries[j].seqno <= entries[i].seqno
      ensures i < j && Same(cmp, entries[i].key, entries[j].key) ==> entries[j].seqno < entries[i].seqno
    {
      SameIsEquivalence(cmp, entries[i].key, entries[i].key, entries[j].key);
      SameIsEquivalence(cmp, entries[i].key, entries[j].key, entries[i].key);
      if i < j {
        assert InternalBefore(cmp, entries[i], entries[j]);
      }
    }

    lemma LiveIff(i: int)
      requires Valid() && 0 <= i < |entries|
      ensures LiveAt(i) <==> Visible(i) && entries[i].kind.Value? && !Shadowed(i)
    {
      var es := ToSet(entries);
      if LiveAt(i) && Shadowed(i) {
        var j :| 0 <= j < i && Visible(j) && Same(cmp, entries[j].key, entries[i].key);
        Order(j, i);
        assert entries[j] in es && Hides(cmp, entries[j], entries[i], sequence);
        assert false;
      }
      if Visible(i) && entries[i].kind.Value? && !Shadowed(i) {
        forall newer | newer in es
          ensures !Hides(cmp, newer, entries[i], sequence)
        {
          var j :| 0 <= j < |entries| && entries[j] == newer;
          if i <= j && Hides(cmp, newer, entries[i], sequence) {
            SameIsEquivalence(cmp, newer.key, entries[i].key, newer.key);
            Order(i, j);
          }
        }
      }
    }

    // ----- the list the cursor moves over

    /** The live entries among the first n, in order. */
    ghost function Lives(n: nat): (r: seq<nat>)
      requires n <= |entries|
      ensures forall k | 0 <= k < |r| :: r[k] < n && LiveAt(r[k])
    {
      if n == 0 then [] else Lives(n - 1) + if LiveAt(n - 1) then [n - 1] else []
    }

    ghost function Total(): nat {
      |Lives(|entries|)|
    }

    lemma {:induction false} LivesGap(a: nat, b: nat)
      requires a <= b <= |entries| && forall i | a <= i < b :: !LiveAt(i)
      ensures Lives(b) == Lives(a)
    {
      if a < b {
        LivesGap(a, b - 1);
      }
    }

    lemma {:induction false} LivesPrefix(a: nat, b: nat)
      requires a <= b <= |entries|
      ensures |Lives(a)| <= |Lives(b)| && Lives(b)[..|Lives(a)|] == Lives(a)
    {
      if a < b {
        LivesPrefix(a, b - 1);
      }
    }

    /** A live entry's place in the list. */
    lemma LivesAt(i: nat)
      requires LiveAt(i)
      ensures |Lives(i)| < Total() && Lives(|entries|)[|Lives(i)|] == i
    {
      LivesPrefix(i + 1, |entries|);
      assert Lives(i + 1) == Lives(i) + [i];
    }

    /** The list is exactly the view at the snapshot, sorted by user key. */
    lemma ListIsView()
      requires Valid()
      ensures (set k: nat | k < Total() :: entries[Lives(|entries|)[k]]) == View(cmp, ToSet(entries), sequence)
      ensures forall k: nat, l: nat | k < l < Total() :: cmp(entries[Lives(|entries|)[k]].key, entries[Lives(|entries|)[l]].key) < 0
    {
      var list := set k: nat | k < Total() :: entries[Lives(|entries|)[k]];
      forall e | e in View(cmp, ToSet(entries), sequence)
        ensures e in list
      {
        var i :| 0 <= i < |entries| && entries[i] == e;
        LivesAt(i);
      }
      forall k: nat, l: nat | k < l < Total()
        ensures cmp(entries[Lives(|entries|)[k]].key, entries[Lives(|entries|)[l]].key) < 0
      {
        KeysAscend(k, l);
      }
    }

    lemma KeysAscend(k: nat, l: nat)
      requires Valid() && k < l < Total()
      ensures cmp(entries[Lives(|entries|)[k]].key, entries[Lives(|entries|)[l]].key) < 0
    {
      var a, b := Lives(|entries|)[k], Lives(|entries|)[l];
      LivesAscend(|entries|, k, l);
      Order(a, b);
      LiveIff(b);
      LiveIff(a);
    }

    lemma {:induction false} LivesAscend(n: nat, k: nat, l: nat)
      requires n <= |entries| && k < l < |Lives(n)|
      ensures Lives(n)[k] < Lives(n)[l]
    {
      if l < |Lives(n - 1)| {
        LivesAscend(n - 1, k, l);
      }
    }

    // ----- scanning forwards

    ghost predicate Past(skipping: bool, skip: Bytes, i: int)
      requires 0 <= i < |entries|
    {
      !skipping || cmp(entries[i].key, skip) > 0
    }

    ghost predicate ShadowedFrom(p: int, i: int)
      requires 0 <= i < |entries|
    {
      exists j :: 0 <= j < p && Visible(j) && Same(cmp, entries[j].key, entries[i].key)
    }

    /** With the scan at p: no visible entry ahead lies before the skipped key, and what an
        entry behind p hides is covered by the skipped key. */
    ghost predicate ScanOk(p: int, skipping: bool, skip: Bytes) {
      forall i {:trigger ScanAt(p, skipping, skip, i)} :: ScanAt(p, skipping, skip, i)
    }

    ghost predicate ScanAt(p: int, skipping: bool, skip: Bytes, i: int) {
      0 <= i < |entries| && p <= i && Visible(i) ==>
        && (skipping ==> cmp(entries[i].key, skip) >= 0)
        && (ShadowedFrom(p, i) ==> skipping && cmp(entries[i].key, skip) == 0)
    }

    /** What the scan will skip should be skipped: it is not past the key first asked to
        skip, or hidden by an entry behind p. */
    ghost predicate SkipOk(p: int, skipping: bool, skip: Bytes, skipping0: bool, skip0: Bytes) {
      && (skipping0 ==> skipping && cmp(skip0, skip) <= 0)
      && forall i {:trigger SkipAt(p, skipping, skip, skipping0, skip0, i)} :: SkipAt(p, skipping, skip, skipping0, skip0, i)
    }

    ghost predicate SkipAt(p: int, skipping: bool, skip: Bytes, skipping0: bool, skip0: Bytes, i: int) {
      0 <= i < |entries| && p <= i && Visible(i) && skipping && cmp(entries[i].key, skip) == 0 ==>
        !Past(skipping0, skip0, i) || ShadowedFrom(p, i)
    }

    /** No entry from lo up to hi is live and past the key to skip. */
    ghost predicate NoneLive(lo: int, hi: int, skipping: bool, skip: Bytes) {
      forall i | lo <= i < hi && 0 <= i < |entries| :: !(LiveAt(i) && Past(skipping, skip, i))
    }

    lemma ScanInvisible(p: int, skipping: bool, skip: Bytes, skipping0: bool, skip0: Bytes)
      requires !Visible(p) && ScanOk(p, skipping, skip) && SkipOk(p, skipping, skip, skipping0, skip0)
      ensures ScanOk(p + 1, skipping, skip) && SkipOk(p + 1, skipping, skip, skipping0, skip0)
    {
      var next := p + 1;
      forall i
        ensures ScanAt(next, skipping, skip, i)
      {
        assert ScanAt(p, skipping, skip, i);
      }
      forall i
        ensures SkipAt(next, skipping, skip, skipping0, skip0, i)
      {
        assert SkipAt(p, skipping, skip, skipping0, skip0, i);
      }
    }

    /** Past a visible entry that is not yielded, its key is the one to skip. */
    lemma ScanHidden(p: int, skipping: bool, skip: Bytes, skip': Bytes, skipping0: bool, skip0: Bytes)
      requires Valid() && Visible(p) && ScanOk(p, skipping, skip) && SkipOk(p, skipping, skip, skipping0, skip0)
      requires Same(cmp, entries[p].key, skip')
      ensures ScanOk(p + 1, true, skip') && SkipOk(p + 1, true, skip', skipping0, skip0)
    {
      var next := p + 1;
      assert ScanAt(p, skipping, skip, p);
      forall i
        ensures ScanAt(next, true, skip', i)
      {
        assert ScanAt(p, skipping, skip, i);
        if 0 <= i < |entries| && next <= i {
          Order(p, i);
          ThreeKeys(cmp, entries[i].key, entries[p].key, skip');
          ThreeKeys(cmp, entries[i].key, entries[p].key, skip);
        }
      }
      forall i
        ensures SkipAt(next, true, skip', skipping0, skip0, i)
      {
        if 0 <= i < |entries| {
          ThreeKeys(cmp, entries[i].key, skip', entries[p].key);
        }
      }
      ThreeKeys(cmp, skip0, skip, entries[p].key);
      ThreeKeys(cmp, skip0, entries[p].key, skip');
    }

    lemma YieldIsLive(p: int, skipping: bool, skip: Bytes, skipping0: bool, skip0: Bytes)
      requires Valid() && Visible(p) && entries[p].kind.Value? && Past(skipping, skip, p)
      requires ScanOk(p, skipping, skip) && SkipOk(p, skipping, skip, skipping0, skip0)
      ensures LiveAt(p) && Past(skipping0, skip0, p)
    {
      LiveIff(p);
      assert ScanAt(p, skipping, skip, p);
      ThreeKeys(cmp, skip0, skip, entries[p].key);
    }

    lemma HiddenIsNotLive(p: int, skipping: bool, skip: Bytes, skipping0: bool, skip0: Bytes)
      requires Valid() && Visible(p) && (entries[p].kind.Deletion? || !Past(skipping, skip, p))
      requires ScanOk(p, skipping, skip) && SkipOk(p, skipping, skip, skipping0, skip0)
      ensures !(LiveAt(p) && Past(skipping0, skip0, p))
    {
      LiveIff(p);
      assert ScanAt(p, skipping, skip, p) && SkipAt(p, skipping, skip, skipping0, skip0, p);
    }

    // ----- scanning backwards

    /** Scanning back from start to p: v is the last visible entry met (or -1), and at
        most v can turn out to be live. */
    ghost predicate BackOk(p: int, start: int, v: int) {
      && -1 <= p <= start < |entries|
      && (v == -1 || (p < v <= start && Visible(v)))
      && (forall i | p < i <= start && (v == -1 || i < v) :: !Visible(i))
      && (forall i | p < i <= start && LiveAt(i) :: i == v)
    }

    lemma BackInvisible(p: int, start: int, v: int)
      requires Valid() && BackOk(p, start, v) && 0 <= p && !Visible(p)
      ensures BackOk(p - 1, start, v)
    {
      LiveIff(p);
    }

    lemma BackVisible(p: int, start: int, v: int)
      requires Valid() && BackOk(p, start, v) && Visible(p)
      requires v == -1 || entries[v].kind.Deletion? || cmp(entries[p].key, entries[v].key) >= 0
      ensures BackOk(p - 1, start, p)
    {
      if v != -1 {
        LiveIff(v);
        Order(p, v);
      }
    }

    lemma BackFinds(p: int, start: int, v: int)
      requires Valid() && BackOk(p, start, v) && v != -1 && entries[v].kind.Value?
      requires 0 <= p ==> cmp(entries[p].key, entries[v].key) < 0
      ensures LiveAt(v)
    {
      LiveIff(v);
      forall j | 0 <= j < v && Visible(j)
        ensures !Same(cmp, entries[j].key, entries[v].key)
      {
        Order(j, p);
        ThreeKeys(cmp, entries[j].key, entries[p].key, entries[v].key);
      }
    }
  }

  /** `cur` is the live entry the cursor shows. */
  class DBIter {
    const src: Source
    var pos: int  // iter_: valid while it is an index of src.entries
    var direction: Direction
    var valid: bool
    var savedKey: Bytes
    var savedValue: Bytes
    ghost var cur: int

    ghost predicate Valid()
      reads this
    {
      && src.Valid() && -1 <= pos <= |src.entries|
      && (valid ==> src.LiveAt(cur) && if direction.Forward? then pos == cur else BehindOk())
    }

    /** Moving backwards, every entry between iter_ and the one shown is newer than the
        snapshot, and iter_ is at an earlier key. */
    ghost predicate BehindOk()
      requires 0 <= cur < |src.entries|
      reads this
    {
      && -1 <= pos < cur
      && savedKey == src.entries[cur].key && savedValue == src.entries[cur].value
      && (forall i | pos < i < cur :: !src.Visible(i))
      && (0 <= pos ==> src.cmp(src.entries[pos].key, src.entries[cur].key) < 0)
    }

    constructor (s: Source)
      requires s.Valid()
      ensures Valid() && src == s && !valid
    {
      src := s;
      pos, direction, valid, savedKey, savedValue, cur := -1, Forward, false, [], [], 0;
    }

    function Key(): (k: Bytes)
      requires Valid() && valid
      reads this
      ensures k == src.entries[cur].key
    {
      if direction.Forward? then src.entries[pos].key else savedKey
    }

    function Value(): (v: Bytes)
      requires Valid() && valid
      reads this
      ensures v == src.entries[cur].value
    {
      if direction.Forward? then src.entries[pos].value else savedValue
    }

    /** Moves to the first live entry from iter_ on that is past the skipped key. */
    method FindNextUserEntry(skipping: bool)
      requires src.Valid() && 0 <= pos < |src.entries| && direction.Forward?
      requires src.ScanOk(pos, skipping, savedKey)
      modifies this
      ensures Valid() && direction.Forward?
      ensures valid ==> old(pos) <= cur && src.Past(skipping, old(savedKey), cur)
      ensures src.NoneLive(old(pos), if valid then cur else |src.entries|, skipping, old(savedKey))
    {
      ghost var start, skip0 := pos, savedKey;
      var skip := skipping;
      assert src.SkipOk(pos, skip, savedKey, skipping, skip0) by {
        ThreeKeys(src.cmp, skip0, skip0, skip0);
        assert forall i :: src.SkipAt(pos, skip, savedKey, skipping, skip0, i);
      }
      while pos < |src.entries|
        invariant start <= pos <= |src.entries| && direction.Forward?
        invariant src.ScanOk(pos, skip, savedKey) && src.SkipOk(pos, skip, savedKey, skipping, skip0)
        invariant src.NoneLive(start, pos, skipping, skip0)
        decreases |src.entries| - pos
      {
        var e := src.entries[pos];
        if e.seqno <= src.sequence {
          if e.kind.Value? && !(skip && src.cmp(e.key, savedKey) <= 0) {
            src.YieldIsLive(pos, skip, savedKey, skipping, skip0);
            valid, savedKey, cur := true, [], pos;
            return;
          }
          src.HiddenIsNotLive(pos, skip, savedKey, skipping, skip0);
          assert src.ScanAt(pos, skip, savedKey, pos);
          ThreeKeys(src.cmp, e.key, e.key, e.key);
          src.ScanHidden(pos, skip, savedKey, if e.kind.Deletion? then e.key else savedKey, skipping, skip0);
          if e.kind.Deletion? {
            savedKey, skip := e.key, true;
          }
        } else {
          src.ScanInvisible(pos, skip, savedKey, skipping, skip0);
          src.LiveIff(pos);
        }
        pos := pos + 1;
      }
      savedKey, valid := [], false;
    }

    /** Moves to the last live entry up to iter_. */
    method FindPrevUserEntry()
      requires src.Valid() && -1 <= pos < |src.entries| && direction.Reverse?
      modifies this
      ensures Valid()
      ensures valid ==> direction.Reverse? && cur <= old(pos)
      ensures forall i | (if valid then cur else -1) < i <= old(pos) :: !src.LiveAt(i)
    {
      ghost var start := pos;
      ghost var v := -1;
      var kind := Deletion;
      while 0 <= pos
        invariant src.BackOk(pos, start, v) && direction.Reverse?
        invariant kind.Value? ==> v != -1
        invariant v != -1 ==> kind == src.entries[v].kind
        invariant kind.Value? ==> savedKey == src.entries[v].key && savedValue == src.entries[v].value
        decreases pos
      {
        var e := src.entries[pos];
        if e.seqno <= src.sequence {
          if kind.Value? && src.cmp(e.key, savedKey) < 0 {
            break;
          }
          src.BackVisible(pos, start, v);
          kind, v := e.kind, pos;
          if kind.Deletion? {
            savedKey, savedValue := [], [];
          } else {
            savedKey, savedValue := e.key, e.value;
          }
        } else {
          src.BackInvisible(pos, start, v);
        }
        pos := pos - 1;
      }
      if kind.Deletion? {
        valid, savedKey, savedValue, direction := false, [], [], Forward;
        if v != -1 {
          src.LiveIff(v);
        }
      } else {
        src.BackFinds(pos, start, v);
        valid, cur := true, v;
      }
    }

    /** The cursor's place in the list of visible keys. */
    ghost function Place(): (k: nat)
      requires Valid() && valid
      reads this
      ensures k < src.Total() && src.Lives(|src.entries|)[k] == cur
    {
      src.LivesAt(cur);
      |src.Lives(cur)|
    }

    /** From old cursor a, the cursor has moved to the next live entry or off the end. */
    lemma MovedForward(a: int)
      requires Valid() && src.LiveAt(a)
      requires forall i | a < i < (if valid then cur else |src.entries|) :: !src.LiveAt(i)
      requires valid ==> a < cur
      ensures if valid then Place() == |src.Lives(a)| + 1 else |src.Lives(a)| + 1 == src.Total()
    {
      src.LivesGap(a + 1, if valid then cur else |src.entries|);
      assert src.Lives(a + 1) == src.Lives(a) + [a];
    }

    lemma MovedBack(a: int)
      requires Valid() && src.LiveAt(a)
      requires forall i | (if valid then cur else -1) < i < a :: !src.LiveAt(i)
      requires valid ==> cur < a
      ensures if valid then Place() + 1 == |src.Lives(a)| else |src.Lives(a)| == 0
    {
      src.LivesGap(if valid then cur + 1 else 0, a);
      if valid {
        assert src.Lives(cur + 1) == src.Lives(cur) + [cur];
      }
    }

    method Next()
      requires Valid() && valid
      modifies this
      ensures Valid()
      ensures valid <==> old(Place()) + 1 < src.Total()
      ensures valid ==> Place() == old(Place()) + 1
    {
      ghost var a := cur;
      src.LiveIff(a);
      ghost var key := src.entries[a].key;
      if direction.Reverse? {
        direction := Forward;
        if !(0 <= pos < |src.entries|) {
          pos := 0;
        } else {
          pos := pos + 1;
        }
      } else {
        savedKey := src.entries[pos].key;
      }
      assert savedKey == key && pos <= a;
      SkipCurrent(pos, a);
      ghost var start := pos;
      FindNextUserEntry(true);
      AfterCurrent(start, a, key, if valid then cur else |src.entries|);
      if valid {
        PastMeansAfter(a, cur, key);
      }
      MovedForward(a);
    }

    /** From p, which is not after the current entry, the current key is safe to skip. */
    lemma SkipCurrent(p: int, a: int)
      requires src.Valid() && src.LiveAt(a) && 0 <= p <= a
      requires forall i | p <= i < a :: !src.Visible(i)
      requires 0 < p ==> p == a || src.cmp(src.entries[p - 1].key, src.entries[a].key) < 0
      ensures src.ScanOk(p, true, src.entries[a].key)
    {
      var key := src.entries[a].key;
      src.LiveIff(a);
      forall i
        ensures src.ScanAt(p, true, key, i)
      {
        if 0 <= i < |src.entries| && p <= i && src.Visible(i) {
          src.Order(a, i);
          ThreeKeys(src.cmp, src.entries[a].key, src.entries[i].key, key);
          if src.ShadowedFrom(p, i) && src.cmp(src.entries[i].key, key) != 0 {
            var j :| 0 <= j < p && src.Visible(j) && Same(src.cmp, src.entries[j].key, src.entries[i].key);
            src.Order(j, a);
            ThreeKeys(src.cmp, src.entries[j].key, src.entries[i].key, key);
          }
        }
      }
    }

    lemma PastMeansAfter(a: int, b: int, key: Bytes)
      requires src.Valid() && 0 <= a < |src.entries| && 0 <= b < |src.entries| && src.entries[a].key == key
      requires src.cmp(src.entries[b].key, key) > 0
      ensures a < b
    {
      if b <= a {
        src.Order(b, a);
      }
    }

    lemma AfterCurrent(start: int, a: int, key: Bytes, end: int)
      requires src.Valid() && src.LiveAt(a) && start <= a && src.entries[a].key == key && end <= |src.entries|
      requires src.NoneLive(start, end, true, key)
      ensures forall i | a < i < end :: !src.LiveAt(i)
    {
      forall i | a < i < end && src.LiveAt(i)
        ensures false
      {
        src.Order(a, i);
        src.LiveIff(i);
        src.LiveIff(a);
        ThreeKeys(src.cmp, src.entries[a].key, src.entries[i].key, key);
      }
    }

    method Prev()
      requires Valid() && valid
      modifies this
      ensures Valid()
      ensures valid <==> old(Place()) > 0
      ensures valid ==> Place() == old(Place()) - 1
    {
      ghost var a := cur;
      src.LiveIff(a);
      if direction.Forward? {
        savedKey := src.entries[pos].key;
        pos := pos - 1;
        while 0 <= pos && !(src.cmp(src.entries[pos].key, savedKey) < 0)
          invariant -1 <= pos < a && savedKey == src.entries[a].key
          invariant forall i | pos < i < a :: src.cmp(src.entries[i].key, savedKey) >= 0
        {
          pos := pos - 1;
        }
        SameKeyNotLive(pos, a);
        if pos < 0 {
          valid, savedKey, savedValue := false, [], [];
          MovedBack(a);
          return;
        }
        direction := Reverse;
      } else {
        forall i | pos < i < a
          ensures !src.LiveAt(i)
        {
          src.LiveIff(i);
        }
      }
      ghost var start := pos;
      FindPrevUserEntry();
      MovedBack(a);
    }

    /** Entries before the current one, for the same key, are too new to be live. */
    lemma SameKeyNotLive(p: int, a: int)
      requires src.Valid() && src.LiveAt(a) && -1 <= p < a
      requires forall i | p < i < a :: src.cmp(src.entries[i].key, src.entries[a].key) >= 0
      ensures forall i | p < i < a :: !src.LiveAt(i)
    {
      forall i | p < i < a
        ensures !src.LiveAt(i)
      {
        src.Order(i, a);
        src.LiveIff(i);
        src.LiveIff(a);
      }
    }

    method SeekToFirst()
      requires Valid()
      modifies this
      ensures Valid()
      ensures valid <==> 0 < src.Total()
      ensures valid ==> Place() == 0
    {
      direction, savedValue := Forward, [];
      pos := 0;
      if 0 < |src.entries| {
        assert forall i :: src.ScanAt(0, false, savedKey, i);
        FindNextUserEntry(false);
        src.LivesGap(0, if valid then cur else |src.entries|);
        if valid {
          src.LivesAt(cur);
        }
      } else {
        valid := false;
      }
    }

    method SeekToLast()
      requires Valid()
      modifies this
      ensures Valid()
      ensures valid <==> 0 < src.Total()
      ensures valid ==> Place() == src.Total() - 1
    {
      direction, savedValue := Reverse, [];
      pos := |src.entries| - 1;
      FindPrevUserEntry();
      src.LivesGap(if valid then cur + 1 else 0, |src.entries|);
      if valid {
        assert src.Lives(cur + 1) == src.Lives(cur) + [cur];
      }
    }

    /** iter_->Seek to (target, sequence, kValueTypeForSeek): the first entry not before it
        in internal-key order. */
    method InternalSeek(target: Bytes) returns (p: int)
      requires src.Valid()
      ensures 0 <= p <= |src.entries|
      ensures forall i | 0 <= i < p :: BeforeSeekKey(target, i)
      ensures p < |src.entries| ==> !BeforeSeekKey(target, p)
    {
      p := 0;
      while p < |src.entries| && BeforeSeekKey(target, p)
        invariant 0 <= p <= |src.entries|
        invariant forall i | 0 <= i < p :: BeforeSeekKey(target, i)
      {
        p := p + 1;
      }
    }

    predicate BeforeSeekKey(target: Bytes, i: int)
      requires 0 <= i < |src.entries|
    {
      var c := src.cmp(src.entries[i].key, target);
      c < 0 || (c == 0 && src.sequence < src.entries[i].seqno)
    }

    /** The first visible key at or after the target. */
    method Seek(target: Bytes)
      requires Valid()
      modifies this
      ensures Valid()
      ensures valid ==> src.cmp(Key(), target) >= 0
      ensures forall k | 0 <= k < (if valid then Place() else src.Total()) ::
                src.cmp(src.entries[src.Lives(|src.entries|)[k]].key, target) < 0
    {
      direction, savedValue, savedKey := Forward, [], [];
      pos := InternalSeek(target);
      ghost var p := pos;
      if pos < |src.entries| {
        SeekScan(target, pos);
        FindNextUserEntry(false);
        if valid {
          src.Order(p, cur);
          ThreeKeys(src.cmp, src.entries[p].key, src.entries[cur].key, target);
        }
      } else {
        valid := false;
      }
      SeekSkipped(target, p, if valid then cur else |src.entries|);
    }

    lemma SeekScan(target: Bytes, p: int)
      requires src.Valid() && 0 <= p < |src.entries|
      requires !BeforeSeekKey(target, p) && forall i | 0 <= i < p :: BeforeSeekKey(target, i)
      ensures src.ScanOk(p, false, [])
    {
      forall i
        ensures src.ScanAt(p, false, [], i)
      {
        if 0 <= i < |src.entries| && p <= i && src.Visible(i) && src.ShadowedFrom(p, i) {
          var j :| 0 <= j < p && src.Visible(j) && Same(src.cmp, src.entries[j].key, src.entries[i].key);
          assert BeforeSeekKey(target, j);
          src.Order(p, i);
          ThreeKeys(src.cmp, src.entries[p].key, src.entries[i].key, target);
          ThreeKeys(src.cmp, src.entries[j].key, src.entries[i].key, target);
        }
      }
    }

    /** What lies before the place found is before the target. */
    lemma SeekSkipped(target: Bytes, p: int, end: nat)
      requires src.Valid() && 0 <= p <= |src.entries| && end <= |src.entries|
      requires forall i | 0 <= i < p :: BeforeSeekKey(target, i)
      requires forall i | p <= i < end :: !src.LiveAt(i)
      ensures forall k | 0 <= k < |src.Lives(end)| :: src.cmp(src.entries[src.Lives(end)[k]].key, target) < 0
      ensures |src.Lives(end)| <= src.Total()
      ensures forall k | 0 <= k < |src.Lives(end)| :: src.Lives(end)[k] == src.Lives(|src.entries|)[k]
    {
      src.LivesPrefix(end, |src.entries|);
      forall k | 0 <= k < |src.Lives(end)|
        ensures src.cmp(src.entries[src.Lives(end)[k]].key, target) < 0
      {
        var i := src.Lives(end)[k];
        src.LiveIff(i);
        assert BeforeSeekKey(target, i);
      }
    }
  }
}
