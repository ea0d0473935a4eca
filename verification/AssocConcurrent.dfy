/** The hash table shared: workers under striped item locks, and the maintenance thread that
    moves buckets under the same locks. */
module AssocConcurrent {
  import opened Assoc
  import opened Lists
  import opened Store

  /** The lock table's size, by number of worker threads. */
  function ItemLockPower(nthreads: nat): nat {
    if nthreads < 3 then 10 else if nthreads < 4 then 11 else if nthreads < 5 then 12 else 13
  }

  datatype Op = Find | Insert(it: Id) | Delete

  /** A worker between two of its steps. From Locked on it holds the lock of its key. */
  datatype Pc =
    | Idle
    | Locked(op: Op, key: Bytes)                  // about to read `expanding`
    | SawExpanding(op: Op, key: Bytes)            // read true, about to compare expand_bucket
    | Chosen(op: Op, key: Bytes, b: Bucket)       // about to load or store the bucket's head
    | Walking(op: Op, key: Bytes, passed: seq<Id>, rest: seq<Id>, it: Id)

  /** `cursor` is the maintenance thread's while it holds a lock; `c` and `m` record what the
      chains run through and which items are stored. */
  datatype State = State(t: Table, cursor: Option<Id>, c: Chains, m: map<Bytes, Id>, threads: seq<Pc>)

  datatype Action =
    | Lock(i: nat, op: Op, key: Bytes) | ReadFlag(i: nat) | ReadBucket(i: nat) | Begin(i: nat) | Walk(i: nat) | Return(i: nat)
    | Take | Move | Finish | Expand

  // ----- steps

  ghost predicate InsertsItem(pc: Pc, it: Id) {
    pc != Idle && pc.op == Insert(it)
  }

  /** item_lock's stripe: the low bits of the hash. */
  ghost predicate Holds(hash: Hash, L: nat, pc: Pc, stripe: nat) {
    pc != Idle && Bits(hash(pc.key), L) == stripe
  }

  ghost predicate Free(hash: Hash, L: nat, s: State, stripe: nat) {
    && (forall j | 0 <= j < |s.threads| :: !Holds(hash, L, s.threads[j], stripe))
    && (s.cursor.Some? ==> Bits(s.t.expandBucket, L) != stripe)
  }

  ghost predicate LockStep(hash: Hash, L: nat, s: State, i: nat, op: Op, key: Bytes, s': State) {
    && i < |s.threads| && s.threads[i] == Idle && Free(hash, L, s, Bits(hash(key), L))
    && (op.Insert? ==> key !in s.m && Unlinked(s.m, op.it) && forall j | 0 <= j < |s.threads| :: !InsertsItem(s.threads[j], op.it))
    && s' == s.(threads := s.threads[i := Locked(op, key)])
  }

  ghost predicate ReadFlagStep(hash: Hash, s: State, i: nat, s': State) {
    && i < |s.threads| && s.threads[i].Locked?
    && var Locked(op, key) := s.threads[i];
       s' == s.(threads := s.threads[i := if s.t.expanding then SawExpanding(op, key)
                                          else Chosen(op, key, New(Bits(hash(key), s.t.power)))])
  }

  ghost predicate ReadBucketStep(hash: Hash, s: State, i: nat, s': State) {
    && i < |s.threads| && s.threads[i].SawExpanding? && 0 < s.t.power
    && var SawExpanding(op, key) := s.threads[i];
       var bucket := Bits(hash(key), s.t.power - 1);
       s' == s.(threads := s.threads[i := Chosen(op, key, if bucket >= s.t.expandBucket then Old(bucket)
                                                          else New(Bits(hash(key), s.t.power)))])
  }

  /** An insert stores the item; the other operations load the head of the chain. */
  ghost predicate BeginStep(s: State, i: nat, s': State) {
    && i < |s.threads| && s.threads[i].Chosen? && IsBucket(s.t, s.threads[i].b)
    && var Chosen(op, key, b) := s.threads[i];
       if op.Insert? then
         s' == State(PutFront(s.t, b, op.it, key), s.cursor, s.c[b := [op.it] + Chain(s.c, b)], s.m[key := op.it], s.threads[i := Idle])
       else
         s' == s.(threads := s.threads[i := Walking(op, key, [], Chain(s.c, b), Head(s.t, b))])
  }

  ghost predicate WalkStep(s: State, i: nat, s': State) {
    && i < |s.threads| && s.threads[i].Walking?
    && var Walking(op, key, passed, rest, it) := s.threads[i];
       && it != NIL && it in s.t.keys && it in s.t.next && s.t.keys[it] != key && rest != []
       && s' == s.(threads := s.threads[i := Walking(op, key, passed + [it], rest[1..], s.t.next[it])])
  }

  /** The end of the chain, or the item with the key: a delete takes the item out. */
  ghost predicate ReturnStep(hash: Hash, s: State, i: nat, s': State) {
    && i < |s.threads| && s.threads[i].Walking? && Shape(s.t)
    && var Walking(op, key, passed, rest, it) := s.threads[i];
       && (it == NIL || (it in s.t.keys && s.t.keys[it] == key))
       && if op.Delete? && it != NIL then
            && it in s.t.next && 0 < s.t.items && |passed| < |Chain(s.c, Where(s.t, hash(key)))|
            && var b := Where(s.t, hash(key));
               s' == State(Unlink(s.t, b, if passed == [] then NIL else passed[|passed| - 1], it), s.cursor,
                           s.c[b := Without(Chain(s.c, b), |passed|)], s.m - {key}, s.threads[i := Idle])
          else s' == s.(threads := s.threads[i := Idle])
  }

  ghost predicate TakeStep(hash: Hash, L: nat, s: State, s': State) {
    && s.cursor.None? && s.t.expanding && s.t.expandBucket < |s.t.oldTable| && Free(hash, L, s, Bits(s.t.expandBucket, L))
    && s' == s.(cursor := Some(s.t.oldTable[s.t.expandBucket]))
  }

  ghost predicate MoveStep(hash: Hash, s: State, s': State) {
    && s.cursor.Some? && s.cursor.value != NIL && Shape(s.t)
    && var it := s.cursor.value;
       && it in s.t.keys && it in s.t.next && Chain(s.c, Old(s.t.expandBucket)) != []
       && s' == s.(t := MoveOne(hash, s.t, it), cursor := Some(s.t.next[it]), c := MoveChain(hash, s.t, s.c, it))
  }

  ghost predicate FinishStep(s: State, s': State) {
    s.cursor == Some(NIL) && Shape(s.t) && s.t.expanding && s' == s.(t := FinishBucket(s.t), cursor := None)
  }

  /** assoc_expand runs with every worker paused. */
  ghost predicate ExpandStep(s: State, s': State) {
    && s.cursor.None? && !s.t.expanding && (forall j | 0 <= j < |s.threads| :: s.threads[j] == Idle)
    && s' == s.(t := Expanded(s.t), c := OldChains(s.t, s.c))
  }

  ghost predicate Next(hash: Hash, L: nat, s: State, a: Action, s': State) {
    match a
    case Lock(i, op, key) => LockStep(hash, L, s, i, op, key, s')
    case ReadFlag(i) => ReadFlagStep(hash, s, i, s')
    case ReadBucket(i) => ReadBucketStep(hash, s, i, s')
    case Begin(i) => BeginStep(s, i, s')
    case Walk(i) => WalkStep(s, i, s')
    case Return(i) => ReturnStep(hash, s, i, s')
    case Take => TakeStep(hash, L, s, s')
    case Move => MoveStep(hash, s, s')
    case Finish => FinishStep(s, s')
    case Expand => ExpandStep(s, s')
  }

  /** The server starts with an empty table and refuses a lock table that is not smaller. */
  ghost predicate Initial(L: nat, s: State) {
    && s.t.power > L && s.t == Table(s.t.power, false, 0, seq(Pow2(s.t.power), _ => NIL), [], map[], map[], 0)
    && L == ItemLockPower(|s.threads|) && s.cursor == None && s.c == map[] && s.m == map[]
    && forall j | 0 <= j < |s.threads| :: s.threads[j] == Idle
  }

  ghost predicate IsRun(hash: Hash, L: nat, run: seq<State>, actions: seq<Action>) {
    && |run| == |actions| + 1 && Initial(L, run[0])
    && forall i {:trigger StepAt(hash, L, run, actions, i)} :: StepAt(hash, L, run, actions, i)
  }

  ghost predicate StepAt(hash: Hash, L: nat, run: seq<State>, actions: seq<Action>, i: int) {
    0 <= i < |actions| && i + 1 < |run| ==> Next(hash, L, run[i], actions[i], run[i + 1])
  }

  // ----- the invariant

  ghost predicate OpOk(m: map<Bytes, Id>, op: Op, key: Bytes) {
    op.Insert? ==> key !in m && Unlinked(m, op.it)
  }

  ghost predicate FlagOk(t: Table) {
    0 < t.power && (t.expanding || t.expandBucket == Pow2(t.power - 1))
  }

  ghost predicate ThreadOk(hash: Hash, t: Table, cursor: Option<Id>, c: Chains, m: map<Bytes, Id>, pc: Pc) {
    match pc
    case Idle => true
    case Locked(op, key) => OpOk(m, op, key)
    case SawExpanding(op, key) => OpOk(m, op, key) && FlagOk(t)
    case Chosen(op, key, b) => OpOk(m, op, key) && Shape(t) && b == Where(t, hash(key))
    case Walking(op, key, passed, rest, it) => !op.Insert? && WalkAt(hash, t, cursor, c, m, key, passed, rest, it)
  }

  /** Two workers hold different locks and insert different items. */
  ghost predicate Exclusive(hash: Hash, L: nat, pc: Pc, pc': Pc) {
    pc != Idle && pc' != Idle ==>
      Bits(hash(pc.key), L) != Bits(hash(pc'.key), L) && (pc.op.Insert? && pc'.op.Insert? ==> pc.op.it != pc'.op.it)
  }

  ghost predicate MoverExclusive(hash: Hash, L: nat, t: Table, cursor: Option<Id>, pc: Pc) {
    pc != Idle && cursor.Some? ==> Bits(hash(pc.key), L) != Bits(t.expandBucket, L)
  }

  ghost predicate ThreadAt(hash: Hash, L: nat, s: State, i: int) {
    0 <= i < |s.threads| ==>
      ThreadOk(hash, s.t, s.cursor, s.c, s.m, s.threads[i]) && MoverExclusive(hash, L, s.t, s.cursor, s.threads[i])
  }

  ghost predicate PairAt(hash: Hash, L: nat, threads: seq<Pc>, i: int, j: int) {
    0 <= i < |threads| && 0 <= j < |threads| && i != j ==> Exclusive(hash, L, threads[i], threads[j])
  }

  ghost predicate StateInv(hash: Hash, L: nat, s: State) {
    && Inv(hash, s.t, s.cursor, s.c, s.m) && L < s.t.power
    && (forall i {:trigger ThreadAt(hash, L, s, i)} :: ThreadAt(hash, L, s, i))
    && (forall i, j {:trigger PairAt(hash, L, s.threads, i, j)} :: PairAt(hash, L, s.threads, i, j))
  }

  /** Holding the lock of a key keeps the mover out of the key's buckets. */
  lemma LockKeepsMoverOut(hash: Hash, L: nat, t: Table, cursor: Option<Id>, pc: Pc)
    requires pc != Idle && MoverExclusive(hash, L, t, cursor, pc) && L < t.power
    ensures Undisturbed(t, cursor, hash(pc.key))
  {
    LowBits(hash(pc.key), L, t.power - 1);
  }

  /** An old bucket and the two buckets it splits into are under one lock. */
  lemma OneStripe(L: nat, t: Table, h: nat)
    requires Shape(t) && L < t.power
    ensures Bits(Where(t, h).i, L) == Bits(h, L)
    ensures Bits(Bits(h, t.power), L) == Bits(h, L) == Bits(Bits(h, t.power - 1), L)
  {
    LowBits(h, L, t.power);
    LowBits(h, L, t.power - 1);
  }

  // ----- what a step on one stripe leaves alone

  ghost predicate ChainKept(L: nat, t: Table, c: Chains, t': Table, c': Chains, stripe: nat, b: Bucket) {
    Bits(b.i, L) != stripe ==>
      && Chain(c', b) == Chain(c, b)
      && forall id | id in Chain(c, b) :: LinkKept(t, t', id)
  }

  ghost predicate LinkKept(t: Table, t': Table, id: Id) {
    && (id in t.next ==> id in t'.next && t'.next[id] == t.next[id])
    && (id in t.keys ==> id in t'.keys && t'.keys[id] == t.keys[id])
  }

  ghost predicate WhereKept(L: nat, t: Table, t': Table, stripe: nat, h: nat) {
    Bits(h, L) != stripe && Shape(t) ==> Shape(t') && Where(t', h) == Where(t, h)
  }

  ghost predicate KeyKept(hash: Hash, L: nat, m: map<Bytes, Id>, m': map<Bytes, Id>, stripe: nat, added: Id, key: Bytes) {
    && (Bits(hash(key), L) != stripe ==> (key in m' <==> key in m) && (key in m ==> m'[key] == m[key]))
    && (key in m' ==> (key in m && m'[key] == m[key]) || m'[key] == added)
  }

  /** Only chains, links and keys of one stripe change; `added` is the one new item. */
  ghost predicate Local(hash: Hash, L: nat, s: State, s': State, stripe: nat, added: Id) {
    && s'.t.power == s.t.power && (FlagOk(s.t) ==> FlagOk(s'.t))
    && (forall b {:trigger ChainKept(L, s.t, s.c, s'.t, s'.c, stripe, b)} :: ChainKept(L, s.t, s.c, s'.t, s'.c, stripe, b))
    && (forall h {:trigger WhereKept(L, s.t, s'.t, stripe, h)} :: WhereKept(L, s.t, s'.t, stripe, h))
    && (forall key {:trigger KeyKept(hash, L, s.m, s'.m, stripe, added, key)} :: KeyKept(hash, L, s.m, s'.m, stripe, added, key))
  }

  lemma WalkKept(hash: Hash, L: nat, s: State, s': State, stripe: nat, added: Id, key: Bytes, passed: seq<Id>, rest: seq<Id>, it: Id)
    requires Local(hash, L, s, s', stripe, added) && Bits(hash(key), L) != stripe && L < s.t.power
    requires WalkAt(hash, s.t, s.cursor, s.c, s.m, key, passed, rest, it)
    requires Inv(hash, s'.t, s'.cursor, s'.c, s'.m) && Undisturbed(s'.t, s'.cursor, hash(key))
    ensures WalkAt(hash, s'.t, s'.cursor, s'.c, s'.m, key, passed, rest, it)
  {
    hide Inv, Bits;
    WalkAtShape(hash, s.t, s.cursor, s.c, s.m, key, passed, rest, it);
    var h := hash(key);
    var b := Where(s.t, h);
    assert WhereKept(L, s.t, s'.t, stripe, h);
    OneStripe(L, s.t, h);
    assert ChainKept(L, s.t, s.c, s'.t, s'.c, stripe, b);
    forall id | id in passed + rest
      ensures LinkKept(s.t, s'.t, id)
    {
      assert id in Chain(s.c, b);
    }
    LinkedKnown(s.t.next, it, rest);
    assert forall id | id in rest :: LinkKept(s.t, s'.t, id) by {
      assert forall id | id in rest :: id in passed + rest;
    }
    LinkedFrame(s.t.next, s'.t.next, it, rest);
    forall id | id in passed
      ensures id in s'.t.keys && s'.t.keys[id] != key
    {
      assert id in passed + rest;
      assert LinkKept(s.t, s'.t, id);
    }
  }

  lemma WalkAtShape(hash: Hash, t: Table, cursor: Option<Id>, c: Chains, m: map<Bytes, Id>, key: Bytes, passed: seq<Id>, rest: seq<Id>, it: Id)
    requires WalkAt(hash, t, cursor, c, m, key, passed, rest, it)
    ensures Shape(t)
  {
  }

  lemma OthersKeep(hash: Hash, L: nat, s: State, s': State, stripe: nat, added: Id, pc: Pc)
    requires Local(hash, L, s, s', stripe, added) && L < s.t.power && Inv(hash, s'.t, s'.cursor, s'.c, s'.m)
    requires ThreadOk(hash, s.t, s.cursor, s.c, s.m, pc) && MoverExclusive(hash, L, s'.t, s'.cursor, pc)
    requires pc != Idle ==> !Holds(hash, L, pc, stripe) && !(added != NIL && InsertsItem(pc, added))
    ensures ThreadOk(hash, s'.t, s'.cursor, s'.c, s'.m, pc)
  {
    hide Inv, Bits, WalkAt;
    if pc != Idle {
      var h := hash(pc.key);
      assert KeyKept(hash, L, s.m, s'.m, stripe, added, pc.key);
      LockKeepsMoverOut(hash, L, s'.t, s'.cursor, pc);
      if pc.Walking? {
        WalkKept(hash, L, s, s', stripe, added, pc.key, pc.passed, pc.rest, pc.it);
      } else {
        assert WhereKept(L, s.t, s'.t, stripe, h);
        if pc.op.Insert? {
          forall key | key in s'.m
            ensures s'.m[key] != pc.op.it
          {
            assert KeyKept(hash, L, s.m, s'.m, stripe, added, key);
          }
        }
      }
    }
  }

  /** A step on one stripe keeps the invariant if it does for the thread that made it. */
  lemma LocalKeeps(hash: Hash, L: nat, s: State, s': State, stripe: nat, added: Id, self: int)
    requires StateInv(hash, L, s) && Local(hash, L, s, s', stripe, added) && Inv(hash, s'.t, s'.cursor, s'.c, s'.m)
    requires |s'.threads| == |s.threads| && forall j | 0 <= j < |s.threads| && j != self :: s'.threads[j] == s.threads[j]
    requires 0 <= self < |s.threads| ==> s'.threads[self] == Idle
    requires forall j | 0 <= j < |s.threads| && j != self ::
               && MoverExclusive(hash, L, s'.t, s'.cursor, s.threads[j])
               && (s.threads[j] != Idle ==> !Holds(hash, L, s.threads[j], stripe) && !(added != NIL && InsertsItem(s.threads[j], added)))
    ensures StateInv(hash, L, s')
  {
    hide Inv, Bits, ThreadOk, Local;
    assert s'.t.power == s.t.power by { LocalPower(hash, L, s, s', stripe, added); }
    forall j
      ensures ThreadAt(hash, L, s', j)
    {
      if 0 <= j < |s.threads| {
        if j == self {
          IdleOk(hash, s'.t, s'.cursor, s'.c, s'.m);
        } else {
          assert ThreadAt(hash, L, s, j);
          OthersKeep(hash, L, s, s', stripe, added, s.threads[j]);
        }
      }
    }
    forall i, j
      ensures PairAt(hash, L, s'.threads, i, j)
    {
      assert PairAt(hash, L, s.threads, i, j);
    }
  }

  lemma LocalPower(hash: Hash, L: nat, s: State, s': State, stripe: nat, added: Id)
    requires Local(hash, L, s, s', stripe, added)
    ensures s'.t.power == s.t.power
  {
  }

  lemma IdleOk(hash: Hash, t: Table, cursor: Option<Id>, c: Chains, m: map<Bytes, Id>)
    ensures ThreadOk(hash, t, cursor, c, m, Idle)
  {
  }

  // ----- worker steps that change nothing shared

  lemma PrivateKeeps(hash: Hash, L: nat, s: State, i: nat, pc: Pc)
    requires StateInv(hash, L, s) && i < |s.threads|
    requires ThreadOk(hash, s.t, s.cursor, s.c, s.m, pc) && MoverExclusive(hash, L, s.t, s.cursor, pc)
    requires forall j | 0 <= j < |s.threads| && j != i :: Exclusive(hash, L, pc, s.threads[j])
    ensures StateInv(hash, L, s.(threads := s.threads[i := pc]))
  {
    hide Inv, Bits, ThreadOk;
    var s' := s.(threads := s.threads[i := pc]);
    forall j
      ensures ThreadAt(hash, L, s', j)
    {
      assert ThreadAt(hash, L, s, j);
    }
    forall k, j
      ensures PairAt(hash, L, s'.threads, k, j)
    {
      assert PairAt(hash, L, s.threads, k, j);
    }
  }

  lemma AdvanceKeeps(hash: Hash, L: nat, s: State, i: nat, pc: Pc)
    requires StateInv(hash, L, s) && i < |s.threads| && s.threads[i] != Idle
    requires pc != Idle ==> pc.key == s.threads[i].key && pc.op == s.threads[i].op
    requires ThreadOk(hash, s.t, s.cursor, s.c, s.m, pc)
    ensures StateInv(hash, L, s.(threads := s.threads[i := pc]))
  {
    hide Inv, Bits, ThreadOk;
    assert ThreadAt(hash, L, s, i);
    forall j | 0 <= j < |s.threads| && j != i
      ensures Exclusive(hash, L, pc, s.threads[j])
    {
      assert PairAt(hash, L, s.threads, i, j);
    }
    PrivateKeeps(hash, L, s, i, pc);
  }

  lemma KeepsLock(hash: Hash, L: nat, s: State, i: nat, op: Op, key: Bytes, s': State)
    requires StateInv(hash, L, s) && LockStep(hash, L, s, i, op, key, s')
    ensures StateInv(hash, L, s')
  {
    hide Inv, Bits;
    var pc := Locked(op, key);
    forall j | 0 <= j < |s.threads| && j != i
      ensures Exclusive(hash, L, pc, s.threads[j])
    {
      assert !Holds(hash, L, s.threads[j], Bits(hash(key), L));
      assert op.Insert? ==> !InsertsItem(s.threads[j], op.it);
    }
    PrivateKeeps(hash, L, s, i, pc);
  }

  lemma KeepsRead(hash: Hash, L: nat, s: State, i: nat, s': State)
    requires StateInv(hash, L, s) && (ReadFlagStep(hash, s, i, s') || ReadBucketStep(hash, s, i, s'))
    ensures StateInv(hash, L, s')
  {
    hide Bits;
    assert ThreadAt(hash, L, s, i);
    assert s'.threads[i].key == s.threads[i].key;
    assert s.threads[i].SawExpanding? ==> Bits(hash(s.threads[i].key), s.t.power - 1) < Pow2(s.t.power - 1);
    AdvanceKeeps(hash, L, s, i, s'.threads[i]);
  }

  lemma KeepsWalk(hash: Hash, L: nat, s: State, i: nat, s': State)
    requires StateInv(hash, L, s) && WalkStep(s, i, s')
    ensures StateInv(hash, L, s')
  {
    hide Inv, Bits, WalkAt;
    assert ThreadAt(hash, L, s, i);
    var pc := s.threads[i];
    WalkGoesOn(hash, s.t, s.cursor, s.c, s.m, pc.key, pc.passed, pc.rest, pc.it);
    AdvanceKeeps(hash, L, s, i, s'.threads[i]);
  }

  lemma KeepsLoad(hash: Hash, L: nat, s: State, i: nat, s': State)
    requires StateInv(hash, L, s) && BeginStep(s, i, s') && !s.threads[i].op.Insert?
    ensures StateInv(hash, L, s')
  {
    hide Bits, WalkAt;
    assert ThreadAt(hash, L, s, i);
    LockKeepsMoverOut(hash, L, s.t, s.cursor, s.threads[i]);
    WalkBegins(hash, s.t, s.cursor, s.c, s.m, s.threads[i].key);
    AdvanceKeeps(hash, L, s, i, s'.threads[i]);
  }

  // ----- insert and delete

  lemma OthersExclude(hash: Hash, L: nat, s: State, i: nat, j: nat)
    requires StateInv(hash, L, s) && i < |s.threads| && j < |s.threads| && i != j && s.threads[i] != Idle
    ensures MoverExclusive(hash, L, s.t, s.cursor, s.threads[j])
    ensures s.threads[j] != Idle ==> !Holds(hash, L, s.threads[j], Bits(hash(s.threads[i].key), L))
    ensures s.threads[j] != Idle && s.threads[i].op.Insert? ==> !InsertsItem(s.threads[j], s.threads[i].op.it)
  {
    hide Inv, Bits, ThreadOk;
    assert PairAt(hash, L, s.threads, i, j) && ThreadAt(hash, L, s, j);
  }

  lemma InsertLocal(hash: Hash, L: nat, s: State, i: nat, s': State)
    requires StateInv(hash, L, s) && BeginStep(s, i, s') && s.threads[i].op.Insert?
    ensures Local(hash, L, s, s', Bits(hash(s.threads[i].key), L), s.threads[i].op.it)
  {
    hide Bits, Inv;
    assert ThreadAt(hash, L, s, i);
    var Chosen(op, key, b) := s.threads[i];
    var stripe := Bits(hash(key), L);
    OneStripe(L, s.t, hash(key));
    forall b'
      ensures ChainKept(L, s.t, s.c, s'.t, s'.c, stripe, b')
    {
      NotInChains(hash, s.t, s.cursor, s.c, s.m, op.it, b');
    }
    forall h
      ensures WhereKept(L, s.t, s'.t, stripe, h)
    {
    }
    var added := op.it;
    forall k
      ensures KeyKept(hash, L, s.m, s'.m, stripe, added, k)
    {
    }
  }

  lemma KeepsInsert(hash: Hash, L: nat, s: State, i: nat, s': State)
    requires StateInv(hash, L, s) && BeginStep(s, i, s') && s.threads[i].op.Insert?
    ensures StateInv(hash, L, s')
  {
    hide Inv, Bits, Local, PutFront;
    assert ThreadAt(hash, L, s, i);
    var Chosen(op, key, b) := s.threads[i];
    LockKeepsMoverOut(hash, L, s.t, s.cursor, s.threads[i]);
    InsertKeeps(hash, s.t, s.cursor, s.c, s.m, op.it, key);
    InsertLocal(hash, L, s, i, s');
    forall j | 0 <= j < |s.threads| && j != i
      ensures && MoverExclusive(hash, L, s'.t, s'.cursor, s.threads[j])
              && (s.threads[j] != Idle ==> !Holds(hash, L, s.threads[j], Bits(hash(key), L)) && !(op.it != NIL && InsertsItem(s.threads[j], op.it)))
    {
      OthersExclude(hash, L, s, i, j);
      SameBucketNumber(s.t, b, op.it, key);
    }
    LocalKeeps(hash, L, s, s', Bits(hash(key), L), op.it, i);
  }

  lemma SameBucketNumber(t: Table, b: Bucket, it: Id, key: Bytes)
    requires IsBucket(t, b)
    ensures PutFront(t, b, it, key).expandBucket == t.expandBucket
  {
  }

  lemma ReturnDeletable(hash: Hash, L: nat, s: State, i: nat)
    requires StateInv(hash, L, s) && i < |s.threads| && s.threads[i].Walking?
    requires var pc := s.threads[i]; pc.it != NIL && pc.it in s.t.keys && s.t.keys[pc.it] == pc.key
    ensures var pc := s.threads[i];
            && Deletable(hash, s.t, s.cursor, s.c, s.m, pc.key, |pc.passed|)
            && var ids := Chain(s.c, Where(s.t, hash(pc.key)));
               ids[|pc.passed|] == pc.it && Before(ids, |pc.passed|) == if pc.passed == [] then NIL else pc.passed[|pc.passed| - 1]
  {
    assert ThreadAt(hash, L, s, i);
    var pc := s.threads[i];
    WalkEnds(hash, s.t, s.cursor, s.c, s.m, pc.key, pc.passed, pc.rest, pc.it);
  }

  lemma DeleteKept(hash: Hash, L: nat, s: State, key: Bytes, k: nat, b': Bucket)
    requires Deletable(hash, s.t, s.cursor, s.c, s.m, key, k) && L < s.t.power
    ensures var b := Where(s.t, hash(key));
            ChainKept(L, s.t, s.c, AfterDelete(hash, s.t, s.cursor, s.c, s.m, key, k), s.c[b := Without(Chain(s.c, b), k)],
                      Bits(hash(key), L), b')
  {
    hide Bits;
    var b := Where(s.t, hash(key));
    OneStripe(L, s.t, hash(key));
    DeleteKnown(hash, s.t, s.cursor, s.c, s.m, key, k);
    if b' != b {
      NotElsewhere(hash, s.t, s.cursor, s.c, s.m, key, k, b');
    }
  }

  lemma DeleteLocal(hash: Hash, L: nat, s: State, i: nat, s': State)
    requires StateInv(hash, L, s) && ReturnStep(hash, s, i, s') && s.threads[i].op.Delete? && s.threads[i].it != NIL
    ensures Local(hash, L, s, s', Bits(hash(s.threads[i].key), L), NIL)
    ensures Inv(hash, s'.t, s'.cursor, s'.c, s'.m) && s'.t.expandBucket == s.t.expandBucket
  {
    hide Bits, Inv, StateInv, ChainKept;
    ReturnDeletable(hash, L, s, i);
    var key, k := s.threads[i].key, |s.threads[i].passed|;
    var stripe := Bits(hash(key), L);
    assert L < s.t.power by { StripesFit(hash, L, s); }
    DeleteKeeps(hash, s.t, s.cursor, s.c, s.m, key, k);
    forall b'
      ensures ChainKept(L, s.t, s.c, s'.t, s'.c, stripe, b')
    {
      DeleteKept(hash, L, s, key, k, b');
    }
    forall h
      ensures WhereKept(L, s.t, s'.t, stripe, h)
    {
    }
    forall x
      ensures KeyKept(hash, L, s.m, s'.m, stripe, NIL, x)
    {
    }
  }

  lemma StripesFit(hash: Hash, L: nat, s: State)
    requires StateInv(hash, L, s)
    ensures L < s.t.power
  {
  }

  lemma KeepsReturn(hash: Hash, L: nat, s: State, i: nat, s': State)
    requires StateInv(hash, L, s) && ReturnStep(hash, s, i, s')
    ensures StateInv(hash, L, s')
  {
    hide Inv, Bits, Local;
    var pc := s.threads[i];
    if pc.op.Delete? && pc.it != NIL {
      DeleteLocal(hash, L, s, i, s');
      forall j | 0 <= j < |s.threads| && j != i
        ensures && MoverExclusive(hash, L, s'.t, s'.cursor, s.threads[j])
                && (s.threads[j] != Idle ==> !Holds(hash, L, s.threads[j], Bits(hash(pc.key), L)))
      {
        OthersExclude(hash, L, s, i, j);
      }
      LocalKeeps(hash, L, s, s', Bits(hash(pc.key), L), NIL, i);
    } else {
      AdvanceKeeps(hash, L, s, i, Idle);
    }
  }

  // ----- the maintenance thread

  lemma MoverExcludes(hash: Hash, L: nat, s: State, j: nat)
    requires StateInv(hash, L, s) && s.cursor.Some? && j < |s.threads|
    ensures s.threads[j] != Idle ==> !Holds(hash, L, s.threads[j], Bits(s.t.expandBucket, L))
  {
    assert ThreadAt(hash, L, s, j);
  }

  lemma KeepsTake(hash: Hash, L: nat, s: State, s': State)
    requires StateInv(hash, L, s) && TakeStep(hash, L, s, s')
    ensures StateInv(hash, L, s')
  {
    hide Bits, WalkAt;
    StartKeeps(hash, s.t, s.c, s.m);
    var stripe := Bits(s.t.expandBucket, L);
    assert Local(hash, L, s, s', stripe, NIL);
    forall j | 0 <= j < |s.threads|
      ensures && MoverExclusive(hash, L, s'.t, s'.cursor, s.threads[j])
              && (s.threads[j] != Idle ==> !Holds(hash, L, s.threads[j], stripe))
    {
      assert !Holds(hash, L, s.threads[j], stripe);
    }
    LocalKeeps(hash, L, s, s', stripe, NIL, -1);
  }

  /** Moving an item changes chains of one stripe only. */
  lemma MoveLocal(hash: Hash, L: nat, s: State, s': State)
    requires StateInv(hash, L, s) && MoveStep(hash, s, s')
    ensures Local(hash, L, s, s', Bits(s.t.expandBucket, L), NIL)
    ensures Inv(hash, s'.t, s'.cursor, s'.c, s'.m) && s'.t.expandBucket == s.t.expandBucket
  {
    hide Bits;
    var it, stripe := s.cursor.value, Bits(s.t.expandBucket, L);
    MoveKeeps(hash, s.t, s.c, s.m, it);
    CursorItem(hash, s.t, s.c, s.m, it);
    OneStripe(L, s.t, hash(s.t.keys[it]));
    forall b'
      ensures ChainKept(L, s.t, s.c, s'.t, s'.c, stripe, b')
    {
    }
    forall h
      ensures WhereKept(L, s.t, s'.t, stripe, h)
    {
    }
    forall key
      ensures KeyKept(hash, L, s.m, s'.m, stripe, NIL, key)
    {
    }
  }

  /** Going on to the next bucket changes the choice of bucket for one stripe only. */
  lemma FinishLocal(hash: Hash, L: nat, s: State, s': State)
    requires StateInv(hash, L, s) && FinishStep(s, s')
    ensures Local(hash, L, s, s', Bits(s.t.expandBucket, L), NIL)
    ensures Inv(hash, s'.t, s'.cursor, s'.c, s'.m)
  {
    hide Bits;
    var stripe := Bits(s.t.expandBucket, L);
    FinishKeeps(hash, s.t, s.c, s.m);
    forall b'
      ensures ChainKept(L, s.t, s.c, s'.t, s'.c, stripe, b')
    {
    }
    forall h
      ensures WhereKept(L, s.t, s'.t, stripe, h)
    {
      OneStripe(L, s.t, h);
    }
    forall key
      ensures KeyKept(hash, L, s.m, s'.m, stripe, NIL, key)
    {
    }
  }

  lemma KeepsMover(hash: Hash, L: nat, s: State, s': State)
    requires StateInv(hash, L, s) && (MoveStep(hash, s, s') || FinishStep(s, s'))
    ensures StateInv(hash, L, s')
  {
    hide Inv, Bits, Local;
    if MoveStep(hash, s, s') {
      MoveLocal(hash, L, s, s');
    } else {
      FinishLocal(hash, L, s, s');
    }
    forall j | 0 <= j < |s.threads|
      ensures && MoverExclusive(hash, L, s'.t, s'.cursor, s.threads[j])
              && (s.threads[j] != Idle ==> !Holds(hash, L, s.threads[j], Bits(s.t.expandBucket, L)))
    {
      MoverExcludes(hash, L, s, j);
    }
    LocalKeeps(hash, L, s, s', Bits(s.t.expandBucket, L), NIL, -1);
  }

  lemma KeepsExpand(hash: Hash, L: nat, s: State, s': State)
    requires StateInv(hash, L, s) && ExpandStep(s, s')
    ensures StateInv(hash, L, s')
  {
    hide Bits;
    ExpandKeeps(hash, s.t, s.c, s.m);
    forall j
      ensures ThreadAt(hash, L, s', j)
    {
    }
    forall i, j
      ensures PairAt(hash, L, s'.threads, i, j)
    {
    }
  }

  // ----- whole runs

  lemma StepInv(hash: Hash, L: nat, s: State, a: Action, s': State)
    requires StateInv(hash, L, s) && Next(hash, L, s, a, s')
    ensures StateInv(hash, L, s')
  {
    hide StateInv, LockStep, ReadFlagStep, ReadBucketStep, WalkStep, ReturnStep, TakeStep, MoveStep, FinishStep, ExpandStep;
    match a
    case Lock(i, op, key) => KeepsLock(hash, L, s, i, op, key, s');
    case ReadFlag(i) => KeepsRead(hash, L, s, i, s');
    case ReadBucket(i) => KeepsRead(hash, L, s, i, s');
    case Begin(i) =>
      if s.threads[i].op.Insert? {
        KeepsInsert(hash, L, s, i, s');
      } else {
        KeepsLoad(hash, L, s, i, s');
      }
    case Walk(i) => KeepsWalk(hash, L, s, i, s');
    case Return(i) => KeepsReturn(hash, L, s, i, s');
    case Take => KeepsTake(hash, L, s, s');
    case Move => KeepsMover(hash, L, s, s');
    case Finish => KeepsMover(hash, L, s, s');
    case Expand => KeepsExpand(hash, L, s, s');
  }

  lemma InitialInv(hash: Hash, L: nat, s: State)
    requires Initial(L, s)
    ensures StateInv(hash, L, s)
  {
    assert forall b :: BucketAt(hash, s.t, s.cursor, s.c, s.m, b);
    assert forall key :: KeyAt(hash, s.t, s.c, s.m, key);
    assert forall j :: ThreadAt(hash, L, s, j);
    assert forall i, j :: PairAt(hash, L, s.threads, i, j);
    var e := Old(s.t.expandBucket);
    assert forall id, j :: ApartAt(s.c, e, id, j);
  }

  lemma {:induction false} RunInv(hash: Hash, L: nat, run: seq<State>, actions: seq<Action>, n: nat)
    requires IsRun(hash, L, run, actions) && n < |run|
    ensures StateInv(hash, L, run[n])
  {
    hide StateInv, Next, Initial;
    if n == 0 {
      InitialInv(hash, L, run[0]);
    } else {
      RunInv(hash, L, run, actions, n - 1);
      assert StepAt(hash, L, run, actions, n - 1);
      StepInv(hash, L, run[n - 1], actions[n - 1], run[n]);
    }
  }

  /** In every reachable state, a lookup at its end has the map's answer: wherever the mover
      is, the item found is the one stored under the key, and none is found only if none is. */
  lemma LookupIsExact(hash: Hash, L: nat, run: seq<State>, actions: seq<Action>, n: nat, i: nat)
    requires IsRun(hash, L, run, actions) && n < |run| && i < |run[n].threads| && run[n].threads[i].Walking?
    ensures var s, pc := run[n], run[n].threads[i];
            && (pc.it == NIL ==> pc.key !in s.m)
            && (pc.it != NIL ==> pc.it in s.t.keys && (s.t.keys[pc.it] == pc.key ==> pc.key in s.m && s.m[pc.key] == pc.it))
  {
    RunInv(hash, L, run, actions, n);
    var s, pc := run[n], run[n].threads[i];
    assert ThreadAt(hash, L, s, i);
    WalkEnds(hash, s.t, s.cursor, s.c, s.m, pc.key, pc.passed, pc.rest, pc.it);
  }

  /** While the mover works on a bucket, no worker holds a lock that reaches the bucket or the
      two it splits into, so none sees its chain half moved. */
  lemma MoverIsAlone(hash: Hash, L: nat, run: seq<State>, actions: seq<Action>, n: nat, i: nat)
    requires IsRun(hash, L, run, actions) && n < |run| && i < |run[n].threads| && run[n].threads[i] != Idle
    requires run[n].cursor.Some?
    ensures var s, h := run[n], hash(run[n].threads[i].key);
            && 0 < s.t.power && Bits(h, s.t.power - 1) != s.t.expandBucket
            && Bits(Bits(h, s.t.power), s.t.power - 1) != s.t.expandBucket
  {
    hide Bits, Next;
    RunInv(hash, L, run, actions, n);
    var s, pc := run[n], run[n].threads[i];
    assert ThreadAt(hash, L, s, i);
    LockKeepsMoverOut(hash, L, s.t, s.cursor, pc);
    LowBits(hash(pc.key), s.t.power - 1, s.t.power);
  }

  /** Migration never changes what is stored: only an insert or a delete does, and only at its
      own key. */
  lemma OnlyOwnKey(hash: Hash, L: nat, run: seq<State>, actions: seq<Action>, n: nat, key: Bytes)
    requires IsRun(hash, L, run, actions) && n < |actions|
    requires match actions[n]
             case Begin(i) => i < |run[n].threads| && run[n].threads[i].Chosen? ==> run[n].threads[i].key != key
             case Return(i) => i < |run[n].threads| && run[n].threads[i].Walking? ==> run[n].threads[i].key != key
             case _ => true
    ensures key in run[n + 1].m <==> key in run[n].m
    ensures key in run[n].m ==> run[n + 1].m[key] == run[n].m[key]
  {
    assert StepAt(hash, L, run, actions, n);
  }

  /** The number of stored items is what hash_items says. */
  lemma CountIsExact(hash: Hash, L: nat, run: seq<State>, actions: seq<Action>, n: nat)
    requires IsRun(hash, L, run, actions) && n < |run|
    ensures run[n].t.items == |run[n].m|
  {
    RunInv(hash, L, run, actions, n);
  }

  /** Operations take effect when they end: an insert stores its item under its key, a delete leaves
      the key absent whether it was there or not, and neither changes anything else. */
  lemma OpsTakeEffect(hash: Hash, L: nat, run: seq<State>, actions: seq<Action>, n: nat)
    requires IsRun(hash, L, run, actions) && n < |actions|
    ensures match actions[n]
            case Begin(i) =>
              && i < |run[n].threads| && run[n].threads[i].Chosen?
              && var pc := run[n].threads[i];
                 run[n + 1].m == if pc.op.Insert? then run[n].m[pc.key := pc.op.it] else run[n].m
            case Return(i) =>
              && i < |run[n].threads| && run[n].threads[i].Walking?
              && var pc := run[n].threads[i];
                 && run[n + 1].m == (if pc.op.Delete? then run[n].m - {pc.key} else run[n].m)
                 && i < |run[n + 1].threads| && run[n + 1].threads[i] == Idle
            case _ => run[n + 1].m == run[n].m
  {
    assert StepAt(hash, L, run, actions, n);
    if actions[n].Return? {
      LookupIsExact(hash, L, run, actions, n, actions[n].i);
    }
  }
}
