/** The little-endian Jenkins hash, with its three ways of reading the key. */
module JenkinsHash {

  /** Memory as the machine has it: a byte at every address. */
  type Memory = nat -> bv8

  // ----- mixing

  datatype Abc = Abc(a: bv32, b: bv32, c: bv32)

  function Rot(x: bv32, k: nat): bv32
    requires 0 < k < 32
  {
    (x << k) | (x >> (32 - k))
  }

  datatype Two = Two(x: bv32, z: bv32)

  function Plus(x: bv32, y: bv32): bv32 {
    x + y
  }

  function Minus(x: bv32, y: bv32): bv32 {
    x - y
  }

  function Xor(x: bv32, y: bv32): bv32 {
    x ^ y
  }

  /** x -= z; x ^= rot(z,k); z += y */
  function Stir(x: bv32, y: bv32, z: bv32, k: nat): Two
    requires 0 < k < 32
  {
    Two(Xor(Minus(x, z), Rot(z, k)), Plus(z, y))
  }

  function Unstir(x: bv32, y: bv32, z: bv32, k: nat): Two
    requires 0 < k < 32
  {
    var z0 := Minus(z, y);
    Two(Plus(Xor(x, Rot(z0, k)), z0), z0)
  }

  lemma StirUnstir(x: bv32, y: bv32, z: bv32, k: nat)
    requires 0 < k < 32
    ensures var s := Stir(x, y, z, k); Unstir(s.x, y, s.z, k) == Two(x, z)
  {
    hide Rot, Plus, Minus, Xor;
    PlusMinus(z, y);
    XorTwice(Minus(x, z), Rot(z, k));
    MinusPlus(x, z);
  }

  lemma UnstirStir(x: bv32, y: bv32, z: bv32, k: nat)
    requires 0 < k < 32
    ensures var s := Unstir(x, y, z, k); Stir(s.x, y, s.z, k) == Two(x, z)
  {
    hide Rot, Plus, Minus, Xor;
    var z0 := Minus(z, y);
    MinusPlus(z, y);
    PlusMinus(Xor(x, Rot(z0, k)), z0);
    XorTwice(x, Rot(z0, k));
  }

  lemma PlusMinus(x: bv32, y: bv32)
    ensures Minus(Plus(x, y), y) == x
  {
    assert Minus(x + y, y) == x;
  }

  lemma MinusPlus(x: bv32, y: bv32)
    ensures Plus(Minus(x, y), y) == x
  {
    assert Plus(x - y, y) == x;
  }

  lemma XorTwice(x: bv32, r: bv32)
    ensures Xor(Xor(x, r), r) == x
  {
  }

  function Mix(s: Abc): Abc {
    var Two(a1, c1) := Stir(s.a, s.b, s.c, 4);
    var Two(b1, a2) := Stir(s.b, c1, a1, 6);
    var Two(c2, b2) := Stir(c1, a2, b1, 8);
    var Two(a3, c3) := Stir(a2, b2, c2, 16);
    var Two(b3, a4) := Stir(b2, c3, a3, 19);
    var Two(c4, b4) := Stir(c3, a4, b3, 4);
    Abc(a4, b4, c4)
  }

  function Unmix(s: Abc): Abc {
    var Two(c3, b3) := Unstir(s.c, s.a, s.b, 4);
    var Two(b2, a3) := Unstir(b3, c3, s.a, 19);
    var Two(a2, c2) := Unstir(a3, b2, c3, 16);
    var Two(c1, b1) := Unstir(c2, a2, b2, 8);
    var Two(b0, a1) := Unstir(b1, c1, a2, 6);
    var Two(a0, c0) := Unstir(a1, b0, c1, 4);
    Abc(a0, b0, c0)
  }

  /** mix is reversible: no information is lost between blocks. */
  lemma MixReversible(s: Abc)
    ensures Unmix(Mix(s)) == s
  {
    hide Stir, Unstir;
    var Two(a1, c1) := Stir(s.a, s.b, s.c, 4);
    var Two(b1, a2) := Stir(s.b, c1, a1, 6);
    var Two(c2, b2) := Stir(c1, a2, b1, 8);
    var Two(a3, c3) := Stir(a2, b2, c2, 16);
    var Two(b3, a4) := Stir(b2, c3, a3, 19);
    StirUnstir(s.a, s.b, s.c, 4);
    StirUnstir(s.b, c1, a1, 6);
    StirUnstir(c1, a2, b1, 8);
    StirUnstir(a2, b2, c2, 16);
    StirUnstir(b2, c3, a3, 19);
    StirUnstir(c3, a4, b3, 4);
  }

  /** and onto: every state is the mix of another. */
  lemma MixOnto(s: Abc)
    ensures Mix(Unmix(s)) == s
  {
    hide Stir, Unstir;
    var Two(c3, b3) := Unstir(s.c, s.a, s.b, 4);
    var Two(b2, a3) := Unstir(b3, c3, s.a, 19);
    var Two(a2, c2) := Unstir(a3, b2, c3, 16);
    var Two(c1, b1) := Unstir(c2, a2, b2, 8);
    var Two(b0, a1) := Unstir(b1, c1, a2, 6);
    UnstirStir(s.c, s.a, s.b, 4);
    UnstirStir(b3, c3, s.a, 19);
    UnstirStir(a3, b2, c3, 16);
    UnstirStir(c2, a2, b2, 8);
    UnstirStir(b1, c1, a2, 6);
    UnstirStir(a1, b0, c1, 4);
  }

  /** x ^= y; x -= rot(y,k) */
  function Blend(x: bv32, y: bv32, k: nat): bv32
    requires 0 < k < 32
  {
    Minus(Xor(x, y), Rot(y, k))
  }

  function FinalMix(s: Abc): Abc {
    var c1 := Blend(s.c, s.b, 14);
    var a1 := Blend(s.a, c1, 11);
    var b1 := Blend(s.b, a1, 25);
    var c2 := Blend(c1, b1, 16);
    var a2 := Blend(a1, c2, 4);
    var b2 := Blend(b1, a2, 14);
    Abc(a2, b2, Blend(c2, b2, 24))
  }

  function Final(s: Abc): bv32 {
    FinalMix(s).c
  }

  function Unblend(x: bv32, y: bv32, k: nat): bv32
    requires 0 < k < 32
  {
    Xor(Plus(x, Rot(y, k)), y)
  }

  lemma BlendUnblend(x: bv32, y: bv32, k: nat)
    requires 0 < k < 32
    ensures Unblend(Blend(x, y, k), y, k) == x
  {
    hide Rot, Plus, Minus, Xor;
    MinusPlus(Xor(x, y), Rot(y, k));
    XorTwice(x, y);
  }

  function Unfinal(s: Abc): Abc {
    var c2 := Unblend(s.c, s.b, 24);
    var b1 := Unblend(s.b, s.a, 14);
    var a1 := Unblend(s.a, c2, 4);
    var c1 := Unblend(c2, b1, 16);
    var b0 := Unblend(b1, a1, 25);
    var a0 := Unblend(a1, c1, 11);
    Abc(a0, b0, Unblend(c1, b0, 14))
  }

  /** final is reversible on the three words too. */
  lemma FinalReversible(s: Abc)
    ensures Unfinal(FinalMix(s)) == s
  {
    hide Blend, Unblend;
    var c1 := Blend(s.c, s.b, 14);
    var a1 := Blend(s.a, c1, 11);
    var b1 := Blend(s.b, a1, 25);
    var c2 := Blend(c1, b1, 16);
    var a2 := Blend(a1, c2, 4);
    var b2 := Blend(b1, a2, 14);
    BlendUnblend(s.c, s.b, 14);
    BlendUnblend(s.a, c1, 11);
    BlendUnblend(s.b, a1, 25);
    BlendUnblend(c1, b1, 16);
    BlendUnblend(a1, c2, 4);
    BlendUnblend(b1, a2, 14);
    BlendUnblend(c2, b2, 24);
  }

  // ----- words

  function Wide(b: bv8): bv32 {
    b as bv32
  }

  function Shift(x: bv32, k: nat): bv32
    requires k < 32
  {
    x << k
  }

  function Mask(x: bv32, m: bv32): bv32 {
    x & m
  }

  function Word(b0: bv8, b1: bv8, b2: bv8, b3: bv8): bv32 {
    (b0 as bv32) | ((b1 as bv32) << 8) | ((b2 as bv32) << 16) | ((b3 as bv32) << 24)
  }

  function Half(b0: bv8, b1: bv8): bv32 {
    (b0 as bv32) | ((b1 as bv32) << 8)
  }

  lemma PlusAssoc(x: bv32, y: bv32, z: bv32)
    ensures Plus(Plus(x, y), z) == Plus(x, Plus(y, z))
  {
    assert Plus(x + y, z) == x + y + z;
    assert Plus(x, y + z) == x + y + z;
  }

  lemma PlusComm(x: bv32, y: bv32)
    ensures Plus(x, y) == Plus(y, x)
  {
  }

  /** A byte above what a word has so far adds like a bit-or. */
  lemma Join1(b0: bv8, b1: bv8)
    ensures Plus(Wide(b0), Shift(Wide(b1), 8)) == Half(b0, b1)
  {
    assert Shift(b1 as bv32, 8) == (b1 as bv32) << 8;
    assert Plus(b0 as bv32, (b1 as bv32) << 8) == Half(b0, b1);
  }

  lemma Join2(b0: bv8, b1: bv8, b2: bv8)
    ensures Plus(Half(b0, b1), Shift(Wide(b2), 16)) == Word(b0, b1, b2, 0)
  {
    assert Shift(b2 as bv32, 16) == (b2 as bv32) << 16;
    assert Plus((b0 as bv32) | ((b1 as bv32) << 8), (b2 as bv32) << 16) == Word(b0, b1, b2, 0);
  }

  lemma Join3(b0: bv8, b1: bv8, b2: bv8, b3: bv8)
    ensures Plus(Word(b0, b1, b2, 0), Shift(Wide(b3), 24)) == Word(b0, b1, b2, b3)
  {
    assert Shift(b3 as bv32, 24) == (b3 as bv32) << 24;
    assert Plus((b0 as bv32) | ((b1 as bv32) << 8) | ((b2 as bv32) << 16), (b3 as bv32) << 24) == Word(b0, b1, b2, b3);
    assert Word(b0, b1, b2, 0) == (b0 as bv32) | ((b1 as bv32) << 8) | ((b2 as bv32) << 16);
  }

  lemma JoinHalves(b0: bv8, b1: bv8, b2: bv8, b3: bv8)
    ensures Plus(Half(b0, b1), Shift(Half(b2, b3), 16)) == Word(b0, b1, b2, b3)
  {
    assert Shift((b2 as bv32) | ((b3 as bv32) << 8), 16) == ((b2 as bv32) << 16) | ((b3 as bv32) << 24);
    assert Plus((b0 as bv32) | ((b1 as bv32) << 8), ((b2 as bv32) << 16) | ((b3 as bv32) << 24)) == Word(b0, b1, b2, b3);
  }

  lemma ShortWords(b0: bv8, b1: bv8)
    ensures Word(b0, 0, 0, 0) == Wide(b0) && Word(b0, b1, 0, 0) == Half(b0, b1)
  {
  }

  /** Adding the bytes one by one, lowest first, adds the word. */
  lemma AddUp(x: bv32, b0: bv8, b1: bv8, b2: bv8, b3: bv8)
    ensures Plus(Plus(Plus(Plus(x, Wide(b0)), Shift(Wide(b1), 8)), Shift(Wide(b2), 16)), Shift(Wide(b3), 24)) == Plus(x, Word(b0, b1, b2, b3))
  {
    hide Plus, Shift, Wide, Half, Word;
    PlusAssoc(x, Wide(b0), Shift(Wide(b1), 8));
    Join1(b0, b1);
    PlusAssoc(x, Half(b0, b1), Shift(Wide(b2), 16));
    Join2(b0, b1, b2);
    PlusAssoc(x, Word(b0, b1, b2, 0), Shift(Wide(b3), 24));
    Join3(b0, b1, b2, b3);
  }

  /** Or highest first, from any byte down. */
  lemma AddDown1(x: bv32, b0: bv8, b1: bv8)
    ensures Plus(Plus(x, Shift(Wide(b1), 8)), Wide(b0)) == Plus(x, Half(b0, b1))
  {
    hide Plus, Shift, Wide, Half;
    PlusAssoc(x, Shift(Wide(b1), 8), Wide(b0));
    PlusComm(Shift(Wide(b1), 8), Wide(b0));
    Join1(b0, b1);
  }

  lemma AddDown2(x: bv32, b0: bv8, b1: bv8, b2: bv8)
    ensures Plus(Plus(x, Shift(Wide(b2), 16)), Half(b0, b1)) == Plus(x, Word(b0, b1, b2, 0))
    ensures Plus(Plus(Plus(x, Shift(Wide(b2), 16)), Shift(Wide(b1), 8)), Wide(b0)) == Plus(x, Word(b0, b1, b2, 0))
  {
    hide Plus, Shift, Wide, Half, Word;
    PlusAssoc(x, Shift(Wide(b2), 16), Half(b0, b1));
    PlusComm(Shift(Wide(b2), 16), Half(b0, b1));
    Join2(b0, b1, b2);
    AddDown1(Plus(x, Shift(Wide(b2), 16)), b0, b1);
  }

  lemma AddDown3(x: bv32, b0: bv8, b1: bv8, b2: bv8, b3: bv8)
    ensures Plus(Plus(Plus(Plus(x, Shift(Wide(b3), 24)), Shift(Wide(b2), 16)), Shift(Wide(b1), 8)), Wide(b0)) == Plus(x, Word(b0, b1, b2, b3))
  {
    hide Plus, Shift, Wide, Half, Word;
    AddDown2(Plus(x, Shift(Wide(b3), 24)), b0, b1, b2);
    PlusAssoc(x, Shift(Wide(b3), 24), Word(b0, b1, b2, 0));
    PlusComm(Shift(Wide(b3), 24), Word(b0, b1, b2, 0));
    Join3(b0, b1, b2, b3);
  }

  lemma Mask3(b0: bv8, b1: bv8, b2: bv8, b3: bv8)
    ensures Mask(Word(b0, b1, b2, b3), 0xffffff) == Word(b0, b1, b2, 0)
  {
  }

  lemma Mask2(b0: bv8, b1: bv8, b2: bv8, b3: bv8)
    ensures Mask(Word(b0, b1, b2, b3), 0xffff) == Word(b0, b1, 0, 0)
  {
  }

  lemma Mask1(b0: bv8, b1: bv8, b2: bv8, b3: bv8)
    ensures Mask(Word(b0, b1, b2, b3), 0xff) == Word(b0, 0, 0, 0)
  {
  }

  lemma PlusZero(x: bv32)
    ensures Plus(x, Word(0, 0, 0, 0)) == x
  {
    assert Word(0, 0, 0, 0) == 0;
  }

  // ----- the hash of a byte string

  function At(key: seq<bv8>, j: nat): bv8 {
    if j < |key| then key[j] else 0
  }

  /** The word at offset j of the key, which counts as zero past its end. */
  function WordAt(key: seq<bv8>, j: nat): bv32 {
    Word(At(key, j), At(key, j + 1), At(key, j + 2), At(key, j + 3))
  }

  function Added(key: seq<bv8>, s: Abc): Abc {
    Abc(Plus(s.a, WordAt(key, 0)), Plus(s.b, WordAt(key, 4)), Plus(s.c, WordAt(key, 8)))
  }

  /** Blocks of twelve bytes are added and mixed in; the last block is added and finished. */
  function Absorb(key: seq<bv8>, s: Abc): bv32 {
    if |key| > 12 then Absorb(key[12..], Mix(Added(key, s)))
    else if key == [] then s.c
    else Final(Added(key, s))
  }

  function Start(length: nat): Abc {
    var x := 0xdeadbeef + ((length % 0x1_0000_0000) as bv32);
    Abc(x, x, x)
  }

  /** What the hash of a key is, wherever the key lies. */
  function Hash(key: seq<bv8>): bv32 {
    Absorb(key, Start(|key|))
  }

  // ----- reading it from memory

  function KeyAt(mem: Memory, p: nat, n: nat): (key: seq<bv8>)
    ensures |key| == n && forall j | 0 <= j < n :: key[j] == mem(p + j)
  {
    seq(n, j requires 0 <= j => mem(p + j))
  }

  function Load32(mem: Memory, a: nat): bv32 {
    Word(mem(a), mem(a + 1), mem(a + 2), mem(a + 3))
  }

  function Load16(mem: Memory, a: nat): bv32 {
    Half(mem(a), mem(a + 1))
  }

  function Load8(mem: Memory, a: nat): bv32 {
    Wide(mem(a))
  }

  lemma KeyRest(mem: Memory, p: nat, n: nat)
    requires 12 < n
    ensures KeyAt(mem, p, n)[12..] == KeyAt(mem, p + 12, n - 12)
  {
    var x, y := KeyAt(mem, p, n)[12..], KeyAt(mem, p + 12, n - 12);
    assert forall j | 0 <= j < n - 12 :: x[j] == KeyAt(mem, p, n)[12 + j] == mem(p + 12 + j) == y[j];
  }

  /** A whole word of the key. */
  lemma WholeWord(mem: Memory, p: nat, n: nat, j: nat)
    requires j + 4 <= n
    ensures WordAt(KeyAt(mem, p, n), j) == Load32(mem, p + j)
  {
  }

  lemma NoWord(mem: Memory, p: nat, n: nat, j: nat, x: bv32)
    requires n <= j
    ensures Plus(x, WordAt(KeyAt(mem, p, n), j)) == x
  {
    hide Plus, Word;
    PlusZero(x);
  }

  // ----- 32-bit reads, for a key on a word boundary

  /** The first r bytes of a word; the masks cut off what lies past the key. */
  function Cut(w: bv32, r: nat): bv32
    requires 0 < r
  {
    if r == 1 then Mask(w, 0xff) else if r == 2 then Mask(w, 0xffff) else if r == 3 then Mask(w, 0xffffff) else w
  }

  lemma CutWord(mem: Memory, p: nat, n: nat, j: nat)
    requires j < n
    ensures WordAt(KeyAt(mem, p, n), j) == Cut(Load32(mem, p + j), n - j)
  {
    hide Word, Mask;
    var a := p + j;
    Mask3(mem(a), mem(a + 1), mem(a + 2), mem(a + 3));
    Mask2(mem(a), mem(a + 1), mem(a + 2), mem(a + 3));
    Mask1(mem(a), mem(a + 1), mem(a + 2), mem(a + 3));
  }

  /** The three words of a last block, whole, masked or missing. */
  lemma TailSpec(mem: Memory, k: nat, n: nat, s: Abc)
    requires 0 < n <= 12
    ensures Added(KeyAt(mem, k, n), s)
         == Abc(Plus(s.a, Cut(Load32(mem, k), n)),
                if 4 < n then Plus(s.b, Cut(Load32(mem, k + 4), n - 4)) else s.b,
                if 8 < n then Plus(s.c, Cut(Load32(mem, k + 8), n - 8)) else s.c)
  {
    hide Plus, WordAt, KeyAt, Load32, Cut;
    CutWord(mem, k, n, 0);
    if 4 < n {
      CutWord(mem, k, n, 4);
    } else {
      NoWord(mem, k, n, 4, s.b);
    }
    if 8 < n {
      CutWord(mem, k, n, 8);
    } else {
      NoWord(mem, k, n, 8, s.c);
    }
  }

  method TailWords(mem: Memory, k: nat, n: nat, s0: Abc) returns (s: Abc)
    requires 0 < n <= 12
    ensures s == Added(KeyAt(mem, k, n), s0)
  {
    hide Plus, Mask, Added, KeyAt, Load32;
    TailSpec(mem, k, n, s0);
    s := s0;
    if n == 12 {
      s := s.(c := Plus(s.c, Load32(mem, k + 8)));
      s := s.(b := Plus(s.b, Load32(mem, k + 4)));
      s := s.(a := Plus(s.a, Load32(mem, k)));
    } else if n == 11 {
      s := s.(c := Plus(s.c, Mask(Load32(mem, k + 8), 0xffffff)));
      s := s.(b := Plus(s.b, Load32(mem, k + 4)));
      s := s.(a := Plus(s.a, Load32(mem, k)));
    } else if n == 10 {
      s := s.(c := Plus(s.c, Mask(Load32(mem, k + 8), 0xffff)));
      s := s.(b := Plus(s.b, Load32(mem, k + 4)));
      s := s.(a := Plus(s.a, Load32(mem, k)));
    } else if n == 9 {
      s := s.(c := Plus(s.c, Mask(Load32(mem, k + 8), 0xff)));
      s := s.(b := Plus(s.b, Load32(mem, k + 4)));
      s := s.(a := Plus(s.a, Load32(mem, k)));
    } else if n == 8 {
      s := s.(b := Plus(s.b, Load32(mem, k + 4)));
      s := s.(a := Plus(s.a, Load32(mem, k)));
    } else if n == 7 {
      s := s.(b := Plus(s.b, Mask(Load32(mem, k + 4), 0xffffff)));
      s := s.(a := Plus(s.a, Load32(mem, k)));
    } else if n == 6 {
      s := s.(b := Plus(s.b, Mask(Load32(mem, k + 4), 0xffff)));
      s := s.(a := Plus(s.a, Load32(mem, k)));
    } else if n == 5 {
      s := s.(b := Plus(s.b, Mask(Load32(mem, k + 4), 0xff)));
      s := s.(a := Plus(s.a, Load32(mem, k)));
    } else if n == 4 {
      s := s.(a := Plus(s.a, Load32(mem, k)));
    } else if n == 3 {
      s := s.(a := Plus(s.a, Mask(Load32(mem, k), 0xffffff)));
    } else if n == 2 {
      s := s.(a := Plus(s.a, Mask(Load32(mem, k), 0xffff)));
    } else if n == 1 {
      s := s.(a := Plus(s.a, Mask(Load32(mem, k), 0xff)));
    }
  }

  /** One full block. */
  lemma FullBlock(mem: Memory, k: nat, n: nat, s: Abc)
    requires 12 <= n
    ensures Added(KeyAt(mem, k, n), s) == Abc(Plus(s.a, Load32(mem, k)), Plus(s.b, Load32(mem, k + 4)), Plus(s.c, Load32(mem, k + 8)))
  {
    hide Plus, WordAt, KeyAt, Load32;
    WholeWord(mem, k, n, 0);
    WholeWord(mem, k, n, 4);
    WholeWord(mem, k, n, 8);
  }

  lemma NextBlock(mem: Memory, k: nat, n: nat, s: Abc)
    requires 12 < n
    ensures Absorb(KeyAt(mem, k, n), s) == Absorb(KeyAt(mem, k + 12, n - 12), Mix(Added(KeyAt(mem, k, n), s)))
  {
    hide Mix, Added;
    KeyRest(mem, k, n);
  }

  lemma LastBlock(mem: Memory, k: nat, n: nat, s: Abc)
    requires n <= 12
    ensures Absorb(KeyAt(mem, k, n), s) == if n == 0 then s.c else Final(Added(KeyAt(mem, k, n), s))
  {
  }

  method HashWords(mem: Memory, p: nat, length: nat) returns (h: bv32)
    ensures h == Hash(KeyAt(mem, p, length))
  {
    hide Plus, Absorb, Mix, Final, Added, KeyAt, Load32;
    var s, k, n := Start(length), p, length;
    while n > 12
      invariant Absorb(KeyAt(mem, k, n), s) == Absorb(KeyAt(mem, p, length), Start(length))
      decreases n
    {
      NextBlock(mem, k, n, s);
      FullBlock(mem, k, n, s);
      s := Mix(Abc(Plus(s.a, Load32(mem, k)), Plus(s.b, Load32(mem, k + 4)), Plus(s.c, Load32(mem, k + 8))));
      k, n := k + 12, n - 12;
    }
    LastBlock(mem, k, n, s);
    if n == 0 {
      return s.c;
    }
    s := TailWords(mem, k, n, s);
    h := Final(s);
  }

  // ----- 16-bit reads

  lemma TwoHalves(mem: Memory, a: nat)
    ensures Plus(Load16(mem, a), Shift(Load16(mem, a + 2), 16)) == Load32(mem, a)
  {
    hide Plus, Shift, Half, Word;
    JoinHalves(mem(a), mem(a + 1), mem(a + 2), mem(a + 3));
  }

  /** What the 16-bit path adds for a word of which r bytes are left. */
  function HalvesAdded(mem: Memory, a: nat, r: nat, x: bv32): bv32 {
    if r == 0 then x
    else if r == 1 then Plus(x, Load8(mem, a))
    else if r == 2 then Plus(x, Load16(mem, a))
    else if r == 3 then Plus(Plus(x, Shift(Load8(mem, a + 2), 16)), Load16(mem, a))
    else Plus(x, Plus(Load16(mem, a), Shift(Load16(mem, a + 2), 16)))
  }

  lemma PartWordHalves(mem: Memory, p: nat, n: nat, j: nat, x: bv32)
    requires j < n < j + 4
    ensures Plus(x, WordAt(KeyAt(mem, p, n), j)) == HalvesAdded(mem, p + j, n - j, x)
  {
    hide Plus, Shift, Wide, Half, Word;
    var a := p + j;
    AddDown2(x, mem(a), mem(a + 1), mem(a + 2));
    ShortWords(mem(a), mem(a + 1));
  }

  lemma HalvesWord(mem: Memory, p: nat, n: nat, j: nat, x: bv32)
    ensures Plus(x, WordAt(KeyAt(mem, p, n), j)) == HalvesAdded(mem, p + j, if j <= n then n - j else 0, x)
  {
    hide Plus, Shift, WordAt, KeyAt, Load32, Load16, Load8;
    if n <= j {
      NoWord(mem, p, n, j, x);
    } else if j + 4 <= n {
      WholeWord(mem, p, n, j);
      TwoHalves(mem, p + j);
    } else {
      PartWordHalves(mem, p, n, j, x);
    }
  }

  lemma TailHalvesSpec(mem: Memory, k: nat, n: nat, s: Abc)
    requires 0 < n <= 12
    ensures Added(KeyAt(mem, k, n), s)
         == Abc(HalvesAdded(mem, k, n, s.a), HalvesAdded(mem, k + 4, if 4 <= n then n - 4 else 0, s.b),
                HalvesAdded(mem, k + 8, if 8 <= n then n - 8 else 0, s.c))
  {
    hide Plus, WordAt, KeyAt, HalvesAdded;
    HalvesWord(mem, k, n, 0, s.a);
    HalvesWord(mem, k, n, 4, s.b);
    HalvesWord(mem, k, n, 8, s.c);
  }

  method TailHalves(mem: Memory, k: nat, n: nat, s0: Abc) returns (s: Abc)
    requires 0 < n <= 12
    ensures s == Added(KeyAt(mem, k, n), s0)
  {
    hide Plus, Shift, Added, KeyAt, Load16, Load8;
    TailHalvesSpec(mem, k, n, s0);
    s := s0;
    if n == 12 {
      s := s.(c := Plus(s.c, Plus(Load16(mem, k + 8), Shift(Load16(mem, k + 10), 16))));
      s := s.(b := Plus(s.b, Plus(Load16(mem, k + 4), Shift(Load16(mem, k + 6), 16))));
      s := s.(a := Plus(s.a, Plus(Load16(mem, k), Shift(Load16(mem, k + 2), 16))));
    } else if n == 11 {
      s := s.(c := Plus(Plus(s.c, Shift(Load8(mem, k + 10), 16)), Load16(mem, k + 8)));
      s := s.(b := Plus(s.b, Plus(Load16(mem, k + 4), Shift(Load16(mem, k + 6), 16))));
      s := s.(a := Plus(s.a, Plus(Load16(mem, k), Shift(Load16(mem, k + 2), 16))));
    } else if n == 10 {
      s := s.(c := Plus(s.c, Load16(mem, k + 8)));
      s := s.(b := Plus(s.b, Plus(Load16(mem, k + 4), Shift(Load16(mem, k + 6), 16))));
      s := s.(a := Plus(s.a, Plus(Load16(mem, k), Shift(Load16(mem, k + 2), 16))));
    } else if n == 9 {
      s := s.(c := Plus(s.c, Load8(mem, k + 8)));
      s := s.(b := Plus(s.b, Plus(Load16(mem, k + 4), Shift(Load16(mem, k + 6), 16))));
      s := s.(a := Plus(s.a, Plus(Load16(mem, k), Shift(Load16(mem, k + 2), 16))));
    } else if n == 8 {
      s := s.(b := Plus(s.b, Plus(Load16(mem, k + 4), Shift(Load16(mem, k + 6), 16))));
      s := s.(a := Plus(s.a, Plus(Load16(mem, k), Shift(Load16(mem, k + 2), 16))));
    } else if n == 7 {
      s := s.(b := Plus(Plus(s.b, Shift(Load8(mem, k + 6), 16)), Load16(mem, k + 4)));
      s := s.(a := Plus(s.a, Plus(Load16(mem, k), Shift(Load16(mem, k + 2), 16))));
    } else if n == 6 {
      s := s.(b := Plus(s.b, Load16(mem, k + 4)));
      s := s.(a := Plus(s.a, Plus(Load16(mem, k), Shift(Load16(mem, k + 2), 16))));
    } else if n == 5 {
      s := s.(b := Plus(s.b, Load8(mem, k + 4)));
      s := s.(a := Plus(s.a, Plus(Load16(mem, k), Shift(Load16(mem, k + 2), 16))));
    } else if n == 4 {
      s := s.(a := Plus(s.a, Plus(Load16(mem, k), Shift(Load16(mem, k + 2), 16))));
    } else if n == 3 {
      s := s.(a := Plus(Plus(s.a, Shift(Load8(mem, k + 2), 16)), Load16(mem, k)));
    } else if n == 2 {
      s := s.(a := Plus(s.a, Load16(mem, k)));
    } else if n == 1 {
      s := s.(a := Plus(s.a, Load8(mem, k)));
    }
  }

  method HashHalves(mem: Memory, p: nat, length: nat) returns (h: bv32)
    ensures h == Hash(KeyAt(mem, p, length))
  {
    hide Plus, Shift, Absorb, Mix, Final, Added, KeyAt, Load32, Load16;
    var s, k, n := Start(length), p, length;
    while n > 12
      invariant Absorb(KeyAt(mem, k, n), s) == Absorb(KeyAt(mem, p, length), Start(length))
      decreases n
    {
      NextBlock(mem, k, n, s);
      FullBlock(mem, k, n, s);
      TwoHalves(mem, k);
      TwoHalves(mem, k + 4);
      TwoHalves(mem, k + 8);
      var a := Plus(s.a, Plus(Load16(mem, k), Shift(Load16(mem, k + 2), 16)));
      var b := Plus(s.b, Plus(Load16(mem, k + 4), Shift(Load16(mem, k + 6), 16)));
      var c := Plus(s.c, Plus(Load16(mem, k + 8), Shift(Load16(mem, k + 10), 16)));
      s := Mix(Abc(a, b, c));
      k, n := k + 12, n - 12;
    }
    LastBlock(mem, k, n, s);
    if n == 0 {
      return s.c;
    }
    s := TailHalves(mem, k, n, s);
    h := Final(s);
  }

  // ----- reads of one byte at a time

  lemma FourBytes(mem: Memory, a: nat, x: bv32)
    ensures Plus(Plus(Plus(Plus(x, Load8(mem, a)), Shift(Load8(mem, a + 1), 8)), Shift(Load8(mem, a + 2), 16)), Shift(Load8(mem, a + 3), 24))
         == Plus(x, Load32(mem, a))
  {
    hide Plus, Shift, Wide, Word;
    AddUp(x, mem(a), mem(a + 1), mem(a + 2), mem(a + 3));
  }

  /** What the byte path adds for a word of which r bytes are left, highest byte first. */
  function BytesAdded(mem: Memory, a: nat, r: nat, x: bv32): bv32 {
    if r == 0 then x
    else
      var x3 := if 4 <= r then Plus(x, Shift(Load8(mem, a + 3), 24)) else x;
      var x2 := if 3 <= r then Plus(x3, Shift(Load8(mem, a + 2), 16)) else x3;
      var x1 := if 2 <= r then Plus(x2, Shift(Load8(mem, a + 1), 8)) else x2;
      Plus(x1, Load8(mem, a))
  }

  lemma BytesWord(mem: Memory, p: nat, n: nat, j: nat, x: bv32)
    ensures Plus(x, WordAt(KeyAt(mem, p, n), j)) == BytesAdded(mem, p + j, if j <= n then n - j else 0, x)
  {
    hide Plus, Shift, Wide, Half, Word;
    var a := p + j;
    if n <= j {
      NoWord(mem, p, n, j, x);
    } else {
      AddDown3(x, mem(a), mem(a + 1), mem(a + 2), mem(a + 3));
      AddDown2(x, mem(a), mem(a + 1), mem(a + 2));
      AddDown1(x, mem(a), mem(a + 1));
      ShortWords(mem(a), mem(a + 1));
    }
  }

  lemma TailBytesSpec(mem: Memory, k: nat, n: nat, s: Abc)
    requires 0 < n <= 12
    ensures Added(KeyAt(mem, k, n), s)
         == Abc(BytesAdded(mem, k, n, s.a), BytesAdded(mem, k + 4, if 4 <= n then n - 4 else 0, s.b),
                BytesAdded(mem, k + 8, if 8 <= n then n - 8 else 0, s.c))
  {
    hide Plus, WordAt, KeyAt, BytesAdded;
    BytesWord(mem, k, n, 0, s.a);
    BytesWord(mem, k, n, 4, s.b);
    BytesWord(mem, k, n, 8, s.c);
  }

  /** The last block: every case falls through to the next. */
  method TailBytes(mem: Memory, k: nat, n: nat, s0: Abc) returns (s: Abc)
    requires 0 < n <= 12
    ensures s == Added(KeyAt(mem, k, n), s0)
  {
    hide Plus, Shift, Added, KeyAt, Load8;
    TailBytesSpec(mem, k, n, s0);
    s := s0;
    if n >= 12 {
      s := s.(c := Plus(s.c, Shift(Load8(mem, k + 11), 24)));
    }
    if n >= 11 {
      s := s.(c := Plus(s.c, Shift(Load8(mem, k + 10), 16)));
    }
    if n >= 10 {
      s := s.(c := Plus(s.c, Shift(Load8(mem, k + 9), 8)));
    }
    if n >= 9 {
      s := s.(c := Plus(s.c, Load8(mem, k + 8)));
    }
    if n >= 8 {
      s := s.(b := Plus(s.b, Shift(Load8(mem, k + 7), 24)));
    }
    if n >= 7 {
      s := s.(b := Plus(s.b, Shift(Load8(mem, k + 6), 16)));
    }
    if n >= 6 {
      s := s.(b := Plus(s.b, Shift(Load8(mem, k + 5), 8)));
    }
    if n >= 5 {
      s := s.(b := Plus(s.b, Load8(mem, k + 4)));
    }
    if n >= 4 {
      s := s.(a := Plus(s.a, Shift(Load8(mem, k + 3), 24)));
    }
    if n >= 3 {
      s := s.(a := Plus(s.a, Shift(Load8(mem, k + 2), 16)));
    }
    if n >= 2 {
      s := s.(a := Plus(s.a, Shift(Load8(mem, k + 1), 8)));
    }
    if n >= 1 {
      s := s.(a := Plus(s.a, Load8(mem, k)));
    }
  }

  method HashBytes(mem: Memory, p: nat, length: nat) returns (h: bv32)
    ensures h == Hash(KeyAt(mem, p, length))
  {
    hide Plus, Shift, Absorb, Mix, Final, Added, KeyAt, Load32, Load8;
    var s, k, n := Start(length), p, length;
    while n > 12
      invariant Absorb(KeyAt(mem, k, n), s) == Absorb(KeyAt(mem, p, length), Start(length))
      decreases n
    {
      NextBlock(mem, k, n, s);
      FullBlock(mem, k, n, s);
      FourBytes(mem, k, s.a);
      FourBytes(mem, k + 4, s.b);
      FourBytes(mem, k + 8, s.c);
      var a := Plus(s.a, Load8(mem, k));
      a := Plus(a, Shift(Load8(mem, k + 1), 8));
      a := Plus(a, Shift(Load8(mem, k + 2), 16));
      a := Plus(a, Shift(Load8(mem, k + 3), 24));
      var b := Plus(s.b, Load8(mem, k + 4));
      b := Plus(b, Shift(Load8(mem, k + 5), 8));
      b := Plus(b, Shift(Load8(mem, k + 6), 16));
      b := Plus(b, Shift(Load8(mem, k + 7), 24));
      var c := Plus(s.c, Load8(mem, k + 8));
      c := Plus(c, Shift(Load8(mem, k + 9), 8));
      c := Plus(c, Shift(Load8(mem, k + 10), 16));
      c := Plus(c, Shift(Load8(mem, k + 11), 24));
      s := Mix(Abc(a, b, c));
      k, n := k + 12, n - 12;
    }
    LastBlock(mem, k, n, s);
    if n == 0 {
      return s.c;
    }
    s := TailBytes(mem, k, n, s);
    h := Final(s);
  }

  /** jenkins_hash: the alignment of the key chooses how it is read, and does not change the
      result, nor do the bytes around the key. */
  method Jenkins(mem: Memory, p: nat, length: nat) returns (h: bv32)
    ensures h == Hash(KeyAt(mem, p, length))
  {
    if p % 4 == 0 {
      h := HashWords(mem, p, length);
    } else if p % 2 == 0 {
      h := HashHalves(mem, p, length);
    } else {
      h := HashBytes(mem, p, length);
    }
  }

  // ----- known values

  lemma HashOfNothing()
    ensures Hash([]) == 0xdeadbeef
  {
  }

  /** "Four score and seven years ago" */
  const GETTYSBURG: seq<bv8> := [
    70, 111, 117, 114, 32, 115, 99, 111, 114, 101, 32, 97,
    110, 100, 32, 115, 101, 118, 101, 110, 32, 121, 101, 97,
    114, 115, 32, 97, 103, 111]

  lemma FirstBlock()
    ensures Added(GETTYSBURG, Start(30)) == Abc(0x51232e53, 0x4e11322d, 0x3fce247f)
  {
    hide WordAt, Start;
    FirstWords();
    StartAtThirty();
    assert Plus(0xdeadbf0d, 0x72756f46) == 0x51232e53 && Plus(0xdeadbf0d, 0x6f637320) == 0x4e11322d && Plus(0xdeadbf0d, 0x61206572) == 0x3fce247f;
  }

  lemma StartAtThirty()
    ensures Start(30) == Abc(0xdeadbf0d, 0xdeadbf0d, 0xdeadbf0d)
  {
  }

  lemma FirstWords()
    ensures WordAt(GETTYSBURG, 0) == 0x72756f46 && WordAt(GETTYSBURG, 4) == 0x6f637320 && WordAt(GETTYSBURG, 8) == 0x61206572
  {
    hide Word;
    assert WordAt(GETTYSBURG, 0) == Word(70, 111, 117, 114);
    assert WordAt(GETTYSBURG, 4) == Word(32, 115, 99, 111);
    assert WordAt(GETTYSBURG, 8) == Word(114, 101, 32, 97);
    WordValues();
  }

  lemma WordValues()
    ensures Word(70, 111, 117, 114) == 0x72756f46 && Word(32, 115, 99, 111) == 0x6f637320 && Word(114, 101, 32, 97) == 0x61206572
  {
  }

  lemma FirstMix()
    ensures Mix(Abc(0x51232e53, 0x4e11322d, 0x3fce247f)) == Abc(0xf859ad7a, 0x04bc57ae, 0x40dddd7e)
  {
    assert Stir(0x51232e53, 0x4e11322d, 0x3fce247f, 4) == Two(0xedb74e27, 0x8ddf56ac);
    assert Stir(0x4e11322d, 0x8ddf56ac, 0xedb74e27, 6) == Two(0x0d8a6dfd, 0x7b96a4d3);
    assert Stir(0x8ddf56ac, 0x7b96a4d3, 0x0d8a6dfd, 8) == Two(0x0a3915a2, 0x892112d0);
    assert Stir(0x7b96a4d3, 0x892112d0, 0x0a3915a2, 16) == Two(0x64ff8508, 0x935a2872);
    assert Stir(0x892112d0, 0x935a2872, 0x64ff8508, 19) == Two(0x0c62aa34, 0xf859ad7a);
    assert Stir(0x935a2872, 0xf859ad7a, 0x0c62aa34, 4) == Two(0x40dddd7e, 0x04bc57ae);
  }

  lemma SecondBlock()
    ensures Added(GETTYSBURG[12..], Abc(0xf859ad7a, 0x04bc57ae, 0x40dddd7e)) == Abc(0x6b7a11e8, 0x7321ce13, 0xa243569e)
  {
    var key := GETTYSBURG[12..];
    assert WordAt(key, 0) == Word(110, 100, 32, 115) == 0x7320646e;
    assert WordAt(key, 4) == Word(101, 118, 101, 110) == 0x6e657665;
    assert WordAt(key, 8) == Word(32, 121, 101, 97) == 0x61657920;
  }

  lemma SecondMix()
    ensures Mix(Abc(0x6b7a11e8, 0x7321ce13, 0xa243569e)) == Abc(0x336aded2, 0x059f2642, 0xbd02ebd5)
  {
    assert Stir(0x6b7a11e8, 0x7321ce13, 0xa243569e, 4) == Two(0xed03d2a0, 0x156524b1);
    assert Stir(0x7321ce13, 0x156524b1, 0xed03d2a0, 6) == Two(0xc6e95348, 0x0268f751);
    assert Stir(0x156524b1, 0x0268f751, 0xc6e95348, 8) == Two(0xa72899af, 0xc9524a99);
    assert Stir(0x0268f751, 0xc9524a99, 0xa72899af, 16) == Two(0xc2effa8a, 0x707ae448);
    assert Stir(0xc9524a99, 0x707ae448, 0xc2effa8a, 19) == Two(0xd2344770, 0x336aded2);
    assert Stir(0x707ae448, 0x336aded2, 0xd2344770, 4) == Two(0xbd02ebd5, 0x059f2642);
  }

  lemma ThirdBlock()
    ensures Added(GETTYSBURG[24..], Abc(0x336aded2, 0x059f2642, 0xbd02ebd5)) == Abc(0x948b5244, 0x059f95a9, 0xbd02ebd5)
  {
    var key := GETTYSBURG[24..];
    assert WordAt(key, 0) == Word(114, 115, 32, 97) == 0x61207372;
    assert WordAt(key, 4) == Word(103, 111, 0, 0) == 0x00006f67;
    assert WordAt(key, 8) == Word(0, 0, 0, 0) == 0;
  }

  lemma LastFinal()
    ensures Final(Abc(0x948b5244, 0x059f95a9, 0xbd02ebd5)) == 0x17770551
  {
    assert Blend(0xbd02ebd5, 0x059f95a9, 14) == 0xd3333d15;
    assert Blend(0x948b5244, 0xd3333d15, 11) == 0xadcfc0b8;
    assert Blend(0x059f95a9, 0xadcfc0b8, 25) == 0x36f4b590;
    assert Blend(0xd3333d15, 0x36f4b590, 16) == 0x30375191;
    assert Blend(0xadcfc0b8, 0x30375191, 4) == 0x9a837816;
    assert Blend(0x36f4b590, 0x9a837816, 14) == 0xce7226e6;
    assert Blend(0x30375191, 0xce7226e6, 24) == 0x17770551;
  }

  /** The value that the published description of the hash gives for this key. */
  lemma KnownHash()
    ensures Hash(GETTYSBURG) == 0x17770551
  {
    hide Added, Mix, Final, Start;
    FirstBlock();
    FirstMix();
    SecondBlock();
    SecondMix();
    ThirdBlock();
    LastFinal();
    assert GETTYSBURG[12..][12..] == GETTYSBURG[24..];
    assert |GETTYSBURG| == 30 && |GETTYSBURG[24..]| == 6;
    var s2, s3 := Abc(0xf859ad7a, 0x04bc57ae, 0x40dddd7e), Abc(0x336aded2, 0x059f2642, 0xbd02ebd5);
    assert Absorb(GETTYSBURG[24..], s3) == 0x17770551;
    assert Absorb(GETTYSBURG[12..], s2) == Absorb(GETTYSBURG[24..], s3);
  }
}
