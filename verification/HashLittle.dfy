/** hashlittle of linkhash.c on a little-endian machine: the ways of reading the key, and the
    reversible mixing of its state. */
module HashLittle {
  type Byte = bv8

  /** uint32_t */
  type Word32 = bv32

  // ------------------------------------------------------------ operators of C on uint32_t

  function Plus(x: Word32, y: Word32): Word32 { x + y }

  function Minus(x: Word32, y: Word32): Word32 { x - y }

  function Xor(x: Word32, y: Word32): Word32 { x ^ y }

  /** rot(x, k) */
  function Rot(x: Word32, k: nat): Word32
    requires 0 < k < 32
  {
    (x << k) | (x >> (32 - k))
  }

  lemma XorTwice(x: Word32, r: Word32)
    ensures Xor(Xor(x, r), r) == x
  {
  }

  lemma PlusIs(x: Word32, y: Word32)
    ensures Plus(x, y) == x + y && Minus(x, y) == x - y
  {
  }

  lemma Cancels(x: Word32, y: Word32)
    ensures Minus(x + y, y) == x && Plus(x - y, y) == x
  {
  }

  lemma PlusMinus(x: Word32, y: Word32)
    ensures Minus(Plus(x, y), y) == x && Plus(Minus(x, y), y) == x
  {
    hide Plus, Minus;
    PlusIs(x, y);
    Cancels(x, y);
  }

  // ------------------------------------------------------------ mix

  /** The internal state. */
  datatype Abc = Abc(a: Word32, b: Word32, c: Word32)

  /** What a line of mix does first: x -= z; x ^= rot(z, k). */
  function LineX(x: Word32, z: Word32, r: Word32): Word32 { Xor(Minus(x, z), r) }

  /** mix(a, b, c) */
  function Mix(s: Abc): Abc {
    var (a, b, c) := (s.a, s.b, s.c);
    var a := LineX(a, c, Rot(c, 4));  var c := Plus(c, b);
    var b := LineX(b, a, Rot(a, 6));  var a := Plus(a, c);
    var c := LineX(c, b, Rot(b, 8));  var b := Plus(b, a);
    var a := LineX(a, c, Rot(c, 16)); var c := Plus(c, b);
    var b := LineX(b, a, Rot(a, 19)); var a := Plus(a, c);
    var c := LineX(c, b, Rot(b, 4));  var b := Plus(b, a);
    Abc(a, b, c)
  }

  /** What a line of final does: x ^= y; x -= rot(y, k). */
  function LineF(x: Word32, y: Word32, k: nat): Word32
    requires 0 < k < 32
  {
    Minus(Xor(x, y), Rot(y, k))
  }

  /** final(a, b, c) */
  function Finish(s: Abc): Abc {
    var (a, b, c) := (s.a, s.b, s.c);
    var c := LineF(c, b, 14);
    var a := LineF(a, c, 11);
    var b := LineF(b, a, 25);
    var c := LineF(c, b, 16);
    var a := LineF(a, c, 4);
    var b := LineF(b, a, 14);
    var c := LineF(c, b, 24);
    Abc(a, b, c)
  }

  /** What is used of it. */
  function Final(s: Abc): Word32 { Finish(s).c }

  function UnlineX(x: Word32, z: Word32, r: Word32): Word32 { Plus(Xor(x, r), z) }

  /** mix run backwards */
  function Unmix(s: Abc): Abc {
    var (a, b, c) := (s.a, s.b, s.c);
    var b := Minus(b, a); var c := UnlineX(c, b, Rot(b, 4));
    var a := Minus(a, c); var b := UnlineX(b, a, Rot(a, 19));
    var c := Minus(c, b); var a := UnlineX(a, c, Rot(c, 16));
    var b := Minus(b, a); var c := UnlineX(c, b, Rot(b, 8));
    var a := Minus(a, c); var b := UnlineX(b, a, Rot(a, 6));
    var c := Minus(c, b); var a := UnlineX(a, c, Rot(c, 4));
    Abc(a, b, c)
  }

  lemma LinesUndo(x: Word32, z: Word32, r: Word32)
    ensures UnlineX(LineX(x, z, r), z, r) == x && LineX(UnlineX(x, z, r), z, r) == x
  {
    hide Plus, Minus, Xor;
    XorTwice(Minus(x, z), r);
    XorTwice(x, r);
    PlusMinus(x, z);
    PlusMinus(Xor(x, r), z);
  }

  /** mix loses nothing. */
  lemma UnmixMix(s: Abc)
    ensures Unmix(Mix(s)) == s
  {
    hide LineX, UnlineX, Rot, Plus, Minus, Xor;
    var (a0, b0, c0) := (s.a, s.b, s.c);
    var a1 := LineX(a0, c0, Rot(c0, 4));  var c1 := Plus(c0, b0);
    var b1 := LineX(b0, a1, Rot(a1, 6));  var a2 := Plus(a1, c1);
    var c2 := LineX(c1, b1, Rot(b1, 8));  var b2 := Plus(b1, a2);
    var a3 := LineX(a2, c2, Rot(c2, 16)); var c3 := Plus(c2, b2);
    var b3 := LineX(b2, a3, Rot(a3, 19)); var a4 := Plus(a3, c3);
    var c4 := LineX(c3, b3, Rot(b3, 4));
    PlusMinus(b3, a4); LinesUndo(c3, b3, Rot(b3, 4));
    PlusMinus(a3, c3); LinesUndo(b2, a3, Rot(a3, 19));
    PlusMinus(c2, b2); LinesUndo(a2, c2, Rot(c2, 16));
    PlusMinus(b1, a2); LinesUndo(c1, b1, Rot(b1, 8));
    PlusMinus(a1, c1); LinesUndo(b0, a1, Rot(a1, 6));
    PlusMinus(c0, b0); LinesUndo(a0, c0, Rot(c0, 4));
  }

  lemma MixUnmix(s: Abc)
    ensures Mix(Unmix(s)) == s
  {
    hide LineX, UnlineX, Rot, Plus, Minus, Xor;
    var (a0, b0, c0) := (s.a, s.b, s.c);
    var b1 := Minus(b0, a0); var c1 := UnlineX(c0, b1, Rot(b1, 4));
    var a1 := Minus(a0, c1); var b2 := UnlineX(b1, a1, Rot(a1, 19));
    var c2 := Minus(c1, b2); var a2 := UnlineX(a1, c2, Rot(c2, 16));
    var b3 := Minus(b2, a2); var c3 := UnlineX(c2, b3, Rot(b3, 8));
    var a3 := Minus(a2, c3); var b4 := UnlineX(b3, a3, Rot(a3, 6));
    var c4 := Minus(c3, b4);
    PlusMinus(b0, a0); LinesUndo(c0, b1, Rot(b1, 4));
    PlusMinus(a0, c1); LinesUndo(b1, a1, Rot(a1, 19));
    PlusMinus(c1, b2); LinesUndo(a1, c2, Rot(c2, 16));
    PlusMinus(b2, a2); LinesUndo(c2, b3, Rot(b3, 8));
    PlusMinus(a2, c3); LinesUndo(b3, a3, Rot(a3, 6));
    PlusMinus(c3, b4); LinesUndo(a3, c4, Rot(c4, 4));
  }

  /** mix is a bijection on triples of words. */
  lemma MixIsBijection(s: Abc, t: Abc)
    ensures Mix(s) == Mix(t) <==> s == t
    ensures Mix(s) == t <==> s == Unmix(t)
  {
    hide Mix, Unmix;
    UnmixMix(s);
    UnmixMix(t);
    MixUnmix(t);
  }

  function UnlineF(x: Word32, y: Word32, k: nat): Word32
    requires 0 < k < 32
  {
    Xor(Plus(x, Rot(y, k)), y)
  }

  /** final run backwards */
  function Unfinish(s: Abc): Abc {
    var (a, b, c) := (s.a, s.b, s.c);
    var c := UnlineF(c, b, 24);
    var b := UnlineF(b, a, 14);
    var a := UnlineF(a, c, 4);
    var c := UnlineF(c, b, 16);
    var b := UnlineF(b, a, 25);
    var a := UnlineF(a, c, 11);
    var c := UnlineF(c, b, 14);
    Abc(a, b, c)
  }

  lemma LineFUndo(x: Word32, y: Word32, k: nat)
    requires 0 < k < 32
    ensures UnlineF(LineF(x, y, k), y, k) == x && LineF(UnlineF(x, y, k), y, k) == x
  {
    hide Plus, Minus, Xor, Rot;
    XorTwice(x, y);
    PlusMinus(Xor(x, y), Rot(y, k));
    XorTwice(Plus(x, Rot(y, k)), y);
    PlusMinus(x, Rot(y, k));
  }

  lemma UnfinishFinish(s: Abc)
    ensures Unfinish(Finish(s)) == s
  {
    hide LineF, UnlineF;
    var c1 := LineF(s.c, s.b, 14);
    var a1 := LineF(s.a, c1, 11);
    var b1 := LineF(s.b, a1, 25);
    var c2 := LineF(c1, b1, 16);
    var a2 := LineF(a1, c2, 4);
    var b2 := LineF(b1, a2, 14);
    LineFUndo(c2, b2, 24); LineFUndo(b1, a2, 14); LineFUndo(a1, c2, 4); LineFUndo(c1, b1, 16);
    LineFUndo(s.b, a1, 25); LineFUndo(s.a, c1, 11); LineFUndo(s.c, s.b, 14);
  }

  lemma FinishUnfinish(s: Abc)
    ensures Finish(Unfinish(s)) == s
  {
    hide LineF, UnlineF;
    var c1 := UnlineF(s.c, s.b, 24);
    var b1 := UnlineF(s.b, s.a, 14);
    var a1 := UnlineF(s.a, c1, 4);
    var c2 := UnlineF(c1, b1, 16);
    var b2 := UnlineF(b1, a1, 25);
    var a2 := UnlineF(a1, c2, 11);
    LineFUndo(s.c, s.b, 24); LineFUndo(s.b, s.a, 14); LineFUndo(s.a, c1, 4); LineFUndo(c1, b1, 16);
    LineFUndo(b1, a1, 25); LineFUndo(a1, c2, 11); LineFUndo(c2, b2, 14);
  }

  /** final is a bijection on triples of words. */
  lemma FinalIsBijection(s: Abc, t: Abc)
    ensures Finish(s) == Finish(t) <==> s == t
    ensures Finish(s) == t <==> s == Unfinish(t)
  {
    hide Finish, Unfinish;
    UnfinishFinish(s);
    UnfinishFinish(t);
    FinishUnfinish(t);
  }

  // ------------------------------------------------------------ words in memory

  /** A byte shifted to its place in a word: b << 8 * i */
  function Sh(b: Byte, i: nat): Word32
    requires i < 4
  {
    if i == 0 then b as Word32
    else if i == 1 then (b as Word32) << 8
    else if i == 2 then (b as Word32) << 16
    else (b as Word32) << 24
  }

  /** Two and four bytes as little-endian integers. */
  function Half(b0: Byte, b1: Byte): Word32 { (b0 as Word32) | ((b1 as Word32) << 8) }

  function Word(b0: Byte, b1: Byte, b2: Byte, b3: Byte): Word32 {
    (b0 as Word32) | ((b1 as Word32) << 8) | ((b2 as Word32) << 16) | ((b3 as Word32) << 24)
  }

  /** *(uint32_t *)(mem + i) */
  function Load32(mem: seq<Byte>, i: nat): Word32
    requires i + 4 <= |mem|
  {
    Word(mem[i], mem[i + 1], mem[i + 2], mem[i + 3])
  }

  /** *(uint16_t *)(mem + i) */
  function Load16(mem: seq<Byte>, i: nat): Word32
    requires i + 2 <= |mem|
  {
    Half(mem[i], mem[i + 1])
  }

  /** low + (high << 16) */
  function Join(low: Word32, high: Word32): Word32 { low + (high << 16) }

  /** word & mask for a mask of n bytes */
  function Low(word: Word32, n: nat): Word32
    requires 0 < n < 4
  {
    if n == 3 then word & 0xffffff else if n == 2 then word & 0xffff else word & 0xff
  }

  lemma LowOfWord(b0: Byte, b1: Byte, b2: Byte, b3: Byte)
    ensures Low(Word(b0, b1, b2, b3), 3) == Word(b0, b1, b2, 0)
    ensures Low(Word(b0, b1, b2, b3), 2) == Word(b0, b1, 0, 0)
    ensures Low(Word(b0, b1, b2, b3), 1) == Word(b0, 0, 0, 0)
  {
    Masks(b0 as Word32, b1 as Word32, b2 as Word32, b3 as Word32);
  }

  lemma Masks(x: Word32, y: Word32, z: Word32, w: Word32)
    requires x <= 0xff && y <= 0xff && z <= 0xff && w <= 0xff
    ensures (x | (y << 8) | (z << 16) | (w << 24)) & 0xffffff == x | (y << 8) | (z << 16) | (0 << 24)
    ensures (x | (y << 8) | (z << 16) | (w << 24)) & 0xffff == x | (y << 8) | (0 << 16) | (0 << 24)
    ensures (x | (y << 8) | (z << 16) | (w << 24)) & 0xff == x | (0 << 8) | (0 << 16) | (0 << 24)
  {
  }

  lemma HalvesOfWord(b0: Byte, b1: Byte, b2: Byte, b3: Byte)
    ensures Join(Half(b0, b1), Half(b2, b3)) == Word(b0, b1, b2, b3)
    ensures Half(b0, b1) == Word(b0, b1, 0, 0)
    ensures Sh(b0, 0) == Word(b0, 0, 0, 0)
  {
  }

  lemma PlusZero(x: Word32, i: nat)
    requires i < 4
    ensures Plus(x, Sh(0, i)) == x && Plus(x, Word(0, 0, 0, 0)) == x
  {
  }

  lemma Associates(x: Word32, y: Word32, z: Word32)
    ensures Plus(x + y, z) == Plus(x, y + z)
  {
  }

  lemma PlusAssoc(x: Word32, y: Word32, z: Word32)
    ensures Plus(Plus(x, y), z) == Plus(x, Plus(y, z))
  {
    hide Plus;
    PlusIs(x, y);
    PlusIs(y, z);
    Associates(x, y, z);
  }

  lemma PlusComm(x: Word32, y: Word32)
    ensures Plus(x, y) == Plus(y, x)
  {
  }

  lemma ShiftsSum(b0: Byte, b1: Byte, b2: Byte, b3: Byte)
    ensures Plus(Plus(Plus(Sh(b0, 0), Sh(b1, 1)), Sh(b2, 2)), Sh(b3, 3)) == Word(b0, b1, b2, b3)
    ensures Plus(Half(b0, b1), Sh(b2, 2)) == Word(b0, b1, b2, 0)
  {
  }

  /** The bytes of a word may be added one after the other, upwards or downwards. */
  lemma BytesUp(x: Word32, b0: Byte, b1: Byte, b2: Byte, b3: Byte)
    ensures Plus(Plus(Plus(Plus(x, Sh(b0, 0)), Sh(b1, 1)), Sh(b2, 2)), Sh(b3, 3)) == Plus(x, Word(b0, b1, b2, b3))
  {
    hide Plus, Sh, Word;
    var (s0, s1, s2, s3) := (Sh(b0, 0), Sh(b1, 1), Sh(b2, 2), Sh(b3, 3));
    ShiftsSum(b0, b1, b2, b3);
    PlusAssoc(x, s0, s1);
    PlusAssoc(x, Plus(s0, s1), s2);
    PlusAssoc(x, Plus(Plus(s0, s1), s2), s3);
  }

  lemma BytesDown(x: Word32, b0: Byte, b1: Byte, b2: Byte, b3: Byte)
    ensures Plus(Plus(Plus(Plus(x, Sh(b3, 3)), Sh(b2, 2)), Sh(b1, 1)), Sh(b0, 0)) == Plus(x, Word(b0, b1, b2, b3))
  {
    hide Plus, Sh, Word;
    var (s0, s1, s2, s3) := (Sh(b0, 0), Sh(b1, 1), Sh(b2, 2), Sh(b3, 3));
    ShiftsSum(b0, b1, b2, b3);
    PlusAssoc(x, s3, s2);
    PlusAssoc(x, Plus(s3, s2), s1);
    PlusAssoc(x, Plus(Plus(s3, s2), s1), s0);
    PlusComm(Plus(Plus(s3, s2), s1), s0);
    PlusComm(Plus(s3, s2), s1);
    PlusAssoc(s0, s1, Plus(s3, s2));
    PlusComm(s3, s2);
    PlusAssoc(Plus(s0, s1), s2, s3);
  }

  /** The third byte first, then the half word below it. */
  lemma ThreeBytes(x: Word32, b0: Byte, b1: Byte, b2: Byte)
    ensures Plus(Plus(x, Sh(b2, 2)), Half(b0, b1)) == Plus(x, Word(b0, b1, b2, 0))
  {
    hide Plus, Sh, Word, Half;
    ShiftsSum(b0, b1, b2, 0);
    PlusAssoc(x, Sh(b2, 2), Half(b0, b1));
    PlusComm(Sh(b2, 2), Half(b0, b1));
  }

  // ------------------------------------------------------------ the hash as a function

  /** A byte of the key; behind its end there are zeros. */
  function ByteAt(key: seq<Byte>, i: nat): Byte { if i < |key| then key[i] else 0 }

  function WordAt(key: seq<Byte>, i: nat): Word32 {
    Word(ByteAt(key, i), ByteAt(key, i + 1), ByteAt(key, i + 2), ByteAt(key, i + 3))
  }

  /** The first twelve bytes are added to the state. */
  function Feed(s: Abc, key: seq<Byte>): Abc {
    Abc(Plus(s.a, WordAt(key, 0)), Plus(s.b, WordAt(key, 4)), Plus(s.c, WordAt(key, 8)))
  }

  function HashFrom(s: Abc, key: seq<Byte>): Word32
    decreases |key|
  {
    if |key| > 12 then HashFrom(Mix(Feed(s, key)), key[12..])
    else if |key| == 0 then s.c
    else Final(Feed(s, key))
  }

  /** The state before the first block. */
  function Initial(length: nat, initval: Word32): Abc {
    var x := Plus(Plus(0xdeadbeef, (length % 0x1_0000_0000) as Word32), initval);
    Abc(x, x, x)
  }

  /** The hash of a key is a function of its bytes and the seed. */
  function Hash(key: seq<Byte>, initval: Word32): Word32 { HashFrom(Initial(|key|, initval), key) }

  // ------------------------------------------------------------ the three paths

  /** What is left of the key: length bytes of memory from position k on. */
  predicate InMemory(mem: seq<Byte>, k: nat, length: nat) { k + length <= |mem| }

  lemma FullBlock(mem: seq<Byte>, k: nat, length: nat)
    requires InMemory(mem, k, length) && length >= 12
    ensures var key := mem[k..k + length];
            && WordAt(key, 0) == Load32(mem, k) && WordAt(key, 4) == Load32(mem, k + 4) && WordAt(key, 8) == Load32(mem, k + 8)
            && key[12..] == mem[k + 12..k + length]
  {
    hide Word;
  }

  /** A whole word of the key, or a part of one, or none. */
  lemma PartOfWord(mem: seq<Byte>, k: nat, length: nat, i: nat)
    requires InMemory(mem, k, length)
    ensures var w := WordAt(mem[k..k + length], i);
            && (length >= i + 4 ==> w == Load32(mem, k + i))
            && (length == i + 3 ==> w == Word(mem[k + i], mem[k + i + 1], mem[k + i + 2], 0))
            && (length == i + 2 ==> w == Word(mem[k + i], mem[k + i + 1], 0, 0))
            && (length == i + 1 ==> w == Word(mem[k + i], 0, 0, 0))
            && (length <= i ==> w == Word(0, 0, 0, 0))
  {
    hide Word;
  }

  /** The mask makes a word read beyond the end of the key the part that belongs to it. */
  lemma MaskedWord(mem: seq<Byte>, k: nat, length: nat, i: nat)
    requires InMemory(mem, k, length) && k + i + 4 <= |mem|
    ensures var w := WordAt(mem[k..k + length], i);
            && (length >= i + 4 ==> w == Load32(mem, k + i))
            && (length == i + 3 ==> w == Low(Load32(mem, k + i), 3))
            && (length == i + 2 ==> w == Low(Load32(mem, k + i), 2))
            && (length == i + 1 ==> w == Low(Load32(mem, k + i), 1))
  {
    hide Word, Low;
    PartOfWord(mem, k, length, i);
    LowOfWord(mem[k + i], mem[k + i + 1], mem[k + i + 2], mem[k + i + 3]);
  }

  /** Words behind the end of the key add nothing. */
  lemma NoWord(mem: seq<Byte>, k: nat, length: nat, i: nat, x: Word32)
    requires InMemory(mem, k, length) && length <= i
    ensures Plus(x, WordAt(mem[k..k + length], i)) == x
  {
    hide Word, Plus;
    PartOfWord(mem, k, length, i);
    PlusZero(x, 0);
  }

  lemma NoWords(mem: seq<Byte>, k: nat, length: nat, s: Abc)
    requires InMemory(mem, k, length)
    ensures length <= 8 ==> Plus(s.c, WordAt(mem[k..k + length], 8)) == s.c
    ensures length <= 4 ==> Plus(s.b, WordAt(mem[k..k + length], 4)) == s.b
  {
    hide WordAt, Plus;
    if length <= 8 { NoWord(mem, k, length, 8, s.c); }
    if length <= 4 { NoWord(mem, k, length, 4, s.b); }
  }

  lemma LastBlock(key: seq<Byte>, s: Abc)
    requires |key| <= 12
    ensures HashFrom(s, key) == if |key| == 0 then s.c
            else Final(Abc(Plus(s.a, WordAt(key, 0)), Plus(s.b, WordAt(key, 4)), Plus(s.c, WordAt(key, 8))))
  {
    hide WordAt, Plus, Final;
  }

  /** The switch of the 32-bit path: words may reach beyond the key, up to the next multiple
      of four. */
  method TailWords(mem: seq<Byte>, k: nat, length: nat, s: Abc) returns (h: Word32)
    requires InMemory(mem, k, length) && length <= 12 && k + (length + 3) / 4 * 4 <= |mem|
    ensures h == HashFrom(s, mem[k..k + length])
  {
    hide WordAt, Load32, Low, Plus, Final, HashFrom, Feed;
    var a, b, c := s.a, s.b, s.c;
    LastBlock(mem[k..k + length], s);
    if length > 8 { MaskedWord(mem, k, length, 8); }
    if length > 4 { MaskedWord(mem, k, length, 4); }
    if length > 0 { MaskedWord(mem, k, length, 0); }
    NoWords(mem, k, length, s);
    if length == 12 { c := Plus(c, Load32(mem, k + 8)); b := Plus(b, Load32(mem, k + 4)); a := Plus(a, Load32(mem, k)); }
    else if length == 11 { c := Plus(c, Low(Load32(mem, k + 8), 3)); b := Plus(b, Load32(mem, k + 4)); a := Plus(a, Load32(mem, k)); }
    else if length == 10 { c := Plus(c, Low(Load32(mem, k + 8), 2)); b := Plus(b, Load32(mem, k + 4)); a := Plus(a, Load32(mem, k)); }
    else if length == 9 { c := Plus(c, Low(Load32(mem, k + 8), 1)); b := Plus(b, Load32(mem, k + 4)); a := Plus(a, Load32(mem, k)); }
    else if length == 8 { b := Plus(b, Load32(mem, k + 4)); a := Plus(a, Load32(mem, k)); }
    else if length == 7 { b := Plus(b, Low(Load32(mem, k + 4), 3)); a := Plus(a, Load32(mem, k)); }
    else if length == 6 { b := Plus(b, Low(Load32(mem, k + 4), 2)); a := Plus(a, Load32(mem, k)); }
    else if length == 5 { b := Plus(b, Low(Load32(mem, k + 4), 1)); a := Plus(a, Load32(mem, k)); }
    else if length == 4 { a := Plus(a, Load32(mem, k)); }
    else if length == 3 { a := Plus(a, Low(Load32(mem, k), 3)); }
    else if length == 2 { a := Plus(a, Low(Load32(mem, k), 2)); }
    else if length == 1 { a := Plus(a, Low(Load32(mem, k), 1)); }
    else { return c; }
    h := Final(Abc(a, b, c));
  }

  lemma JoinedWord(mem: seq<Byte>, i: nat)
    requires i + 4 <= |mem|
    ensures Join(Load16(mem, i), Load16(mem, i + 2)) == Load32(mem, i)
  {
    hide Join, Half, Word;
    HalvesOfWord(mem[i], mem[i + 1], mem[i + 2], mem[i + 3]);
  }

  /** What the switch of the 16-bit path adds for a word of which n bytes belong to the key. */
  lemma HalvesAdd(mem: seq<Byte>, k: nat, length: nat, i: nat, x: Word32)
    requires InMemory(mem, k, length) && i < length
    ensures var w := WordAt(mem[k..k + length], i);
            && (length >= i + 4 ==> Plus(x, w) == Plus(x, Join(Load16(mem, k + i), Load16(mem, k + i + 2))))
            && (length == i + 3 ==> Plus(x, w) == Plus(Plus(x, Sh(mem[k + i + 2], 2)), Load16(mem, k + i)))
            && (length == i + 2 ==> Plus(x, w) == Plus(x, Load16(mem, k + i)))
            && (length == i + 1 ==> Plus(x, w) == Plus(x, Sh(mem[k + i], 0)))
  {
    hide Word, Plus, Half, Sh, Join;
    PartOfWord(mem, k, length, i);
    if length >= i + 4 { JoinedWord(mem, k + i); }
    if length == i + 3 { ThreeBytes(x, mem[k + i], mem[k + i + 1], mem[k + i + 2]); }
    if length == i + 2 { HalvesOfWord(mem[k + i], mem[k + i + 1], 0, 0); }
    if length == i + 1 { HalvesOfWord(mem[k + i], 0, 0, 0); }
  }

  /** The switch of the 16-bit path. */
  method TailHalves(mem: seq<Byte>, k: nat, length: nat, s: Abc) returns (h: Word32)
    requires InMemory(mem, k, length) && length <= 12
    ensures h == HashFrom(s, mem[k..k + length])
  {
    hide WordAt, Load16, Plus, Final, Join, Sh, HashFrom, Feed;
    var a, b, c := s.a, s.b, s.c;
    LastBlock(mem[k..k + length], s);
    if length == 0 { return c; }
    if length > 8 { HalvesAdd(mem, k, length, 8, c); }
    if length > 4 { HalvesAdd(mem, k, length, 4, b); }
    HalvesAdd(mem, k, length, 0, a);
    NoWords(mem, k, length, s);
    if length == 12 {
      c := Plus(c, Join(Load16(mem, k + 8), Load16(mem, k + 10)));
    } else if length == 11 || length == 10 {
      if length == 11 { c := Plus(c, Sh(mem[k + 10], 2)); }
      c := Plus(c, Load16(mem, k + 8));
    } else if length == 9 {
      c := Plus(c, Sh(mem[k + 8], 0));
    }
    if length >= 8 {
      b := Plus(b, Join(Load16(mem, k + 4), Load16(mem, k + 6)));
      a := Plus(a, Join(Load16(mem, k), Load16(mem, k + 2)));
    } else if length == 7 || length == 6 {
      if length == 7 { b := Plus(b, Sh(mem[k + 6], 2)); }
      b := Plus(b, Load16(mem, k + 4));
      a := Plus(a, Join(Load16(mem, k), Load16(mem, k + 2)));
    } else if length == 5 || length == 4 {
      if length == 5 { b := Plus(b, Sh(mem[k + 4], 0)); }
      a := Plus(a, Join(Load16(mem, k), Load16(mem, k + 2)));
    } else if length == 3 || length == 2 {
      if length == 3 { a := Plus(a, Sh(mem[k + 2], 2)); }
      a := Plus(a, Load16(mem, k));
    } else {
      a := Plus(a, Sh(mem[k], 0));
    }
    h := Final(Abc(a, b, c));
  }

  /** The bytes of one word in the switch of the byte path, which falls through from the last
      byte of the key to the first of the word. */
  method AddBytes(mem: seq<Byte>, k: nat, length: nat, i: nat, x: Word32) returns (y: Word32)
    requires InMemory(mem, k, length)
    ensures y == Plus(x, WordAt(mem[k..k + length], i))
  {
    hide Plus, Sh, Word;
    ghost var key := mem[k..k + length];
    y := x;
    PlusZero(y, 3);
    if length >= i + 4 { y := Plus(y, Sh(mem[k + i + 3], 3)); }
    assert y == Plus(x, Sh(ByteAt(key, i + 3), 3));
    ghost var y3 := y;
    PlusZero(y, 2);
    if length >= i + 3 { y := Plus(y, Sh(mem[k + i + 2], 2)); }
    assert y == Plus(y3, Sh(ByteAt(key, i + 2), 2));
    ghost var y2 := y;
    PlusZero(y, 1);
    if length >= i + 2 { y := Plus(y, Sh(mem[k + i + 1], 1)); }
    assert y == Plus(y2, Sh(ByteAt(key, i + 1), 1));
    ghost var y1 := y;
    PlusZero(y, 0);
    if length >= i + 1 { y := Plus(y, Sh(mem[k + i], 0)); }
    assert y == Plus(y1, Sh(ByteAt(key, i), 0));
    BytesDown(x, ByteAt(key, i), ByteAt(key, i + 1), ByteAt(key, i + 2), ByteAt(key, i + 3));
  }

  /** The switch of the byte path. */
  method TailBytes(mem: seq<Byte>, k: nat, length: nat, s: Abc) returns (h: Word32)
    requires InMemory(mem, k, length) && length <= 12
    ensures h == HashFrom(s, mem[k..k + length])
  {
    hide WordAt, Plus, Final;
    if length == 0 { return s.c; }
    var c := AddBytes(mem, k, length, 8, s.c);
    var b := AddBytes(mem, k, length, 4, s.b);
    var a := AddBytes(mem, k, length, 0, s.a);
    h := Final(Abc(a, b, c));
  }

  lemma NextBlock(mem: seq<Byte>, k: nat, length: nat, s: Abc)
    requires InMemory(mem, k, length) && length > 12
    ensures var t := Abc(Plus(s.a, Load32(mem, k)), Plus(s.b, Load32(mem, k + 4)), Plus(s.c, Load32(mem, k + 8)));
            HashFrom(s, mem[k..k + length]) == HashFrom(Mix(t), mem[k + 12..k + length])
  {
    hide WordAt, Plus, Final, Mix, Load32;
    FullBlock(mem, k, length);
  }

  /** hashlittle for a key at an address that is a multiple of four.  Memory can be read up to
      the next such address. */
  method HashWords(mem: seq<Byte>, key: nat, keyLength: nat, initval: Word32) returns (h: Word32)
    requires InMemory(mem, key, keyLength) && key + (keyLength + 3) / 4 * 4 <= |mem|
    ensures h == Hash(mem[key..key + keyLength], initval)
  {
    hide HashFrom, Mix, Plus, Load32, Initial;
    var s, k, length := Initial(keyLength, initval), key, keyLength;
    while length > 12
      invariant 0 <= length && k + length == key + keyLength && k + (length + 3) / 4 * 4 <= |mem|
      invariant HashFrom(s, mem[k..k + length]) == Hash(mem[key..key + keyLength], initval)
    {
      NextBlock(mem, k, length, s);
      s := Mix(Abc(Plus(s.a, Load32(mem, k)), Plus(s.b, Load32(mem, k + 4)), Plus(s.c, Load32(mem, k + 8))));
      length := length - 12;
      k := k + 12;
    }
    h := TailWords(mem, k, length, s);
  }

  /** hashlittle for a key at an even address. */
  method HashHalves(mem: seq<Byte>, key: nat, keyLength: nat, initval: Word32) returns (h: Word32)
    requires InMemory(mem, key, keyLength)
    ensures h == Hash(mem[key..key + keyLength], initval)
  {
    hide HashFrom, Mix, Plus, Load32, Load16, Join, Initial;
    var s, k, length := Initial(keyLength, initval), key, keyLength;
    while length > 12
      invariant 0 <= length && k + length == key + keyLength
      invariant HashFrom(s, mem[k..k + length]) == Hash(mem[key..key + keyLength], initval)
    {
      NextBlock(mem, k, length, s);
      JoinedWord(mem, k);
      JoinedWord(mem, k + 4);
      JoinedWord(mem, k + 8);
      s := Mix(Abc(Plus(s.a, Join(Load16(mem, k), Load16(mem, k + 2))),
                   Plus(s.b, Join(Load16(mem, k + 4), Load16(mem, k + 6))),
                   Plus(s.c, Join(Load16(mem, k + 8), Load16(mem, k + 10)))));
      length := length - 12;
      k := k + 12;
    }
    h := TailHalves(mem, k, length, s);
  }

  /** Four bytes are added one after the other. */
  method AddWord(mem: seq<Byte>, i: nat, x: Word32) returns (y: Word32)
    requires i + 4 <= |mem|
    ensures y == Plus(x, Load32(mem, i))
  {
    hide Plus, Sh, Word;
    y := Plus(x, Sh(mem[i], 0));
    y := Plus(y, Sh(mem[i + 1], 1));
    y := Plus(y, Sh(mem[i + 2], 2));
    y := Plus(y, Sh(mem[i + 3], 3));
    BytesUp(x, mem[i], mem[i + 1], mem[i + 2], mem[i + 3]);
  }

  /** hashlittle for a key at any other address. */
  method HashBytes(mem: seq<Byte>, key: nat, keyLength: nat, initval: Word32) returns (h: Word32)
    requires InMemory(mem, key, keyLength)
    ensures h == Hash(mem[key..key + keyLength], initval)
  {
    hide HashFrom, Mix, Plus, Load32, Initial;
    var s, k, length := Initial(keyLength, initval), key, keyLength;
    while length > 12
      invariant 0 <= length && k + length == key + keyLength
      invariant HashFrom(s, mem[k..k + length]) == Hash(mem[key..key + keyLength], initval)
    {
      NextBlock(mem, k, length, s);
      var a := AddWord(mem, k, s.a);
      var b := AddWord(mem, k + 4, s.b);
      var c := AddWord(mem, k + 8, s.c);
      s := Mix(Abc(a, b, c));
      length := length - 12;
      k := k + 12;
    }
    h := TailBytes(mem, k, length, s);
  }

  /** hashlittle: whatever the address of the key and the memory around it, the hash is a
      function of the bytes of the key and the seed.  Memory consists of whole words. */
  method HashLittle(mem: seq<Byte>, key: nat, length: nat, initval: Word32) returns (h: Word32)
    requires InMemory(mem, key, length) && |mem| % 4 == 0
    ensures h == Hash(mem[key..key + length], initval)
  {
    hide Hash;
    if key % 4 == 0 {
      h := HashWords(mem, key, length, initval);
    } else if key % 2 == 0 {
      h := HashHalves(mem, key, length, initval);
    } else {
      h := HashBytes(mem, key, length, initval);
    }
  }

  // ------------------------------------------------------------ two values

  /** The byte 61, with seed 0. */
  lemma HashOfA()
    ensures Hash([0x61], 0) == 0x58d68708
  {
    var s := Initial(1, 0);
    assert s == Abc(0xdeadbef0, 0xdeadbef0, 0xdeadbef0);
    assert Feed(s, [0x61]) == Abc(0xdeadbf51, 0xdeadbef0, 0xdeadbef0);
    assert Final(Abc(0xdeadbf51, 0xdeadbef0, 0xdeadbef0)) == 0x58d68708;
  }

  /** Thirty bytes: the sentence that starts with "Four score". */
  const FIRST: seq<Byte> := [70, 111, 117, 114, 32, 115, 99, 111, 114, 101, 32, 97]
  const SECOND: seq<Byte> := [110, 100, 32, 115, 101, 118, 101, 110, 32, 121, 101, 97]
  const THIRD: seq<Byte> := [114, 115, 32, 97, 103, 111]
  const SENTENCE := FIRST + SECOND + THIRD

  /** Three blocks, the last one of six bytes. */
  lemma ThreeBlocks(key: seq<Byte>, s: Abc)
    requires |key| == 30
    ensures HashFrom(s, key) == Final(Feed(Mix(Feed(Mix(Feed(s, key)), key[12..])), key[24..]))
  {
    hide Final, Mix, Feed;
    assert key[12..][12..] == key[24..];
    assert HashFrom(s, key) == HashFrom(Mix(Feed(s, key)), key[12..]);
  }

  lemma SentenceWords()
    ensures Word(70, 111, 117, 114) == 0x72756f46 && Word(32, 115, 99, 111) == 0x6f637320
    ensures Word(114, 101, 32, 97) == 0x61206572 && Word(110, 100, 32, 115) == 0x7320646e
    ensures Word(101, 118, 101, 110) == 0x6e657665 && Word(32, 121, 101, 97) == 0x61657920
    ensures Word(114, 115, 32, 97) == 0x61207372 && Word(103, 111, 0, 0) == 0x6f67 && Word(0, 0, 0, 0) == 0
  {
  }

  /** What the words of a block add to the state. */
  lemma Fed(s: Abc, key: seq<Byte>, x: Word32, y: Word32, z: Word32)
    requires WordAt(key, 0) == x && WordAt(key, 4) == y && WordAt(key, 8) == z
    ensures Feed(s, key) == Abc(Plus(s.a, x), Plus(s.b, y), Plus(s.c, z))
  {
    hide WordAt, Plus;
  }

  lemma WordsOf(key: seq<Byte>, i: nat)
    requires i + 4 <= |key|
    ensures WordAt(key, i) == Word(key[i], key[i + 1], key[i + 2], key[i + 3])
  {
    hide Word;
  }

  /** A block in front of more bytes. */
  lemma WordsInFront(block: seq<Byte>, rest: seq<Byte>, i: nat)
    requires i + 4 <= |block|
    ensures WordAt(block + rest, i) == WordAt(block, i)
  {
    hide Word;
  }

  lemma FirstBlock(s: Abc)
    ensures Feed(s, FIRST + (SECOND + THIRD)) == Abc(Plus(s.a, 0x72756f46), Plus(s.b, 0x6f637320), Plus(s.c, 0x61206572))
  {
    hide Word, WordAt, Feed, Plus;
    SentenceWords();
    WordsOf(FIRST, 0); WordsInFront(FIRST, SECOND + THIRD, 0);
    WordsOf(FIRST, 4); WordsInFront(FIRST, SECOND + THIRD, 4);
    WordsOf(FIRST, 8); WordsInFront(FIRST, SECOND + THIRD, 8);
    Fed(s, FIRST + (SECOND + THIRD), 0x72756f46, 0x6f637320, 0x61206572);
  }

  lemma SecondBlock(s: Abc)
    ensures Feed(s, SECOND + THIRD) == Abc(Plus(s.a, 0x7320646e), Plus(s.b, 0x6e657665), Plus(s.c, 0x61657920))
  {
    hide Word, WordAt, Feed, Plus;
    SentenceWords();
    WordsOf(SECOND, 0); WordsInFront(SECOND, THIRD, 0);
    WordsOf(SECOND, 4); WordsInFront(SECOND, THIRD, 4);
    WordsOf(SECOND, 8); WordsInFront(SECOND, THIRD, 8);
    Fed(s, SECOND + THIRD, 0x7320646e, 0x6e657665, 0x61657920);
  }

  lemma ThirdBlock(s: Abc)
    ensures Feed(s, THIRD) == Abc(Plus(s.a, 0x61207372), Plus(s.b, 0x6f67), Plus(s.c, 0))
  {
    hide Word, Feed, Plus;
    SentenceWords();
    Fed(s, THIRD, 0x61207372, 0x6f67, 0);
  }

  lemma MixLine(x: Word32, z: Word32, k: nat, v: Word32)
    requires 0 < k < 32 && (x - z) ^ ((z << k) | (z >> (32 - k))) == v
    ensures LineX(x, z, Rot(z, k)) == v
  {
  }

  lemma Sum(x: Word32, y: Word32, v: Word32)
    requires x + y == v
    ensures Plus(x, y) == v
  {
  }

  lemma FirstMix()
    ensures Mix(Abc(0x51232e53, 0x4e11322d, 0x3fce247f)) == Abc(0xf859ad7a, 0x04bc57ae, 0x40dddd7e)
  {
    hide LineX, Rot, Plus;
    MixLine(0x51232e53, 0x3fce247f, 4, 0xedb74e27);
    Sum(0x3fce247f, 0x4e11322d, 0x8ddf56ac);
    MixLine(0x4e11322d, 0xedb74e27, 6, 0x0d8a6dfd);
    Sum(0xedb74e27, 0x8ddf56ac, 0x7b96a4d3);
    MixLine(0x8ddf56ac, 0x0d8a6dfd, 8, 0x0a3915a2);
    Sum(0x0d8a6dfd, 0x7b96a4d3, 0x892112d0);
    MixLine(0x7b96a4d3, 0x0a3915a2, 16, 0x64ff8508);
    Sum(0x0a3915a2, 0x892112d0, 0x935a2872);
    MixLine(0x892112d0, 0x64ff8508, 19, 0x0c62aa34);
    Sum(0x64ff8508, 0x935a2872, 0xf859ad7a);
    MixLine(0x935a2872, 0x0c62aa34, 4, 0x40dddd7e);
    Sum(0x0c62aa34, 0xf859ad7a, 0x04bc57ae);
  }

  lemma SecondMix()
    ensures Mix(Abc(0x6b7a11e8, 0x7321ce13, 0xa243569e)) == Abc(0x336aded2, 0x059f2642, 0xbd02ebd5)
  {
    hide LineX, Rot, Plus;
    MixLine(0x6b7a11e8, 0xa243569e, 4, 0xed03d2a0);
    Sum(0xa243569e, 0x7321ce13, 0x156524b1);
    MixLine(0x7321ce13, 0xed03d2a0, 6, 0xc6e95348);
    Sum(0xed03d2a0, 0x156524b1, 0x0268f751);
    MixLine(0x156524b1, 0xc6e95348, 8, 0xa72899af);
    Sum(0xc6e95348, 0x0268f751, 0xc9524a99);
    MixLine(0x0268f751, 0xa72899af, 16, 0xc2effa8a);
    Sum(0xa72899af, 0xc9524a99, 0x707ae448);
    MixLine(0xc9524a99, 0xc2effa8a, 19, 0xd2344770);
    Sum(0xc2effa8a, 0x707ae448, 0x336aded2);
    MixLine(0x707ae448, 0xd2344770, 4, 0xbd02ebd5);
    Sum(0xd2344770, 0x336aded2, 0x059f2642);
  }

  lemma LastFinal()
    ensures Final(Abc(0x948b5244, 0x059f95a9, 0xbd02ebd5)) == 0x17770551
  {
  }

  lemma SentenceStart()
    ensures Initial(30, 0) == Abc(0xdeadbf0d, 0xdeadbf0d, 0xdeadbf0d)
  {
    hide Plus;
    Length30();
    Sum(0xdeadbeef, 30, 0xdeadbf0d);
    Sum(0xdeadbf0d, 0, 0xdeadbf0d);
  }

  lemma Length30()
    ensures (30 % 0x1_0000_0000) as Word32 == 30
  {
    assert 30 % 0x1_0000_0000 == 30;
    assert 30 as Word32 == 30;
  }

  /** With seed 0: two rounds of mix and one of final. */
  lemma HashOfSentence()
    ensures Hash(SENTENCE, 0) == 0x17770551
  {
    hide Final, Mix, Feed, Plus, Initial;
    SentenceStart();
    FirstBlock(Initial(30, 0));
    Sum(0xdeadbf0d, 0x72756f46, 0x51232e53); Sum(0xdeadbf0d, 0x6f637320, 0x4e11322d); Sum(0xdeadbf0d, 0x61206572, 0x3fce247f);
    FirstMix();
    SecondBlock(Abc(0xf859ad7a, 0x04bc57ae, 0x40dddd7e));
    Sum(0xf859ad7a, 0x7320646e, 0x6b7a11e8); Sum(0x04bc57ae, 0x6e657665, 0x7321ce13); Sum(0x40dddd7e, 0x61657920, 0xa243569e);
    SecondMix();
    ThirdBlock(Abc(0x336aded2, 0x059f2642, 0xbd02ebd5));
    Sum(0x336aded2, 0x61207372, 0x948b5244); Sum(0x059f2642, 0x6f67, 0x059f95a9); Sum(0xbd02ebd5, 0, 0xbd02ebd5);
    LastFinal();
    assert SENTENCE == FIRST + (SECOND + THIRD);
    assert SENTENCE[12..] == SECOND + THIRD && SENTENCE[24..] == THIRD;
    ThreeBlocks(SENTENCE, Initial(30, 0));
  }
}
