/**
 The two-level hash index built by scripts/LOMHash.c and scripts/LECHash.c for
 the Huffman code tables of the bulk decompressor.

 A bucket holds the position of its first code in the index bits. While it is
 alone the tag bits are all ones; when a second code arrives they become the tag
 of that second code, and the second position goes to one of a few spare slots.
 Words are UINT16 values; a shift or mask by a constant is written as `/` and `%`.
 */
module HuffmanIndex {
  import opened WinprStream

  type Word = w: int | 0 <= w < 0x1_0000

  const EMPTY: Word := 0xffff

  // ---- Exclusive or ------------------------------------------------------

  function Xor(a: nat, b: nat): (r: nat)
  {
    if a == 0 && b == 0 then 0 else (a + b) % 2 + 2 * Xor(a / 2, b / 2)
  }

  lemma {:induction false} XorZero(a: nat, b: nat)
    ensures Xor(a, b) == 0 <==> a == b
  {
    if a != 0 || b != 0 {
      XorZero(a / 2, b / 2);
    }
  }

  /** A common operand cancels out. */
  lemma {:induction false} XorCancel(a: nat, b: nat, m: nat)
    ensures Xor(Xor(a, m), Xor(b, m)) == Xor(a, b)
    decreases a + b + m
  {
    if a != 0 || b != 0 || m != 0 {
      XorCancel(a / 2, b / 2, m / 2);
      var x, y := Xor(a, m), Xor(b, m);
      XorHalves(a, m);
      XorHalves(b, m);
      XorHalves(x, y);
      XorHalves(a, b);
      Parity(a, b, m, x, y);
      SameHalves(Xor(x, y), Xor(a, b));
    }
  }

  lemma Parity(a: nat, b: nat, m: nat, x: nat, y: nat)
    requires x % 2 == (a + m) % 2 && y % 2 == (b + m) % 2
    ensures (x + y) % 2 == (a + b) % 2
  {
  }

  lemma SameHalves(x: nat, y: nat)
    requires x % 2 == y % 2 && x / 2 == y / 2
    ensures x == y
  {
  }

  lemma {:induction false} XorHalves(a: nat, b: nat)
    ensures Xor(a, b) % 2 == (a + b) % 2 && Xor(a, b) / 2 == Xor(a / 2, b / 2)
  {
    if a != 0 || b != 0 {
      BitAndRest((a + b) % 2, Xor(a / 2, b / 2));
    }
  }

  lemma BitAndRest(bit: nat, rest: nat)
    requires bit < 2
    ensures (bit + 2 * rest) % 2 == bit && (bit + 2 * rest) / 2 == rest
  {
  }

  /** One bit and the rest, on both sides. */
  lemma {:induction false} XorDouble(a: nat, x: nat, b: nat, y: nat)
    requires x < 2 && y < 2
    ensures Xor(2 * a + x, 2 * b + y) == (x + y) % 2 + 2 * Xor(a, b)
  {
    BitAndRest(x, a);
    BitAndRest(y, b);
    SumParity(a, x, b, y);
    if x + 2 * a == 0 && y + 2 * b == 0 {
      assert Xor(0, 0) == 0;
    }
  }

  lemma SumParity(a: nat, x: nat, b: nat, y: nat)
    ensures ((2 * a + x) + (2 * b + y)) % 2 == (x + y) % 2
  {
  }

  /** `a` shifted left by `k` bits. */
  function Lift(a: nat, k: nat): (r: nat)
  {
    if k == 0 then a else 2 * Lift(a, k - 1)
  }

  /** Operands without common bits add up. */
  lemma {:induction false} XorDisjoint(low: nat, high: nat, k: nat)
    requires low < Lift(1, k)
    ensures Xor(low, Lift(high, k)) == low + Lift(high, k)
  {
    if k == 0 {
      XorWithZero(high);
    } else {
      XorDisjoint(low / 2, high, k - 1);
      XorDouble(low / 2, low % 2, Lift(high, k - 1), 0);
    }
  }

  lemma LiftIsProduct(a: nat)
    ensures Lift(a, 4) == 16 * a && Lift(a, 5) == 32 * a && Lift(a, 9) == 512 * a
  {
    assert Lift(a, 1) == 2 * Lift(a, 0);
    assert Lift(a, 2) == 2 * Lift(a, 1);
    assert Lift(a, 3) == 2 * Lift(a, 2);
    assert Lift(a, 4) == 2 * Lift(a, 3);
    assert Lift(a, 5) == 2 * Lift(a, 4);
    assert Lift(a, 6) == 2 * Lift(a, 5);
    assert Lift(a, 7) == 2 * Lift(a, 6);
    assert Lift(a, 8) == 2 * Lift(a, 7);
  }

  lemma {:induction false} XorWithZero(a: nat)
    ensures Xor(0, a) == a
  {
    if a != 0 {
      XorWithZero(a / 2);
    }
  }

  /** `a` without its `k` lowest bits. */
  function Shift(a: nat, k: nat): (r: nat)
    decreases k
  {
    if k == 0 then a else Shift(a / 2, k - 1)
  }

  lemma {:induction false} XorShift(a: nat, b: nat, k: nat)
    ensures Shift(Xor(a, b), k) == Xor(Shift(a, k), Shift(b, k))
    decreases k
  {
    if k > 0 {
      XorHalves(a, b);
      XorShift(a / 2, b / 2, k - 1);
    }
  }

  lemma ShiftFour(a: nat, k: nat)
    requires k >= 4
    ensures Shift(a, k) == Shift(a / 16, k - 4)
  {
    var b := a / 2;
    var c := b / 2;
    var d := c / 2;
    assert Shift(a, k) == Shift(b, k - 1) == Shift(c, k - 2) == Shift(d, k - 3) == Shift(d / 2, k - 4);
    assert d / 2 == a / 16;
  }

  lemma ShiftIsDivision(a: nat)
    ensures Shift(a, 5) == a / 32 && Shift(a, 9) == a / 512
  {
    ShiftFour(a, 5);
    ShiftFour(a, 9);
    ShiftFour(a / 16, 5);
    assert a / 16 / 2 == a / 32 && a / 16 / 16 / 2 == a / 512;
  }

  // ---- The two instances -------------------------------------------------

  datatype Layout = LOM | LEC

  /** Number of index bits; the table has one entry for each of their values. */
  function IndexBits(l: Layout): (n: nat)
  {
    match l case LOM => 5 case LEC => 9
  }

  function Size(l: Layout): (n: nat)
  {
    match l case LOM => 32 case LEC => 512
  }

  /** The part of a word above the index bits, and the index bits. */
  function High(l: Layout, w: nat): (h: nat)
  {
    match l case LOM => w / 32 case LEC => w / 512
  }

  function Low(l: Layout, w: nat): (i: nat)
    ensures i < Size(l)
  {
    match l case LOM => w % 32 case LEC => w % 512
  }

  /** Seven tag bits lie above the index bits; here all are set. */
  function FullTag(l: Layout): (m: nat)
  {
    match l case LOM => 0xfe0 case LEC => 0xfe00
  }

  function Tag(l: Layout, key: Word): (t: nat)
  {
    match l case LOM => key / 32 % 128 * 32 case LEC => key / 512 % 128 * 512
  }

  function Hash(l: Layout, key: Word): (h: nat)
  {
    match l
    case LOM => Xor(Xor(key % 0x20, key / 0x20), key / 0x200)
    case LEC => Xor(Xor(Xor(key % 0x200, key / 0x200), key / 0x10), key / 0x80)
  }

  function MiniHash(l: Layout, key: Word): (h: nat)
  {
    match l
    case LOM => var h := key / 0x10 % 0x10; Xor(Xor(h, h / 4), h / 8) % 4
    case LEC =>
      var h := Xor(key / 0x100, key % 0x100) / 4 % 0x10;
      (if key / 0x200 != 0 then 0xffff - h else h) % 12
  }

  function Tab(l: Layout): (t: seq<nat>)
    ensures forall j :: 0 <= j < |t| ==> t[j] < Size(l)
  {
    match l
    case LOM => [0, 4, 10, 19]
    case LEC => [511, 0, 508, 448, 494, 347, 486, 482]
  }

  /** The spare slot of a key; the LEC mini hash can point behind its eight slots. */
  function Spare(l: Layout, key: Word): (s: Option<nat>)
    ensures s.Some? ==> s.value < Size(l)
  {
    var i := MiniHash(l, key);
    if i < |Tab(l)| then Some(Tab(l)[i]) else None
  }

  // ---- The hash, bit by bit ----------------------------------------------

  function Bit(a: nat, j: nat): (b: nat)
  {
    Shift(a, j) % 2
  }

  lemma {:induction false} XorBit(a: nat, b: nat, j: nat)
    ensures Bit(Xor(a, b), j) == (Bit(a, j) + Bit(b, j)) % 2
    decreases j
  {
    XorHalves(a, b);
    if j > 0 {
      XorBit(a / 2, b / 2, j - 1);
    } else {
      SumParity(a / 2, a % 2, b / 2, b % 2);
    }
  }

  lemma {:induction false} BitBelow(r: nat, q: nat, k: nat, j: nat)
    requires j < k
    ensures Bit(r + Lift(q, k), j) == Bit(r, j)
    decreases k
  {
    var p := Lift(q, k - 1);
    HalfOfSum(r, p);
    if j > 0 {
      BitBelow(r / 2, q, k - 1, j - 1);
      assert Shift(r + 2 * p, j) == Shift(r / 2 + p, j - 1);
    }
  }

  lemma HalfOfSum(r: nat, p: nat)
    ensures (r + 2 * p) / 2 == r / 2 + p && (r + 2 * p) % 2 == r % 2
  {
  }

  lemma {:induction false} BitAbove(r: nat, k: nat, j: nat)
    requires r < Lift(1, k) && j >= k
    ensures Bit(r, j) == 0
    decreases k
  {
    if k == 0 {
      ShiftOfZero(j);
    } else {
      BitAbove(r / 2, k - 1, j - 1);
    }
  }

  lemma {:induction false} ShiftOfZero(j: nat)
    ensures Shift(0, j) == 0
  {
    if j > 0 { ShiftOfZero(j - 1); }
  }

  lemma {:induction false} ShiftTwice(a: nat, i: nat, j: nat)
    ensures Shift(Shift(a, i), j) == Shift(a, i + j)
    decreases i
  {
    if i > 0 { ShiftTwice(a / 2, i - 1, j); }
  }

  /** The lowest five or nine bits of a key. */
  lemma LowBit(l: Layout, key: Word, j: nat)
    ensures Bit(Low(l, key), j) == if j < IndexBits(l) then Bit(key, j) else 0
  {
    LiftIsProduct(1);
    LiftIsProduct(High(l, key));
    var k := IndexBits(l);
    assert key == Low(l, key) + Lift(High(l, key), k);
    if j < k { BitBelow(Low(l, key), High(l, key), k, j); } else { BitAbove(Low(l, key), k, j); }
  }

  lemma ShiftsOfKey(key: Word, j: nat)
    ensures Bit(key / 0x10, j) == Bit(key, j + 4) && Bit(key / 0x20, j) == Bit(key, j + 5)
    ensures Bit(key / 0x80, j) == Bit(key, j + 7) && Bit(key / 0x200, j) == Bit(key, j + 9)
  {
    ShiftTwice(key, 4, j);
    ShiftTwice(key, 5, j);
    ShiftTwice(key, 7, j);
    ShiftTwice(key, 9, j);
    SmallShifts(key);
  }

  lemma SmallShifts(key: Word)
    ensures Shift(key, 4) == key / 0x10 && Shift(key, 5) == key / 0x20
    ensures Shift(key, 7) == key / 0x80 && Shift(key, 9) == key / 0x200
  {
    var a := key / 0x10;
    ShiftFour(key, 4);
    ShiftFour(key, 5);
    ShiftFour(key, 7);
    ShiftFour(key, 9);
    ShiftFour(a, 5);
    assert Shift(a, 0) == a && Shift(a, 1) == a / 2 == key / 0x20;
    var b := a / 2 / 2;
    assert Shift(a, 3) == Shift(b, 1) == b / 2 == key / 0x80;
    assert Shift(a, 5) == Shift(a / 16, 1) == a / 16 / 2 == key / 0x200;
  }

  lemma Parities(x: nat, y: nat, z: nat)
    ensures ((x + y) % 2 + z) % 2 == (x + y + z) % 2
  {
  }

  lemma XorBits3(a: nat, b: nat, c: nat, j: nat)
    ensures Bit(Xor(Xor(a, b), c), j) == (Bit(a, j) + Bit(b, j) + Bit(c, j)) % 2
  {
    XorBit(a, b, j);
    XorBit(Xor(a, b), c, j);
    Parities(Bit(a, j), Bit(b, j), Bit(c, j));
  }

  lemma XorBits4(a: nat, b: nat, c: nat, d: nat, j: nat)
    ensures Bit(Xor(Xor(Xor(a, b), c), d), j) == (Bit(a, j) + Bit(b, j) + Bit(c, j) + Bit(d, j)) % 2
  {
    XorBits3(a, b, c, j);
    XorBit(Xor(Xor(a, b), c), d, j);
    Parities(Bit(a, j) + Bit(b, j), Bit(c, j), Bit(d, j));
  }

  /** Each bit of the hash is the sum of three bits of the key, at fixed distances. */
  lemma LomHashBits(key: Word, j: nat)
    ensures Bit(Hash(LOM, key), j)
            == ((if j < 5 then Bit(key, j) else 0) + Bit(key, j + 5) + Bit(key, j + 9)) % 2
  {
    LowBit(LOM, key, j);
    ShiftsOfKey(key, j);
    XorBits3(key % 0x20, key / 0x20, key / 0x200, j);
  }

  /** Or of four. */
  lemma LecHashBits(key: Word, j: nat)
    ensures Bit(Hash(LEC, key), j)
            == ((if j < 9 then Bit(key, j) else 0) + Bit(key, j + 9) + Bit(key, j + 4) + Bit(key, j + 7)) % 2
  {
    LowBit(LEC, key, j);
    ShiftsOfKey(key, j);
    XorBits4(key % 0x200, key / 0x200, key / 0x10, key / 0x80, j);
  }

  /** Four bits of a key decide on its LEC spare slot, each the sum of two bits of the key. */
  function LecNibble(key: Word): (n: nat)
    ensures n < 16
  {
    Pair(key, 2) + 2 * Pair(key, 3) + 4 * Pair(key, 4) + 8 * Pair(key, 5)
  }

  function Pair(key: Word, j: nat): (b: nat)
    ensures b < 2
  {
    (Bit(key, j) + Bit(key, j + 8)) % 2
  }

  lemma FourBits(a: nat)
    ensures a / 4 % 0x10 == Bit(a, 2) + 2 * Bit(a, 3) + 4 * Bit(a, 4) + 8 * Bit(a, 5)
  {
    var b := a / 4;
    var c := b / 2;
    var d := c / 2;
    assert Shift(a, 2) == Shift(a / 2, 1) == a / 2 / 2 == b;
    ShiftTwice(a, 2, 1);
    ShiftTwice(a, 2, 2);
    ShiftTwice(a, 2, 3);
    assert Shift(b, 1) == c && Shift(b, 2) == Shift(c, 1) == d;
    assert Shift(b, 3) == Shift(c, 2) == Shift(d, 1) == d / 2;
    Nibble(b);
  }

  lemma Nibble(b: nat)
    ensures b % 0x10 == b % 2 + 2 * (b / 2 % 2) + 4 * (b / 2 / 2 % 2) + 8 * (b / 2 / 2 / 2 % 2)
  {
    var c := b / 2;
    var d := c / 2;
    var e := d / 2;
    Sixteenths(b % 2 + 2 * (c % 2) + 4 * (d % 2) + 8 * (e % 2), e / 2);
  }

  lemma Sixteenths(n: nat, q: nat)
    requires n < 16
    ensures (n + 16 * q) % 16 == n
  {
  }

  lemma LowByteBit(key: Word, j: nat)
    requires j < 8
    ensures Bit(key % 0x100, j) == Bit(key, j) && Bit(key / 0x100, j) == Bit(key, j + 8)
  {
    var q := key / 0x100;
    LiftIsProduct(q);
    assert Lift(q, 8) == 0x100 * q by { assert Lift(q, 9) == 2 * Lift(q, 8); }
    assert key == key % 0x100 + Lift(q, 8);
    BitBelow(key % 0x100, q, 8, j);
    ShiftFour(key, 8);
    ShiftFour(key / 16, 4);
    assert Shift(key, 8) == key / 16 / 16 == q;
    ShiftTwice(key, 8, j);
  }

  lemma PairOfXor(key: Word, j: nat)
    requires j < 8
    ensures Bit(Xor(key / 0x100, key % 0x100), j) == Pair(key, j)
  {
    XorBit(key / 0x100, key % 0x100, j);
    LowByteBit(key, j);
  }

  lemma NibbleOfXor(key: Word)
    ensures Xor(key / 0x100, key % 0x100) / 4 % 0x10 == LecNibble(key)
  {
    FourBits(Xor(key / 0x100, key % 0x100));
    PairOfXor(key, 2);
    PairOfXor(key, 3);
    PairOfXor(key, 4);
    PairOfXor(key, 5);
  }

  lemma LecMiniHash(key: Word)
    ensures MiniHash(LEC, key) == (if key < 0x200 then LecNibble(key) else 0xffff - LecNibble(key)) % 12
  {
    NibbleOfXor(key);
    assert key / 0x200 == 0 <==> key < 0x200;
  }

  /**
   Which of the eight slots it is. The nibbles 8 to 11 of a short key, and 4 to 7 of one
   with bits above the ninth, lead behind the slots.
   */
  function LecSlot(short: bool, n: nat): (s: Option<nat>)
  {
    var k := if short then n else 15 - n;
    if k in {0, 12} then Some(511) else if k in {1, 13} then Some(0) else if k in {2, 14} then Some(508)
    else if k in {3, 15} then Some(448) else if k == 4 then Some(494) else if k == 5 then Some(347)
    else if k == 6 then Some(486) else if k == 7 then Some(482) else None
  }

  lemma TwelfthOf(n: nat)
    requires n < 16
    ensures n % 12 == (if n < 12 then n else n - 12) && (0xffff - n) % 12 == (15 - n) % 12
  {
    assert 0xffff - n == 12 * 5460 + (15 - n);
  }

  lemma SlotAt(n: nat)
    requires n < 16
    ensures LecSlot(true, n) == if n % 12 < 8 then Some(Tab(LEC)[n % 12]) else None
  {
    TwelfthOf(n);
  }

  lemma LecSpareExactly(key: Word)
    ensures Spare(LEC, key) == LecSlot(key < 0x200, LecNibble(key))
  {
    LecMiniHash(key);
    var n := LecNibble(key);
    TwelfthOf(n);
    SlotAt(n);
    SlotAt(15 - n);
    assert LecSlot(false, n) == LecSlot(true, 15 - n);
  }

  // ---- Which tables can be indexed ---------------------------------------

  /** What the index needs to know about a code. */
  datatype Code = Code(bucket: nat, spare: Option<nat>, tag: nat)

  function Describe(l: Layout, codes: seq<Word>): (cs: seq<Code>)
    ensures |cs| == |codes|
    ensures forall i :: 0 <= i < |codes| ==> cs[i] == DescribeOne(l, codes[i])
  {
    seq(|codes|, i requires 0 <= i < |codes| => DescribeOne(l, codes[i]))
  }

  function DescribeOne(l: Layout, key: Word): (c: Code)
  {
    Code(Hash(l, key), Spare(l, key), Tag(l, key))
  }

  predicate Mates(cs: seq<Code>, i: int, j: int)
  {
    0 <= i < j < |cs| && cs[i].bucket == cs[j].bucket
  }

  ghost predicate Second(cs: seq<Code>, j: int)
  {
    exists i :: Mates(cs, i, j)
  }

  /** Positions fit the index bits, and the entry of a lone code differs from the empty mark. */
  predicate Positions(l: Layout, n: nat)
  {
    n <= match l case LOM => 32 case LEC => 511
  }

  ghost predicate AtMostTwo(cs: seq<Code>)
  {
    forall i, j, k :: Mates(cs, i, j) ==> !Mates(cs, j, k)
  }

  ghost predicate TagsDiffer(l: Layout, cs: seq<Code>)
  {
    && (forall i :: 0 <= i < |cs| ==> cs[i].tag != FullTag(l))
    && (forall i, j :: Mates(cs, i, j) ==> cs[i].tag != cs[j].tag)
  }

  /** Second codes have slots of their own, which no code hashes to. */
  ghost predicate SparesApart(l: Layout, cs: seq<Code>)
  {
    && (forall j :: 0 <= j < |cs| && Second(cs, j) ==> cs[j].spare.Some? && cs[j].spare.value < Size(l))
    && (forall i, j :: 0 <= i < |cs| && 0 <= j < |cs| && Second(cs, j) ==> Some(cs[i].bucket) != cs[j].spare)
    && (forall j, k :: 0 <= j < k < |cs| && Second(cs, j) && Second(cs, k) ==> cs[j].spare != cs[k].spare)
  }

  ghost predicate Indexable(l: Layout, cs: seq<Code>)
  {
    && Positions(l, |cs|)
    && (forall i :: 0 <= i < |cs| ==> cs[i].bucket < Size(l) && Low(l, cs[i].tag) == 0)
    && (forall i :: 0 <= i < |cs| && cs[i].spare.Some? ==> cs[i].spare.value < Size(l))
    && AtMostTwo(cs)
    && TagsDiffer(l, cs)
    && SparesApart(l, cs)
  }

  // ---- Building ----------------------------------------------------------

  /** What a table entry means: positions of codes instead of bits. */
  datatype Entry = Empty | Lone(first: nat) | Shared(first: nat, second: nat) | Direct(second: nat)

  ghost predicate Joined(cs: seq<Code>, i: int, n: int)
  {
    exists j :: j < n && Mates(cs, i, j)
  }

  ghost predicate Free(cs: seq<Code>, n: int, b: int)
  {
    forall i :: 0 <= i < n <= |cs| ==> cs[i].bucket != b && (Second(cs, i) ==> cs[i].spare != Some(b))
  }

  /** The table after the first `n` codes. */
  ghost predicate Indexed(l: Layout, cs: seq<Code>, table: seq<Entry>, n: int)
    requires Indexable(l, cs)
  {
    && 0 <= n <= |cs| && |table| == Size(l)
    && (forall i :: 0 <= i < n && !Second(cs, i) && !Joined(cs, i, n) ==> table[cs[i].bucket] == Lone(i))
    && (forall i, j :: j < n && Mates(cs, i, j) ==> table[cs[i].bucket] == Shared(i, j))
    && (forall j :: 0 <= j < n && Second(cs, j) ==> table[cs[j].spare.value] == Direct(j))
    && (forall b :: 0 <= b < |table| && Free(cs, n, b) ==> table[b] == Empty)
  }

  lemma InsertFirst(l: Layout, cs: seq<Code>, table: seq<Entry>, n: int)
    requires Indexable(l, cs) && Indexed(l, cs, table, n) && n < |cs| && !Second(cs, n)
    ensures table[cs[n].bucket] == Empty
    ensures Indexed(l, cs, table[cs[n].bucket := Lone(n)], n + 1)
  {
    var b := cs[n].bucket;
    forall i | 0 <= i < n
      ensures cs[i].bucket != b && (Second(cs, i) ==> cs[i].spare != Some(b))
    {
      assert !Mates(cs, i, n);
    }
    assert Free(cs, n, b);
    var t := table[b := Lone(n)];
    forall i | 0 <= i < n + 1 && !Second(cs, i) && !Joined(cs, i, n + 1)
      ensures t[cs[i].bucket] == Lone(i)
    {
      if i < n {
        assert !Joined(cs, i, n);
      }
    }
    forall i, j | j < n + 1 && Mates(cs, i, j)
      ensures t[cs[i].bucket] == Shared(i, j)
    {
      assert j < n by {
        assert j == n ==> Second(cs, n);
      }
    }
    forall c | 0 <= c < |t| && Free(cs, n + 1, c)
      ensures t[c] == Empty
    {
      assert Free(cs, n, c);
    }
  }

  /** Before its mate arrives, a first code is alone in its bucket. */
  lemma LoneEntry(l: Layout, cs: seq<Code>, table: seq<Entry>, n: int, i: int)
    requires Indexable(l, cs) && Indexed(l, cs, table, n) && n < |cs| && Mates(cs, i, n)
    ensures !Second(cs, i) && table[cs[n].bucket] == Lone(i)
  {
    forall j | Mates(cs, i, j)
      ensures j >= n
    {
      assert !Mates(cs, j, n);
    }
    assert !Joined(cs, i, n);
  }

  /** Only the mate of a second code shares its bucket. */
  lemma OnlyMate(cs: seq<Code>, n: int, i: int, k: int)
    requires AtMostTwo(cs) && Mates(cs, i, n) && Mates(cs, k, n)
    ensures k == i
  {
    assert !Mates(cs, i, k) && !Mates(cs, k, i);
  }

  /** The bucket of another code before `n` is neither the one shared now nor its spare slot. */
  lemma OtherBucket(l: Layout, cs: seq<Code>, n: int, i: int, k: int)
    requires Indexable(l, cs) && Mates(cs, i, n) && 0 <= k < n && k != i
    ensures cs[k].bucket != cs[n].bucket && Some(cs[k].bucket) != cs[n].spare
  {
    assert Second(cs, n);
    if Mates(cs, k, n) {
      OnlyMate(cs, n, i, k);
    }
  }

  lemma SharedAfter(l: Layout, cs: seq<Code>, table: seq<Entry>, n: int, i: int, t: seq<Entry>)
    requires Indexable(l, cs) && Indexed(l, cs, table, n) && n < |cs| && Mates(cs, i, n)
    requires cs[n].spare.Some? && cs[n].spare.value < |table| && cs[n].spare != Some(cs[n].bucket)
    requires t == table[cs[n].bucket := Shared(i, n)][cs[n].spare.value := Direct(n)]
    ensures forall k, j :: j < n + 1 && Mates(cs, k, j) ==> t[cs[k].bucket] == Shared(k, j)
  {
    forall k, j | j < n + 1 && Mates(cs, k, j)
      ensures t[cs[k].bucket] == Shared(k, j)
    {
      if k == i {
        assert !Mates(cs, j, n);
      } else {
        OtherBucket(l, cs, n, i, k);
        assert j < n;
      }
    }
  }

  lemma LoneAfter(l: Layout, cs: seq<Code>, table: seq<Entry>, n: int, i: int, t: seq<Entry>)
    requires Indexable(l, cs) && Indexed(l, cs, table, n) && n < |cs| && Mates(cs, i, n)
    requires cs[n].spare.Some? && cs[n].spare.value < |table|
    requires t == table[cs[n].bucket := Shared(i, n)][cs[n].spare.value := Direct(n)]
    ensures forall k :: 0 <= k < n + 1 && !Second(cs, k) && !Joined(cs, k, n + 1) ==> t[cs[k].bucket] == Lone(k)
  {
    assert Second(cs, n);
    forall k | 0 <= k < n + 1 && !Second(cs, k) && !Joined(cs, k, n + 1)
      ensures t[cs[k].bucket] == Lone(k)
    {
      assert !Joined(cs, k, n) && !Mates(cs, k, n);
      OtherBucket(l, cs, n, i, k);
    }
  }

  lemma DirectAfter(l: Layout, cs: seq<Code>, table: seq<Entry>, n: int, i: int, t: seq<Entry>)
    requires SparesApart(l, cs) && |table| == Size(l) && 0 <= n < |cs| && Mates(cs, i, n)
    requires forall j :: 0 <= j < n && Second(cs, j) ==> table[cs[j].spare.value] == Direct(j)
    requires cs[n].bucket < |table| && cs[n].spare.Some? && cs[n].spare.value < |table|
    requires t == table[cs[n].bucket := Shared(i, n)][cs[n].spare.value := Direct(n)]
    ensures forall j :: 0 <= j < n + 1 && Second(cs, j) ==> t[cs[j].spare.value] == Direct(j)
  {
    assert Second(cs, n);
    forall j | 0 <= j < n + 1 && Second(cs, j)
      ensures t[cs[j].spare.value] == Direct(j)
    {
      if j < n {
        assert cs[j].spare != cs[n].spare && Some(cs[n].bucket) != cs[j].spare;
      }
    }
  }

  lemma FreeAfter(cs: seq<Code>, table: seq<Entry>, n: int, i: int, t: seq<Entry>)
    requires 0 <= n < |cs| && Mates(cs, i, n)
    requires forall c :: 0 <= c < |table| && Free(cs, n, c) ==> table[c] == Empty
    requires cs[n].bucket < |table| && cs[n].spare.Some? && cs[n].spare.value < |table|
    requires t == table[cs[n].bucket := Shared(i, n)][cs[n].spare.value := Direct(n)]
    ensures forall c :: 0 <= c < |t| && Free(cs, n + 1, c) ==> t[c] == Empty
  {
    assert Second(cs, n);
    forall c | 0 <= c < |t| && Free(cs, n + 1, c)
      ensures t[c] == Empty
    {
      assert cs[n].bucket != c && cs[n].spare != Some(c);
      assert Free(cs, n, c);
    }
  }

  lemma InsertSecond(l: Layout, cs: seq<Code>, table: seq<Entry>, n: int, i: int)
    requires Indexable(l, cs) && Indexed(l, cs, table, n) && n < |cs| && Mates(cs, i, n)
    ensures cs[n].spare.Some? && cs[n].spare.value < |table|
    ensures Indexed(l, cs, table[cs[n].bucket := Shared(i, n)][cs[n].spare.value := Direct(n)], n + 1)
  {
    assert Second(cs, n);
    var t := table[cs[n].bucket := Shared(i, n)][cs[n].spare.value := Direct(n)];
    LoneAfter(l, cs, table, n, i, t);
    SharedAfter(l, cs, table, n, i, t);
    DirectAfter(l, cs, table, n, i, t);
    FreeAfter(cs, table, n, i, t);
  }

  // ---- Words -------------------------------------------------------------

  /** The word that stands for an entry. */
  function Bits(l: Layout, cs: seq<Code>, e: Entry): (w: int)
  {
    match e
    case Empty => EMPTY
    case Lone(i) => i + FullTag(l)
    case Shared(i, j) => if j < |cs| then i + cs[j].tag else EMPTY
    case Direct(j) => j
  }

  ghost predicate Represents(l: Layout, cs: seq<Code>, table: seq<Entry>, words: seq<int>)
  {
    |words| == |table| && forall b :: 0 <= b < |table| ==> words[b] == Bits(l, cs, table[b])
  }

  lemma XorTag(l: Layout, position: nat, tag: nat)
    requires position < Size(l) && Low(l, tag) == 0
    ensures Xor(position, tag) == position + tag
  {
    LiftIsProduct(1);
    LiftIsProduct(High(l, tag));
    assert tag == Lift(High(l, tag), IndexBits(l));
    XorDisjoint(position, High(l, tag), IndexBits(l));
  }

  /** Replacing the full tag by another one, as the builder does it. */
  lemma Retag(l: Layout, position: nat, tag: nat)
    requires position < Size(l) && Low(l, tag) == 0
    ensures Xor(position + FullTag(l), Xor(tag, FullTag(l))) == position + tag
  {
    XorTag(l, position, FullTag(l));
    XorCancel(position, tag, FullTag(l));
    XorTag(l, position, tag);
  }

  /** The lookup's test: do the bits above the index differ? */
  lemma TagTest(l: Layout, h: nat, huff: nat)
    ensures High(l, Xor(h, huff)) != 0 <==> High(l, h) != High(l, huff)
  {
    XorShift(h, huff, IndexBits(l));
    ShiftIsDivision(h);
    ShiftIsDivision(huff);
    ShiftIsDivision(Xor(h, huff));
    XorZero(High(l, h), High(l, huff));
  }

  /** The words after one round of the builder's loop. */
  function Inserted(l: Layout, words: seq<int>, i: nat, c: Code): (r: seq<int>)
    requires c.bucket < |words| && 0 <= words[c.bucket] && (c.spare.Some? ==> c.spare.value < |words|)
  {
    if words[c.bucket] == EMPTY then words[c.bucket := Xor(i, FullTag(l))]
    else
      var w := words[c.bucket := Xor(words[c.bucket], Xor(c.tag, FullTag(l)))];
      if c.spare.None? then w else w[c.spare.value := i]
  }

  lemma RepresentsUpdate(l: Layout, cs: seq<Code>, table: seq<Entry>, words: seq<int>, b: nat, e: Entry)
    requires Represents(l, cs, table, words) && b < |table|
    ensures Represents(l, cs, table[b := e], words[b := Bits(l, cs, e)])
  {
  }

  lemma AdvanceFirst(l: Layout, cs: seq<Code>, entries: seq<Entry>, words: seq<int>, i: int)
    requires Indexable(l, cs) && Indexed(l, cs, entries, i) && Represents(l, cs, entries, words)
    requires i < |cs| && !Second(cs, i)
    ensures words[cs[i].bucket] == EMPTY
    ensures Indexed(l, cs, entries[cs[i].bucket := Lone(i)], i + 1)
    ensures Represents(l, cs, entries[cs[i].bucket := Lone(i)], Inserted(l, words, i, cs[i]))
  {
    InsertFirst(l, cs, entries, i);
    XorTag(l, i, FullTag(l));
    RepresentsUpdate(l, cs, entries, words, cs[i].bucket, Lone(i));
  }

  lemma AdvanceSecond(l: Layout, cs: seq<Code>, entries: seq<Entry>, words: seq<int>, i: int, m: int)
    requires Indexable(l, cs) && Indexed(l, cs, entries, i) && Represents(l, cs, entries, words)
    requires i < |cs| && Mates(cs, m, i)
    ensures cs[i].spare.Some? && words[cs[i].bucket] == m + FullTag(l) && words[cs[i].bucket] != EMPTY
    ensures Represents(l, cs, entries[cs[i].bucket := Shared(m, i)][cs[i].spare.value := Direct(i)],
                       Inserted(l, words, i, cs[i]))
  {
    var c := cs[i];
    assert Second(cs, i);
    LoneEntry(l, cs, entries, i, m);
    Retag(l, m, c.tag);
    RepresentsUpdate(l, cs, entries, words, c.bucket, Shared(m, i));
    RepresentsUpdate(l, cs, entries[c.bucket := Shared(m, i)],
                     words[c.bucket := Bits(l, cs, Shared(m, i))], c.spare.value, Direct(i));
  }

  /** One code more: the entries advance as the words do. */
  lemma Advance(l: Layout, cs: seq<Code>, entries: seq<Entry>, words: seq<int>, i: int)
    returns (after: seq<Entry>)
    requires Indexable(l, cs) && Indexed(l, cs, entries, i) && Represents(l, cs, entries, words)
    requires i < |cs|
    ensures 0 <= words[cs[i].bucket] && (cs[i].spare.Some? ==> cs[i].spare.value < |words|)
    ensures Indexed(l, cs, after, i + 1) && Represents(l, cs, after, Inserted(l, words, i, cs[i]))
    ensures words[cs[i].bucket] != EMPTY ==> cs[i].spare.Some?
  {
    if Second(cs, i) {
      var m :| Mates(cs, m, i);
      AdvanceSecond(l, cs, entries, words, i, m);
      InsertSecond(l, cs, entries, i, m);
      after := entries[cs[i].bucket := Shared(m, i)][cs[i].spare.value := Direct(i)];
    } else {
      AdvanceFirst(l, cs, entries, words, i);
      after := entries[cs[i].bucket := Lone(i)];
    }
  }

  // ---- The program -------------------------------------------------------

  /** `words` is the index of all the codes. */
  ghost predicate IndexOf(l: Layout, codes: seq<Word>, words: seq<int>)
  {
    var cs := Describe(l, codes);
    Indexable(l, cs) && exists table :: Indexed(l, cs, table, |cs|) && Represents(l, cs, table, words)
  }

  /** The body of the builder's loop. */
  method InsertCode(l: Layout, key: Word, i: nat, table: array<int>)
    requires table.Length == Size(l) && Hash(l, key) < Size(l) && 0 <= table[Hash(l, key)]
    requires table[Hash(l, key)] != EMPTY ==> Spare(l, key).Some?
    modifies table
    ensures table[..] == Inserted(l, old(table[..]), i, DescribeOne(l, key))
  {
    var h := Hash(l, key);
    if table[h] != EMPTY {
      table[h] := Xor(table[h], Xor(Tag(l, key), FullTag(l)));
      table[Tab(l)[MiniHash(l, key)]] := i;
    } else {
      table[h] := i;
      table[h] := Xor(table[h], FullTag(l));
    }
  }

  method BuildHashTable(l: Layout, codes: seq<Word>, table: array<int>)
    requires Indexable(l, Describe(l, codes)) && table.Length == Size(l)
    requires forall b :: 0 <= b < table.Length ==> table[b] == EMPTY
    modifies table
    ensures IndexOf(l, codes, table[..])
  {
    ghost var cs := Describe(l, codes);
    ghost var entries := seq(Size(l), _ => Empty);
    for i := 0 to |codes|
      invariant Indexed(l, cs, entries, i) && Represents(l, cs, entries, table[..])
    {
      assert cs[i] == DescribeOne(l, codes[i]);
      entries := Advance(l, cs, entries, table[..], i);
      InsertCode(l, codes[i], i, table);
    }
  }

  /** What `getvalue` answers; no answer where it would read behind the table or the spare slots. */
  function Lookup(l: Layout, words: seq<int>, huff: Word): (r: Option<nat>)
    requires |words| == Size(l)
    requires forall b :: 0 <= b < |words| ==> words[b] >= 0
  {
    if Hash(l, huff) >= Size(l) then None else LookupAt(l, words, Hash(l, huff), Spare(l, huff), huff)
  }

  function LookupAt(l: Layout, words: seq<int>, bucket: nat, spare: Option<nat>, huff: Word): (r: Option<nat>)
    requires bucket < |words| && (spare.Some? ==> spare.value < |words|)
    requires forall b :: 0 <= b < |words| ==> words[b] >= 0
  {
    if High(l, Xor(words[bucket], huff)) != 0 then Some(Low(l, words[bucket]))
    else if spare.None? then None
    else Some(if l.LOM? then words[spare.value] % 0x100 else words[spare.value])
  }

  method GetValue(l: Layout, table: array<int>, huff: Word) returns (r: Option<nat>)
    requires table.Length == Size(l)
    requires forall b :: 0 <= b < table.Length ==> table[b] >= 0
    ensures r == Lookup(l, table[..], huff)
  {
    if Hash(l, huff) >= table.Length {
      return None;
    }
    var h := table[Hash(l, huff)];
    if High(l, Xor(h, huff)) != 0 {
      return Some(Low(l, h));
    }
    var m := MiniHash(l, huff);
    if m >= |Tab(l)| {
      return None;
    }
    var v := table[Tab(l)[m]];
    return Some(if l.LOM? then v % 0x100 else v);
  }

  /**
   The bits above the index decide alone: where they differ from the word in the bucket the
   position is in that word, otherwise in the spare slot. A LOM position is cut to a byte.
   */
  lemma LookupDecides(l: Layout, words: seq<int>, huff: Word, b: nat)
    requires |words| == Size(l) && b == Hash(l, huff) < Size(l)
    requires forall b :: 0 <= b < |words| ==> words[b] >= 0
    ensures High(l, words[b]) != High(l, huff) ==> Lookup(l, words, huff) == Some(Low(l, words[b]))
    ensures High(l, words[b]) == High(l, huff) && Spare(l, huff).None? ==> Lookup(l, words, huff) == None
    ensures High(l, words[b]) == High(l, huff) && Spare(l, huff).Some? ==>
              var w := words[Spare(l, huff).value];
              var r := Lookup(l, words, huff);
              r.Some? && (if l.LOM? then r.value < 0x100 && (w - r.value) % 0x100 == 0 else r.value == w)
  {
    TagTest(l, words[b], huff);
    if Spare(l, huff).Some? { CutToByte(words[Spare(l, huff).value]); }
  }

  lemma CutToByte(w: nat)
    ensures w % 0x100 < 0x100 && (w - w % 0x100) % 0x100 == 0
  {
    var q := w / 0x100;
    assert w - w % 0x100 == 0x100 * q;
  }

  /** No code has bits above the tag. */
  predicate Tagged(l: Layout, codes: seq<Word>)
  {
    forall i :: 0 <= i < |codes| ==> codes[i] < 128 * Size(l)
  }

  lemma EntryTags(l: Layout, position: nat, tag: nat, key: Word)
    requires position < Size(l) && Low(l, tag) == 0 && key < 128 * Size(l)
    ensures High(l, position + tag) == High(l, key) <==> tag == Tag(l, key)
    ensures Low(l, position + tag) == position
  {
    var t := High(l, tag);
    match l {
      case LOM => Entry32(position, t, key);
      case LEC => Entry512(position, t, key);
    }
  }

  lemma Entry32(position: nat, t: nat, key: Word)
    requires position < 32 && key < 4096
    ensures (position + 32 * t) / 32 == t && (position + 32 * t) % 32 == position
    ensures key / 32 % 128 == key / 32
  {
  }

  lemma Entry512(position: nat, t: nat, key: Word)
    requires position < 512
    ensures (position + 512 * t) / 512 == t && (position + 512 * t) % 512 == position
    ensures key / 512 % 128 == key / 512
  {
  }

  lemma IndexShape(l: Layout, codes: seq<Word>, words: seq<int>)
    requires IndexOf(l, codes, words)
    ensures |words| == Size(l)
    ensures forall b :: 0 <= b < |words| ==> words[b] >= 0
    ensures forall i :: 0 <= i < |codes| ==> Hash(l, codes[i]) < Size(l)
  {
    var cs := Describe(l, codes);
    forall i | 0 <= i < |codes|
      ensures Hash(l, codes[i]) < Size(l)
    {
      assert cs[i] == DescribeOne(l, codes[i]);
    }
  }

  /** The word in a code's bucket, and in its spare slot if it is a second code. */
  lemma WordsOf(l: Layout, cs: seq<Code>, words: seq<int>, table: seq<Entry>, i: nat) returns (first: nat, tag: nat)
    requires Indexable(l, cs) && Indexed(l, cs, table, |cs|) && Represents(l, cs, table, words) && i < |cs|
    ensures words[cs[i].bucket] == first + tag && first < Size(l) && Low(l, tag) == 0
    ensures tag != cs[i].tag ==> first == i
    ensures tag == cs[i].tag ==> cs[i].spare.Some? && words[cs[i].spare.value] == i
  {
    if Second(cs, i) {
      var m :| Mates(cs, m, i);
      assert table[cs[m].bucket] == Shared(m, i);
      first, tag := m, cs[i].tag;
    } else if Joined(cs, i, |cs|) {
      var j :| Mates(cs, i, j);
      assert table[cs[i].bucket] == Shared(i, j);
      first, tag := i, cs[j].tag;
    } else {
      first, tag := i, FullTag(l);
    }
  }

  lemma LookupByTag(l: Layout, words: seq<int>, c: Code, key: Word, first: nat, tag: nat, i: nat)
    requires c.bucket < |words| && (c.spare.Some? ==> c.spare.value < |words|) && i < Size(l)
    requires forall b :: 0 <= b < |words| ==> words[b] >= 0
    requires words[c.bucket] == first + tag && Low(l, first + tag) == first
    requires High(l, Xor(first + tag, key)) != 0 <==> tag != c.tag
    requires tag != c.tag ==> first == i
    requires tag == c.tag ==> c.spare.Some? && words[c.spare.value] == i
    ensures LookupAt(l, words, c.bucket, c.spare, key) == Some(i)
  {
  }

  lemma TestResult(l: Layout, first: nat, tag: nat, key: Word)
    requires first < Size(l) && Low(l, tag) == 0 && key < 128 * Size(l)
    ensures High(l, Xor(first + tag, key)) != 0 <==> tag != Tag(l, key)
    ensures Low(l, first + tag) == first
  {
    EntryTags(l, first, tag, key);
    TagTest(l, first + tag, key);
  }

  /** After building, every code is looked up at its own position. */
  lemma LookupFindsPosition(l: Layout, codes: seq<Word>, words: seq<int>, i: nat)
    requires IndexOf(l, codes, words) && Tagged(l, codes) && i < |codes|
    ensures |words| == Size(l) && Hash(l, codes[i]) < Size(l)
    ensures forall b :: 0 <= b < |words| ==> words[b] >= 0
    ensures Lookup(l, words, codes[i]) == Some(i)
  {
    IndexShape(l, codes, words);
    var cs := Describe(l, codes);
    var table :| Indexed(l, cs, table, |cs|) && Represents(l, cs, table, words);
    assert cs[i] == DescribeOne(l, codes[i]);
    var first, tag := WordsOf(l, cs, words, table, i);
    TestResult(l, first, tag, codes[i]);
    LookupByTag(l, words, cs[i], codes[i], first, tag, i);
  }

  // ---- The LOM code table ------------------------------------------------

  const HUFF_CODE_LOM: seq<Word> := [
    0x0001, 0x0000, 0x0002, 0x0009, 0x0006, 0x0005, 0x000d, 0x000b,
    0x0003, 0x001b, 0x0007, 0x0017, 0x0037, 0x000f, 0x004f, 0x006f,
    0x002f, 0x00ef, 0x001f, 0x005f, 0x015f, 0x009f, 0x00df, 0x01df,
    0x003f, 0x013f, 0x00bf, 0x01bf, 0x007f, 0x017f, 0x00ff, 0x01ff]

  const LOM_BUCKETS: seq<nat> := [
    1, 0, 2, 9, 6, 5, 13, 11, 3, 27, 7, 23, 22, 15, 13, 12,
    14, 8, 31, 29, 21, 27, 25, 17, 30, 22, 26, 18, 28, 20, 24, 16]

  lemma {:induction false} XorRightZero(a: nat)
    ensures Xor(a, 0) == a
  {
    if a != 0 {
      XorRightZero(a / 2);
    }
  }

  lemma OnesStep(q: nat, h: nat, bit: nat)
    requires bit < 2 && h <= q && Xor(q, h) == q - h
    ensures Xor(2 * q + 1, 2 * h + bit) == 2 * q + 1 - (2 * h + bit)
  {
    XorDouble(q, 1, h, bit);
  }

  /** Against all ones, exclusive or is subtraction. */
  lemma {:induction false} XorOnes(k: nat, b: nat)
    requires b < Lift(1, k)
    ensures Xor(Lift(1, k) - 1, b) == Lift(1, k) - 1 - b
  {
    if k > 0 {
      XorOnes(k - 1, b / 2);
      OnesStep(Lift(1, k - 1) - 1, b / 2, b % 2);
    }
  }

  lemma HashOfParts(key: Word, x: nat)
    requires key < 512 && Xor(key % 32, key / 32) == x
    ensures Hash(LOM, key) == x
  {
    XorRightZero(x);
  }

  /** The long LOM codes end in ones, so the low bits cover the high ones. */
  predicate Covered(low: nat, high: nat)
  {
    high == 0 || (low == 31 && high < 32) || (low == 15 && high < 16) || (low == 23 && high == 1)
  }

  lemma XorCovered(low: nat, high: nat)
    requires Covered(low, high)
    ensures high <= low && Xor(low, high) == low - high
  {
    LiftIsProduct(1);
    if high == 0 {
      XorRightZero(low);
    } else if low == 31 {
      XorOnes(5, high);
    } else if low == 15 {
      XorOnes(4, high);
    } else {
      Xor23();
    }
  }

  lemma Xor23()
    ensures Xor(23, 1) == 22
  {
    XorDouble(11, 1, 0, 1);
    XorRightZero(11);
  }

  lemma LomHash(i: nat)
    requires i < 32
    ensures Hash(LOM, HUFF_CODE_LOM[i]) == LOM_BUCKETS[i]
  {
    LomParts(i);
    XorCovered(HUFF_CODE_LOM[i] % 32, HUFF_CODE_LOM[i] / 32);
    HashOfParts(HUFF_CODE_LOM[i], LOM_BUCKETS[i]);
  }

  predicate InParts(i: nat)
    requires i < 32
  {
    && HUFF_CODE_LOM[i] < 512 && LOM_BUCKETS[i] < 32 && LOM_BUCKETS[i] !in {4, 10, 19}
    && LOM_BUCKETS[i] == HUFF_CODE_LOM[i] % 32 - HUFF_CODE_LOM[i] / 32
    && Covered(HUFF_CODE_LOM[i] % 32, HUFF_CODE_LOM[i] / 32)
  }

  lemma LomPartsLow(i: nat)
    requires i < 16
    ensures InParts(i)
  {
  }

  lemma LomPartsHigh(i: nat)
    requires 16 <= i < 32
    ensures InParts(i)
  {
  }

  lemma LomParts(i: nat)
    requires i < 32
    ensures InParts(i)
  {
    if i < 16 { LomPartsLow(i); } else { LomPartsHigh(i); }
  }

  /** Which code comes first in a bucket (99: none), and the three buckets with a second one. */
  const FIRST_IN_BUCKET: seq<nat> := [
    1, 0, 2, 8, 99, 5, 4, 10, 17, 3, 99, 7, 15, 6, 16, 13,
    31, 23, 27, 99, 29, 20, 12, 11, 30, 22, 26, 9, 28, 19, 24, 18]

  function SecondInBucket(b: nat): (j: Option<nat>)
  {
    if b == 13 then Some(14) else if b == 27 then Some(21) else if b == 22 then Some(25) else None
  }

  predicate Placed(i: nat)
    requires i < 32
  {
    && LOM_BUCKETS[i] < 32
    && (FIRST_IN_BUCKET[LOM_BUCKETS[i]] == i || SecondInBucket(LOM_BUCKETS[i]) == Some(i))
  }

  lemma LomPlaceLow(i: nat)
    requires i < 11
    ensures Placed(i)
  {
  }

  lemma LomPlaceMiddle(i: nat)
    requires 11 <= i < 22
    ensures Placed(i)
  {
  }

  lemma LomPlaceHigh(i: nat)
    requires 22 <= i < 32
    ensures Placed(i)
  {
  }

  lemma LomPlace(i: nat)
    requires i < 32
    ensures LOM_BUCKETS[i] < 32
    ensures FIRST_IN_BUCKET[LOM_BUCKETS[i]] == i || SecondInBucket(LOM_BUCKETS[i]) == Some(i)
  {
    if i < 11 { LomPlaceLow(i); } else if i < 22 { LomPlaceMiddle(i); } else { LomPlaceHigh(i); }
  }

  lemma SpareOfParts(key: Word, h: nat, x: nat, y: nat)
    requires key / 0x10 % 0x10 == h && Xor(h, h / 4) == x && Xor(x, h / 8) == y
    ensures Spare(LOM, key) == Some(Tab(LOM)[y % 4])
  {
  }

  lemma SpareXors()
    ensures Xor(4, 1) == 5 && Xor(9, 2) == 11 && Xor(11, 1) == 10
  {
    XorRightZero(2);
    XorDouble(2, 0, 0, 1);
    XorDouble(4, 1, 1, 0);
    XorDouble(2, 0, 0, 1);
    XorRightZero(5);
    XorDouble(5, 1, 0, 1);
  }

  lemma LomSpare(key: Word)
    ensures key == HUFF_CODE_LOM[14] ==> Spare(LOM, key) == Some(4)
    ensures key == HUFF_CODE_LOM[21] ==> Spare(LOM, key) == Some(10)
    ensures key == HUFF_CODE_LOM[25] ==> Spare(LOM, key) == Some(19)
  {
    SpareXors();
    if key == 0x4f {
      XorRightZero(5);
      SpareOfParts(key, 4, 5, 5);
    } else if key == 0x9f {
      SpareOfParts(key, 9, 11, 10);
    } else if key == 0x13f {
      XorRightZero(3);
      SpareOfParts(key, 3, 3, 3);
    }
  }

  /** Two codes share a bucket in three cases only. */
  lemma LomMates(i: nat, j: nat)
    requires i < j < 32 && LOM_BUCKETS[i] == LOM_BUCKETS[j]
    ensures SecondInBucket(LOM_BUCKETS[j]) in {Some(i), Some(j)}
  {
    LomPlace(i);
    LomPlace(j);
  }

  lemma LomFirsts()
    ensures FIRST_IN_BUCKET[13] == 6 && FIRST_IN_BUCKET[27] == 9 && FIRST_IN_BUCKET[22] == 12
  {
  }

  lemma LomMatesAre(i: nat, j: nat)
    requires i < j < 32 && LOM_BUCKETS[i] == LOM_BUCKETS[j]
    ensures (i, j) in {(6, 14), (9, 21), (12, 25)}
  {
    LomMates(i, j);
    LomPlace(i);
    LomPlace(j);
    LomFirsts();
  }

  lemma SmallTag(key: Word)
    requires key < 512
    ensures Tag(LOM, key) == key / 32 * 32 && Tag(LOM, key) % 32 == 0 && Tag(LOM, key) < 32 * 127
  {
  }

  lemma LomCode(i: nat)
    requires i < 32
    ensures var c := Describe(LOM, HUFF_CODE_LOM)[i];
            && c.bucket == LOM_BUCKETS[i] && c.bucket < 32 && c.bucket !in {4, 10, 19}
            && c.tag % 32 == 0 && c.tag < 32 * 127
            && c.tag == HUFF_CODE_LOM[i] / 32 * 32 && c.spare == Spare(LOM, HUFF_CODE_LOM[i])
    ensures HUFF_CODE_LOM[i] < 512
  {
    var c := Describe(LOM, HUFF_CODE_LOM)[i];
    assert c == DescribeOne(LOM, HUFF_CODE_LOM[i]);
    LomHash(i);
    LomParts(i);
    SmallTag(HUFF_CODE_LOM[i]);
  }

  ghost predicate PairedOnly(cs: seq<Code>)
  {
    |cs| == 32 && forall i, j :: Mates(cs, i, j) ==> (i, j) in {(6, 14), (9, 21), (12, 25)}
  }

  lemma PairsAtMostTwo(cs: seq<Code>)
    requires PairedOnly(cs)
    ensures AtMostTwo(cs)
  {
  }

  lemma PairsTags(cs: seq<Code>)
    requires PairedOnly(cs)
    requires forall i :: 0 <= i < 32 ==> cs[i].tag % 32 == 0 && cs[i].tag < 32 * 127
    requires cs[6].tag != cs[14].tag && cs[9].tag != cs[21].tag && cs[12].tag != cs[25].tag
    ensures TagsDiffer(LOM, cs)
  {
  }

  lemma PairsSeconds(cs: seq<Code>, j: int)
    requires PairedOnly(cs) && Second(cs, j)
    ensures j in {14, 21, 25}
  {
  }

  lemma PairsSpares(cs: seq<Code>)
    requires PairedOnly(cs)
    requires forall i :: 0 <= i < 32 ==> cs[i].bucket !in {4, 10, 19}
    requires cs[14].spare == Some(4) && cs[21].spare == Some(10) && cs[25].spare == Some(19)
    ensures SparesApart(LOM, cs)
  {
    forall j | 0 <= j < |cs| && Second(cs, j) ensures j in {14, 21, 25} {
      PairsSeconds(cs, j);
    }
  }

  /** A table with three pairs of mates, all hypotheses checked on them. */
  lemma ThreePairs(cs: seq<Code>)
    requires PairedOnly(cs)
    requires forall i :: 0 <= i < 32 ==> cs[i].bucket < 32 && cs[i].bucket !in {4, 10, 19}
    requires forall i :: 0 <= i < 32 ==> cs[i].tag % 32 == 0 && cs[i].tag < 32 * 127
    requires forall i :: 0 <= i < 32 && cs[i].spare.Some? ==> cs[i].spare.value < 32
    requires cs[14].spare == Some(4) && cs[21].spare == Some(10) && cs[25].spare == Some(19)
    requires cs[6].tag != cs[14].tag && cs[9].tag != cs[21].tag && cs[12].tag != cs[25].tag
    ensures Indexable(LOM, cs)
  {
    PairsAtMostTwo(cs);
    PairsTags(cs);
    PairsSpares(cs);
  }

  lemma LomPairCodes()
    ensures HUFF_CODE_LOM[6] / 32 == 0 && HUFF_CODE_LOM[14] / 32 == 2
    ensures HUFF_CODE_LOM[9] / 32 == 0 && HUFF_CODE_LOM[21] / 32 == 4
    ensures HUFF_CODE_LOM[12] / 32 == 1 && HUFF_CODE_LOM[25] / 32 == 9
  {
  }

  lemma LomPair(i: nat, j: nat, s: nat)
    requires (i, j, s) in {(6, 14, 4), (9, 21, 10), (12, 25, 19)}
    ensures var cs := Describe(LOM, HUFF_CODE_LOM); cs[j].spare == Some(s) && cs[i].tag != cs[j].tag
  {
    LomCode(i);
    LomCode(j);
    LomSpare(HUFF_CODE_LOM[j]);
    LomPairCodes();
  }

  lemma LomIsIndexable()
    ensures Indexable(LOM, Describe(LOM, HUFF_CODE_LOM)) && Tagged(LOM, HUFF_CODE_LOM)
  {
    var cs := Describe(LOM, HUFF_CODE_LOM);
    forall i | 0 <= i < 32
      ensures cs[i].bucket < 32 && cs[i].bucket !in {4, 10, 19} && HUFF_CODE_LOM[i] < 512
      ensures cs[i].tag % 32 == 0 && cs[i].tag < 32 * 127
      ensures cs[i].spare.Some? ==> cs[i].spare.value < 32
    {
      LomCode(i);
    }
    forall i, j | Mates(cs, i, j)
      ensures (i, j) in {(6, 14), (9, 21), (12, 25)}
    {
      LomCode(i);
      LomCode(j);
      LomMatesAre(i, j);
    }
    LomPair(6, 14, 4);
    LomPair(9, 21, 10);
    LomPair(12, 25, 19);
    ThreePairs(cs);
  }

  // ---- The index of the LOM table ----------------------------------------

  /** The 32 words the generator prints. */
  const LOM_INDEX: seq<int> := [
    0xfe1, 0xfe0, 0xfe2, 0xfe8, 0x00e, 0xfe5, 0xfe4, 0xfea, 0xff1, 0xfe3, 0x015, 0xfe7, 0xfef, 0x046, 0xff0, 0xfed,
    0xfff, 0xff7, 0xffb, 0x019, 0xffd, 0xff4, 0x12c, 0xfeb, 0xffe, 0xff6, 0xffa, 0x089, 0xffc, 0xff3, 0xff8, 0xff2]

  /** The word of a bucket whose first code is i. */
  function LomWord(i: nat): (w: int)
  {
    if i == 6 then 6 + 64 else if i == 9 then 9 + 128 else if i == 12 then 12 + 288 else i + 0xfe0
  }

  predicate IndexedAt(b: nat)
    requires b < 32
  {
    if b == 4 then LOM_INDEX[b] == 14
    else if b == 10 then LOM_INDEX[b] == 21
    else if b == 19 then LOM_INDEX[b] == 25
    else
      var i := FIRST_IN_BUCKET[b];
      i < 32 && i !in {14, 21, 25} && LOM_BUCKETS[i] == b && LOM_INDEX[b] == LomWord(i)
  }

  lemma IndexLow(b: nat)
    requires b < 11
    ensures IndexedAt(b)
  {
  }

  lemma IndexMiddle(b: nat)
    requires 11 <= b < 22
    ensures IndexedAt(b)
  {
  }

  lemma IndexHigh(b: nat)
    requires 22 <= b < 32
    ensures IndexedAt(b)
  {
  }

  lemma WordsOfPair(cs: seq<Code>, words: seq<int>, table: seq<Entry>, i: nat, j: nat, s: nat)
    requires Indexable(LOM, cs) && Indexed(LOM, cs, table, |cs|) && Represents(LOM, cs, table, words)
    requires Mates(cs, i, j) && cs[j].spare == Some(s)
    ensures words[cs[i].bucket] == i + cs[j].tag && s < |words| && words[s] == j
  {
    assert Second(cs, j);
    assert table[cs[i].bucket] == Shared(i, j) && table[s] == Direct(j);
  }

  lemma PairTags(i: nat, j: nat, s: nat)
    requires (i, j, s) in {(6, 14, 4), (9, 21, 10), (12, 25, 19)}
    ensures HUFF_CODE_LOM[j] / 32 * 32 == LomWord(i) - i && LOM_BUCKETS[i] == LOM_BUCKETS[j]
  {
    PairBuckets();
    LomPairCodes();
  }

  lemma PairWords(words: seq<int>, table: seq<Entry>, i: nat, j: nat, s: nat)
    requires (i, j, s) in {(6, 14, 4), (9, 21, 10), (12, 25, 19)}
    requires var cs := Describe(LOM, HUFF_CODE_LOM);
             Indexable(LOM, cs) && Indexed(LOM, cs, table, 32) && Represents(LOM, cs, table, words)
    ensures words[LOM_BUCKETS[i]] == LomWord(i) && words[s] == j
  {
    PairTags(i, j, s);
    LomCode(i);
    LomCode(j);
    LomPair(i, j, s);
    WordsOfPair(Describe(LOM, HUFF_CODE_LOM), words, table, i, j, s);
  }

  lemma PairBuckets()
    ensures LOM_BUCKETS[6] == LOM_BUCKETS[14] && LOM_BUCKETS[9] == LOM_BUCKETS[21] && LOM_BUCKETS[12] == LOM_BUCKETS[25]
  {
  }

  lemma LoneWord(words: seq<int>, table: seq<Entry>, i: nat)
    requires i < 32 && i !in {6, 9, 12, 14, 21, 25}
    requires var cs := Describe(LOM, HUFF_CODE_LOM);
             Indexable(LOM, cs) && Indexed(LOM, cs, table, 32) && Represents(LOM, cs, table, words)
    ensures words[LOM_BUCKETS[i]] == LomWord(i)
  {
    var cs := Describe(LOM, HUFF_CODE_LOM);
    LomCode(i);
    forall m, n | Mates(cs, m, n) ensures (m, n) in {(6, 14), (9, 21), (12, 25)} {
      LomCode(m);
      LomCode(n);
      LomMatesAre(m, n);
    }
    assert !Second(cs, i) && !Joined(cs, i, 32);
    assert table[cs[i].bucket] == Lone(i);
  }

  /** Building the index of the LOM table gives these words and no others. */
  lemma LomIndexExactly(words: seq<int>)
    requires IndexOf(LOM, HUFF_CODE_LOM, words)
    ensures words == LOM_INDEX
  {
    var cs := Describe(LOM, HUFF_CODE_LOM);
    var table :| Indexed(LOM, cs, table, |cs|) && Represents(LOM, cs, table, words);
    forall b | 0 <= b < 32 ensures words[b] == LOM_INDEX[b] {
      if b < 11 { IndexLow(b); } else if b < 22 { IndexMiddle(b); } else { IndexHigh(b); }
      PairWords(words, table, 6, 14, 4);
      PairWords(words, table, 9, 21, 10);
      PairWords(words, table, 12, 25, 19);
      if b !in {4, 10, 19} && FIRST_IN_BUCKET[b] !in {6, 9, 12} {
        LoneWord(words, table, FIRST_IN_BUCKET[b]);
      }
    }
  }

  /** The generator's own self-check: every code is looked up at its position. */
  method CheckPositions(l: Layout, codes: seq<Word>, table: array<int>) returns (good: bool)
    requires IndexOf(l, codes, table[..]) && Tagged(l, codes)
    ensures good
  {
    good := true;
    for i := 0 to |codes|
      invariant good
    {
      LookupFindsPosition(l, codes, table[..], i);
      var v := GetValue(l, table, codes[i]);
      if v != Some(i) {
        good := false;
      }
    }
  }

  /** The whole generator on the LOM table: the words it prints, and its self-check. */
  method CheckLom() returns (good: bool, words: seq<int>)
    ensures good && words == LOM_INDEX
  {
    LomIsIndexable();
    var table := new int[32](_ => EMPTY);
    BuildHashTable(LOM, HUFF_CODE_LOM, table);
    LomIndexExactly(table[..]);
    words := table[..];
    good := CheckPositions(LOM, HUFF_CODE_LOM, table);
  }
}
