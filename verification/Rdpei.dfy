/**
 The variable-length integers of channels/rdpei/rdpei_common.c
 (sections 2.2.2.1 to 2.2.2.5 of MS-RDPEI).

 `Encode` and `Decode` describe all five formats at once: a lead byte holding
 the number of bytes that follow, a sign bit for the signed formats and the top
 payload bits, then the rest of the payload in big-endian order.
 The read and write methods are the ones of the source. A shift or mask by a
 constant is written as `/` and `%`. `Or` is the `|` of operands without common
 bits, and asks for a proof that there are none; the readers' `|=` of bytes
 shifted to different places is a sum.
 */
module Rdpei {
  import opened WinprStream

  datatype Kind = U2 | S2 | U4 | S4 | U8

  /** The values of the C parameter type. */
  predicate InRange(k: Kind, v: int)
  {
    match k
    case U2 => 0 <= v <= 0xFFFF
    case S2 => -0x8000 <= v <= 0x7FFF
    case U4 => 0 <= v <= 0xFFFF_FFFF
    case S4 => -0x8000_0000 <= v <= 0x7FFF_FFFF
    case U8 => 0 <= v <= 0xFFFF_FFFF_FFFF_FFFF
  }

  /** The most negative value of a signed format: negating it gives itself again. */
  predicate IsMinimum(k: Kind, v: int)
  {
    (k.S2? && v == -0x8000) || (k.S4? && v == -0x8000_0000)
  }

  /** One more than the largest payload of a lead byte. */
  function Payload(k: Kind): (p: nat)
    ensures p > 0
  {
    match k
    case U2 => 0x80
    case S2 => 0x40
    case U4 => 0x40
    case S4 => 0x20
    case U8 => 0x20
  }

  /** One more than the largest combination of sign and payload. */
  function CountUnit(k: Kind): (u: nat)
    ensures u > 0
  {
    match k
    case U2 => 0x80
    case S2 => 0x80
    case U4 => 0x40
    case S4 => 0x40
    case U8 => 0x20
  }

  function Or(high: nat, low: nat, unit: nat): (r: nat)
    requires unit > 0 && low < unit && high % unit == 0
  {
    high + low
  }

  // ---- Decoding ----------------------------------------------------------

  /** A reader runs out of bytes, having consumed some, or produces a value. */
  datatype Decoded = Short(consumed: nat) | Value(value: int, consumed: nat)

  function FromBigEndian(acc: nat, bytes: seq<Byte>): (v: nat)
    decreases |bytes|
  {
    if bytes == [] then acc
    else 0x100 * FromBigEndian(acc, bytes[..|bytes| - 1]) + bytes[|bytes| - 1]
  }

  function Decode(k: Kind, bytes: seq<Byte>): (d: Decoded)
    ensures d.consumed <= |bytes|
  {
    if bytes == [] then Short(0)
    else
      var n := bytes[0] / CountUnit(k);
      if |bytes| < 1 + n then Short(1)
      else
        var m: int := FromBigEndian(bytes[0] % Payload(k), bytes[1..1 + n]);
        var negative := bytes[0] % CountUnit(k) >= Payload(k);
        Value(if negative then -m else m, 1 + n)
  }

  // ---- Encoding ----------------------------------------------------------

  /** What the writers work on; the minimum is left as it is by its negation. */
  function Magnitude(k: Kind, v: int): (m: int)
  {
    if v < 0 && !IsMinimum(k, v) then -v else v
  }

  /**
   How many bytes follow the lead byte when a magnitude is written, if the
   writer accepts it. The signed writers compare with a signed type, so the
   minimum, still negative, counts as small.
   */
  function Extra(k: Kind, m: int): (n: Option<nat>)
    ensures n.Some? ==> n.value <= 7
  {
    match k
    case U2 => if m < 0x7F then Some(0) else if m <= 0x7FFF then Some(1) else None
    case S2 => if m < 0x3F then Some(0) else if m <= 0x3FFF then Some(1) else None
    case U4 => if m <= 0x3F then Some(0) else if m <= 0x3FFF then Some(1)
      else if m <= 0x3F_FFFF then Some(2) else if m <= 0x3FFF_FFFF then Some(3) else None
    case S4 => if m <= 0x1F then Some(0) else if m <= 0x1FFF then Some(1)
      else if m <= 0x1F_FFFF then Some(2) else if m <= 0x1FFF_FFFF then Some(3) else None
    case U8 => if m <= 0x1F then Some(0) else if m <= 0x1FFF then Some(1)
      else if m <= 0x1F_FFFF then Some(2) else if m <= 0x1FFF_FFFF then Some(3)
      else if m <= 0x1F_FFFF_FFFF then Some(4) else if m <= 0x1FFF_FFFF_FFFF then Some(5)
      else if m <= 0x1F_FFFF_FFFF_FFFF then Some(6) else if m <= 0x1FFF_FFFF_FFFF_FFFF then Some(7) else None
  }

  /** The value without its `n` lowest bytes. */
  function Above(m: int, n: nat): (r: int)
    decreases n
  {
    if n == 0 then m else Above(m / 0x100, n - 1)
  }

  /** The writers keep five bits of the bytes at index 3 and above. */
  function KeptOf(m: int, i: nat): (b: Byte)
  {
    if i >= 3 then m % 0x20 else m % 0x100
  }

  /**
   The low `n` bytes of `m`, highest first, as the writers emit them;
   `i` is the index of the lowest one within the whole value.
   */
  function Tail(m: int, n: nat, i: nat): (r: seq<Byte>)
    ensures |r| == n
    decreases n
  {
    if n == 0 then [] else Tail(m / 0x100, n - 1, i + 1) + [KeptOf(m, i)]
  }

  function Lead(k: Kind, v: int, n: nat): (b: nat)
  {
    CountUnit(k) * n + (if v < 0 then Payload(k) else 0) + Above(Magnitude(k, v), n) % Payload(k)
  }

  function Encode(k: Kind, v: int): (r: Option<seq<Byte>>)
    requires InRange(k, v)
    ensures r.Some? ==> 1 <= |r.value| <= 8
  {
    var m := Magnitude(k, v);
    match Extra(k, m)
    case None => None
    case Some(n) => Some([Lead(k, v, n) as Byte] + Tail(m, n, 0))
  }

  // ---- What survives -----------------------------------------------------

  /** Byte `j` of a value, counted from the lowest. */
  function Digit(m: nat, j: nat): (b: Byte)
    decreases j
  {
    if j == 0 then m % 0x100 else Digit(m / 0x100, j - 1)
  }

  /** The value rebuilt from `Above` and `Tail`. */
  function Kept(m: nat, n: nat, i: nat): (r: nat)
    decreases n
  {
    if n == 0 then m else 0x100 * Kept(m / 0x100, n - 1, i + 1) + KeptOf(m, i)
  }

  lemma {:induction false} RebuildTail(m: nat, n: nat, i: nat)
    ensures Above(m, n) >= 0
    ensures FromBigEndian(Above(m, n), Tail(m, n, i)) == Kept(m, n, i)
    decreases n
  {
    if n > 0 {
      RebuildTail(m / 0x100, n - 1, i + 1);
      assert Tail(m, n, i)[..n - 1] == Tail(m / 0x100, n - 1, i + 1);
    }
  }

  lemma KeptStep(m: nat, n: nat, i: nat)
    requires n > 0
    ensures Kept(m, n, i) / 0x100 == Kept(m / 0x100, n - 1, i + 1)
    ensures Kept(m, n, i) % 0x100 == KeptOf(m, i)
  {
    assert Kept(m, n, i) == 0x100 * Kept(m / 0x100, n - 1, i + 1) + KeptOf(m, i);
  }

  /** Bits 5 to 7 of the bytes from index 3 to the one below the lead byte are lost, nothing else. */
  lemma {:induction false} KeptDigits(m: nat, n: nat, i: nat, j: nat)
    ensures Digit(Kept(m, n, i), j) == if j < n && i + j >= 3 then Digit(m, j) % 0x20 else Digit(m, j)
    decreases n
  {
    if n > 0 {
      KeptStep(m, n, i);
      if j == 0 {
        assert m % 0x20 == m % 0x100 % 0x20;
      } else {
        KeptDigits(m / 0x100, n - 1, i + 1, j - 1);
      }
    }
  }

  /** The bits that `Kept` loses are already clear. */
  predicate LosesNothing(m: nat, n: nat, i: nat)
  {
    forall j: nat :: j < n && i + j >= 3 ==> Digit(m, j) < 0x20
  }

  lemma {:induction false} ClearIsKept(m: nat, n: nat, i: nat)
    requires LosesNothing(m, n, i)
    ensures Kept(m, n, i) == m
    decreases n
  {
    if n > 0 {
      assert Digit(m, 0) == m % 0x100;
      assert KeptOf(m, i) == m % 0x100;
      forall j: nat | j < n - 1 && i + 1 + j >= 3
        ensures Digit(m / 0x100, j) < 0x20
      {
        assert Digit(m, j + 1) < 0x20;
      }
      ClearIsKept(m / 0x100, n - 1, i + 1);
    }
  }

  /** What a reader gets back for an accepted value. */
  function Stored(k: Kind, v: int): (r: int)
    requires InRange(k, v)
  {
    if IsMinimum(k, v) then 0
    else match Extra(k, v)
      case Some(n) => if k.U8? then Kept(v, n, 0) else v
      case None => v
  }

  lemma {:induction false} AboveFits(k: Kind, m: nat, n: nat)
    requires Extra(k, m) == Some(n)
    ensures 0 <= Above(m, n) < Payload(k)
  {
    if n > 0 {
      ShiftFits(m, n, Payload(k));
    }
  }

  function Power256(n: nat): (p: nat)
  {
    if n == 0 then 1 else 0x100 * Power256(n - 1)
  }

  lemma {:induction false} ShiftFits(m: nat, n: nat, bound: nat)
    requires m < bound * Power256(n)
    ensures 0 <= Above(m, n) < bound
    decreases n
  {
    if n > 0 {
      assert bound * Power256(n) == 0x100 * (bound * Power256(n - 1));
      ShiftFits(m / 0x100, n - 1, bound);
    }
  }

  /** Short tails keep everything. */
  lemma ShortTailIsKept(m: nat, n: nat)
    requires n <= 3
    ensures Kept(m, n, 0) == m
  {
    ClearIsKept(m, n, 0);
  }

  lemma Parts80(n: nat, low: nat)
    requires low < 0x80
    ensures (0x80 * n + low) / 0x80 == n && (0x80 * n + low) % 0x80 == low
  {
  }

  lemma Parts40(n: nat, low: nat)
    requires low < 0x40
    ensures (0x40 * n + low) / 0x40 == n && (0x40 * n + low) % 0x40 == low
  {
  }

  lemma Parts20(n: nat, low: nat)
    requires low < 0x20
    ensures (0x20 * n + low) / 0x20 == n && (0x20 * n + low) % 0x20 == low
  {
  }

  lemma LeadParts(k: Kind, n: nat, sign: nat, top: nat)
    requires top < Payload(k) && sign in {0, Payload(k)} && sign + top < CountUnit(k)
    ensures (CountUnit(k) * n + sign + top) / CountUnit(k) == n
    ensures (CountUnit(k) * n + sign + top) % CountUnit(k) == sign + top
    ensures (CountUnit(k) * n + sign + top) % Payload(k) == top
  {
    var half := if sign == 0 then 2 * n else 2 * n + 1;
    match k {
      case U2 => Parts80(n, top);
      case S2 =>
        Parts80(n, sign + top);
        Parts40(half, top);
      case U4 => Parts40(n, top);
      case S4 =>
        Parts40(n, sign + top);
        Parts20(half, top);
      case U8 => Parts20(n, top);
    }
  }

  lemma LeadReadsBack(k: Kind, v: int, n: nat)
    requires InRange(k, v) && Extra(k, Magnitude(k, v)) == Some(n)
    ensures Lead(k, v, n) / CountUnit(k) == n
    ensures Lead(k, v, n) % CountUnit(k) >= Payload(k) <==> v < 0
    ensures Lead(k, v, n) % Payload(k) == Above(Magnitude(k, v), n) % Payload(k)
  {
    var sign, top := if v < 0 then Payload(k) else 0, Above(Magnitude(k, v), n) % Payload(k);
    assert Lead(k, v, n) == CountUnit(k) * n + sign + top;
    LeadParts(k, n, sign, top);
  }

  lemma DecodeParts(k: Kind, lead: Byte, tail: seq<Byte>, rest: seq<Byte>)
    requires lead / CountUnit(k) == |tail|
    ensures Decode(k, [lead] + tail + rest) ==
            var m: int := FromBigEndian(lead % Payload(k), tail);
            Value(if lead % CountUnit(k) >= Payload(k) then -m else m, 1 + |tail|)
  {
    assert ([lead] + tail + rest)[1..1 + |tail|] == tail;
  }

  lemma SmallRemainder(x: nat, p: nat)
    requires x < p
    ensures x % p == x
  {
  }

  /** A magnitude rebuilt from the lead byte's payload and the tail. */
  lemma RebuildMagnitude(k: Kind, m: nat, n: nat)
    requires Extra(k, m) == Some(n)
    ensures FromBigEndian(Above(m, n) % Payload(k), Tail(m, n, 0)) == if k.U8? then Kept(m, n, 0) else m
  {
    AboveFits(k, m, n);
    SmallRemainder(Above(m, n), Payload(k));
    RebuildTail(m, n, 0);
    if !k.U8? {
      assert n <= 3;
      ShortTailIsKept(m, n);
    }
  }

  /** The minimum is written as a zero with its sign bit set. */
  lemma MinimumReadsAsZero(k: Kind, v: int)
    requires IsMinimum(k, v)
    ensures FromBigEndian(Above(v, 0) % Payload(k), Tail(v, 0, 0)) == 0
  {
    assert Above(v, 0) % Payload(k) == 0;
  }

  /**
   Reading what was written, with anything behind it, gives the stored value
   and consumes exactly the bytes written.
   */
  lemma RoundTrip(k: Kind, v: int, rest: seq<Byte>)
    requires InRange(k, v) && Encode(k, v).Some?
    ensures Decode(k, Encode(k, v).value + rest) == Value(Stored(k, v), |Encode(k, v).value|)
  {
    var m := Magnitude(k, v);
    var n := Extra(k, m).value;
    LeadReadsBack(k, v, n);
    DecodeParts(k, Lead(k, v, n), Tail(m, n, 0), rest);
    if IsMinimum(k, v) {
      MinimumReadsAsZero(k, v);
    } else {
      RebuildMagnitude(k, m, n);
    }
  }

  /** The value written comes back exactly when none of the lossy cases applies. */
  predicate Survives(k: Kind, v: int)
    requires InRange(k, v)
  {
    && !IsMinimum(k, v)
    && (k.U8? && Extra(k, v).Some? ==> LosesNothing(v, Extra(k, v).value, 0))
  }

  lemma RoundTripExact(k: Kind, v: int, rest: seq<Byte>)
    requires InRange(k, v) && Encode(k, v).Some?
    ensures Decode(k, Encode(k, v).value + rest) == Value(v, |Encode(k, v).value|) <==> Survives(k, v)
  {
    RoundTrip(k, v, rest);
    if k.U8? {
      var n := Extra(k, v).value;
      if LosesNothing(v, n, 0) {
        ClearIsKept(v, n, 0);
      } else {
        var j: nat :| j < n && j >= 3 && Digit(v, j) >= 0x20;
        KeptDigits(v, n, 0, j);
      }
    }
  }

  /** Which values the writers accept: those that fit the payload, and the minimum of the signed formats. */
  lemma AcceptedExactly(k: Kind, v: int)
    requires InRange(k, v)
    ensures Encode(k, v).Some? <==>
            match k
            case U2 => v <= 0x7FFF
            case S2 => -0x3FFF <= v <= 0x3FFF || v == -0x8000
            case U4 => v <= 0x3FFF_FFFF
            case S4 => -0x1FFF_FFFF <= v <= 0x1FFF_FFFF || v == -0x8000_0000
            case U8 => v <= 0x1FFF_FFFF_FFFF_FFFF
  {
  }

  /** How many bytes an accepted value takes, the sign apart: the 2-byte formats leave one value of a byte unused. */
  lemma BytesUsed(k: Kind, v: int)
    requires InRange(k, v) && Encode(k, v).Some?
    ensures var m := if v < 0 then -v else v;
            |Encode(k, v).value| ==
            if IsMinimum(k, v) then 1
            else match k
              case U2 => if m < 0x7F then 1 else 2
              case S2 => if m < 0x3F then 1 else 2
              case U4 => if m <= 0x3F then 1 else if m <= 0x3FFF then 2 else if m <= 0x3F_FFFF then 3 else 4
              case S4 => if m <= 0x1F then 1 else if m <= 0x1FFF then 2 else if m <= 0x1F_FFFF then 3 else 4
              case U8 =>
                if m <= 0x1F then 1 else if m <= 0x1FFF then 2 else if m <= 0x1F_FFFF then 3
                else if m <= 0x1FFF_FFFF then 4 else if m <= 0x1F_FFFF_FFFF then 5
                else if m <= 0x1FFF_FFFF_FFFF then 6 else if m <= 0x1F_FFFF_FFFF_FFFF then 7 else 8
  {
  }

  /**
   What any bytes read as: the top bits of the lead byte count the bytes that follow, the next
   bit is the sign of the signed formats, and the rest begins a big-endian number.
   */
  lemma DecodeExactly(k: Kind, bytes: seq<Byte>)
    ensures bytes == [] ==> Decode(k, bytes) == Short(0)
    ensures bytes != [] ==>
              var lead := bytes[0] as int;
              var n := match k
                case U2 => lead / 0x80
                case S2 => lead / 0x80
                case U4 => lead / 0x40
                case S4 => lead / 0x40
                case U8 => lead / 0x20;
              var top := match k
                case U2 => lead % 0x80
                case S2 => lead % 0x40
                case U4 => lead % 0x40
                case S4 => lead % 0x20
                case U8 => lead % 0x20;
              var negative := (k.S2? && lead % 0x80 >= 0x40) || (k.S4? && lead % 0x40 >= 0x20);
              if |bytes| < 1 + n then Decode(k, bytes) == Short(1)
              else
                var m: int := FromBigEndian(top, bytes[1..1 + n]);
                Decode(k, bytes) == Value(if negative then -m else m, 1 + n)
  {
  }

  // ---- The writers -------------------------------------------------------
  // Each list written holds the operands of consecutive Stream_Write_UINT8 calls.

  lemma TailUpTo3(m: int)
    ensures Tail(m, 0, 0) == [] && Tail(m, 1, 0) == [m % 0x100]
    ensures Tail(m, 2, 0) == [m / 0x100 % 0x100, m % 0x100]
    ensures Tail(m, 3, 0) == [m / 0x1_0000 % 0x100, m / 0x100 % 0x100, m % 0x100]
    ensures Above(m, 0) == m && Above(m, 1) == m / 0x100
    ensures Above(m, 2) == m / 0x1_0000 && Above(m, 3) == m / 0x100_0000
  {
    assert Above(m / 0x1_0000, 1) == m / 0x100_0000;
    assert Tail(m / 0x1_0000, 1, 2) == [m / 0x1_0000 % 0x100];
    assert Tail(m / 0x100, 2, 1) == [m / 0x1_0000 % 0x100, m / 0x100 % 0x100];
  }

  /** The bytes of an accepted unsigned 2-byte value, spelled out. */
  lemma EncodeShort(value: int)
    requires InRange(U2, value)
    ensures Encode(U2, value) == if value < 0x7F then Some([value % 0x80])
                                 else if value <= 0x7FFF then Some([0x80 + value / 0x100, value % 0x100])
                                 else None
    ensures value <= 0x7FFF ==> value % 0x8000 / 0x100 == value / 0x100 < 0x80
  {
    TailUpTo3(value);
    if value < 0x7F {
      assert Lead(U2, value, 0) == value % 0x80;
      assert [value % 0x80] + Tail(value, 0, 0) == [value % 0x80];
    } else if value <= 0x7FFF {
      assert Lead(U2, value, 1) == 0x80 + value / 0x100;
      assert [0x80 + value / 0x100] + Tail(value, 1, 0) == [0x80 + value / 0x100, value % 0x100];
    }
  }

  method Write2ByteUnsigned(s: Stream, value: int) returns (ok: bool)
    requires s.Valid() && s.buffer != [] && InRange(U2, value)
    modifies s
    ensures s.Valid() && ok == Encode(U2, value).Some?
    ensures s.Written() == old(s.Written()) + (if ok then Encode(U2, value).value else [])
    ensures |s.buffer| == Reserved(old(|s.buffer|), old(s.position), 2)
  {
    EncodeShort(value);
    s.EnsureRemainingCapacity(2);
    if value > 0x7FFF {
      return false;
    }
    if value >= 0x7F {
      s.Write([Or(0x80, value % 0x8000 / 0x100, 0x80), value % 0x100]);
    } else {
      s.Write([value % 0x80]);
    }
    return true;
  }

  /** The bytes of an accepted signed value, spelled out. */
  lemma EncodeSigned(k: Kind, value: int)
    requires (k.S2? || k.S4?) && InRange(k, value)
    ensures var v := Magnitude(k, value);
            var sign: nat := if value < 0 then Payload(k) else 0;
            match Extra(k, v)
            case None => Encode(k, value).None?
            case Some(n) =>
              && n <= 3
              && (n == 0 ==> Encode(k, value) == Some([sign + v % Payload(k)]))
              && (n == 1 ==> Encode(k, value) == Some([CountUnit(k) + sign + v / 0x100 % Payload(k), v % 0x100]))
              && (n == 2 ==> Encode(k, value) == Some([2 * CountUnit(k) + sign + v / 0x1_0000 % Payload(k),
                                                       v / 0x100 % 0x100, v % 0x100]))
              && (n == 3 ==> Encode(k, value) == Some([3 * CountUnit(k) + sign + v / 0x100_0000 % Payload(k),
                                                       v / 0x1_0000 % 0x100, v / 0x100 % 0x100, v % 0x100]))
  {
    var v := Magnitude(k, value);
    TailUpTo3(v);
    if Extra(k, v).Some? {
      var lead := Lead(k, value, Extra(k, v).value);
      assert [lead] + Tail(v, 0, 0) == [lead];
      assert [lead] + Tail(v, 1, 0) == [lead, v % 0x100];
      assert [lead] + Tail(v, 2, 0) == [lead, v / 0x100 % 0x100, v % 0x100];
      assert [lead] + Tail(v, 3, 0) == [lead, v / 0x1_0000 % 0x100, v / 0x100 % 0x100, v % 0x100];
    }
  }

  lemma MiddleBits(v: nat)
    ensures v % 0x4000 / 0x100 == v / 0x100 % 0x40
  {
  }

  method Write2ByteSigned(s: Stream, value: int) returns (ok: bool)
    requires s.Valid() && s.buffer != [] && InRange(S2, value)
    modifies s
    ensures s.Valid() && ok == Encode(S2, value).Some?
    ensures s.Written() == old(s.Written()) + (if ok then Encode(S2, value).value else [])
    ensures |s.buffer| == Reserved(old(|s.buffer|), old(s.position), 2)
  {
    EncodeSigned(S2, value);
    s.EnsureRemainingCapacity(2);
    var v, sign := value, 0;
    if v < 0 {
      sign := 0x40;
      v := if v == -0x8000 then v else -v; // INT16 arithmetic
    }
    if v > 0x3FFF {
      return false;
    }
    if v >= 0x3F {
      MiddleBits(v);
      s.Write([Or(0x80, Or(sign, v % 0x4000 / 0x100, 0x40), 0x80), v % 0x100]);
    } else {
      s.Write([Or(sign, v % 0x40, 0x40)]);
    }
    return true;
  }

  method Write4ByteUnsigned(s: Stream, value: int) returns (ok: bool)
    requires s.Valid() && s.buffer != [] && InRange(U4, value)
    modifies s
    ensures s.Valid() && ok == Encode(U4, value).Some?
    ensures s.Written() == old(s.Written()) + (if ok then Encode(U4, value).value else [])
    ensures |s.buffer| == Reserved(old(|s.buffer|), old(s.position), 4)
  {
    TailUpTo3(value);
    s.EnsureRemainingCapacity(4);
    if value <= 0x3F {
      s.Write([value]);
    } else if value <= 0x3FFF {
      s.Write([Or(0x40, value / 0x100 % 0x40, 0x40), value % 0x100]);
    } else if value <= 0x3F_FFFF {
      s.Write([Or(0x80, value / 0x1_0000 % 0x40, 0x40), value / 0x100 % 0x100, value % 0x100]);
    } else if value <= 0x3FFF_FFFF {
      s.Write([Or(0xC0, value / 0x100_0000 % 0x40, 0x40), value / 0x1_0000 % 0x100, value / 0x100 % 0x100,
               value % 0x100]);
    } else {
      return false;
    }
    return true;
  }

  method Write4ByteSigned(s: Stream, value: int) returns (ok: bool)
    requires s.Valid() && s.buffer != [] && InRange(S4, value)
    modifies s
    ensures s.Valid() && ok == Encode(S4, value).Some?
    ensures s.Written() == old(s.Written()) + (if ok then Encode(S4, value).value else [])
    ensures |s.buffer| == Reserved(old(|s.buffer|), old(s.position), 4)
  {
    EncodeSigned(S4, value);
    s.EnsureRemainingCapacity(4);
    var v, sign := value, 0;
    if v < 0 {
      sign := 0x20;
      v := if v == -0x8000_0000 then v else -v; // two's complement wrap-around
    }
    if v <= 0x1F {
      s.Write([Or(sign, v % 0x20, 0x20)]);
    } else if v <= 0x1FFF {
      s.Write([Or(0x40, Or(sign, v / 0x100 % 0x20, 0x20), 0x40), v % 0x100]);
    } else if v <= 0x1F_FFFF {
      s.Write([Or(0x80, Or(sign, v / 0x1_0000 % 0x20, 0x20), 0x40), v / 0x100 % 0x100, v % 0x100]);
    } else if v <= 0x1FFF_FFFF {
      s.Write([Or(0xC0, Or(sign, v / 0x100_0000 % 0x20, 0x20), 0x40), v / 0x1_0000 % 0x100, v / 0x100 % 0x100,
               v % 0x100]);
    } else {
      return false;
    }
    return true;
  }

  lemma TailUpTo7(m: int)
    ensures Above(m, 4) == m / 0x1_0000_0000
    ensures Tail(m, 4, 0) ==
            [m / 0x100_0000 % 0x20, m / 0x1_0000 % 0x100, m / 0x100 % 0x100, m % 0x100]
    ensures Above(m, 5) == m / 0x100_0000_0000
    ensures Tail(m, 5, 0) ==
            [m / 0x1_0000_0000 % 0x20, m / 0x100_0000 % 0x20, m / 0x1_0000 % 0x100, m / 0x100 % 0x100, m % 0x100]
    ensures Above(m, 6) == m / 0x1_0000_0000_0000
    ensures Tail(m, 6, 0) ==
            [m / 0x100_0000_0000 % 0x20, m / 0x1_0000_0000 % 0x20, m / 0x100_0000 % 0x20, m / 0x1_0000 % 0x100,
             m / 0x100 % 0x100, m % 0x100]
    ensures Above(m, 7) == m / 0x100_0000_0000_0000
    ensures Tail(m, 7, 0) ==
            [m / 0x1_0000_0000_0000 % 0x20, m / 0x100_0000_0000 % 0x20, m / 0x1_0000_0000 % 0x20,
             m / 0x100_0000 % 0x20, m / 0x1_0000 % 0x100, m / 0x100 % 0x100, m % 0x100]
  {
    TailSplit(m, 4);
    TailSplit(m, 5);
    TailSplit(m, 6);
    TailSplit(m, 7);
    TailUpTo3High(m / 0x1_0000_0000);
  }

  lemma TailSplit(m: int, n: nat)
    requires n >= 4
    ensures Above(m, n) == Above(m / 0x1_0000_0000, n - 4)
    ensures Tail(m, n, 0) == Tail(m / 0x1_0000_0000, n - 4, 4)
                             + [m / 0x100_0000 % 0x20, m / 0x1_0000 % 0x100, m / 0x100 % 0x100, m % 0x100]
  {
    var m1, m2, m3, m4 := m / 0x100, m / 0x1_0000, m / 0x100_0000, m / 0x1_0000_0000;
    assert Above(m, n) == Above(m1, n - 1) == Above(m2, n - 2) == Above(m3, n - 3) == Above(m4, n - 4);
    assert Tail(m2, n - 2, 2) == Tail(m4, n - 4, 4) + [m3 % 0x20, m2 % 0x100];
    assert Tail(m, n, 0) == Tail(m2, n - 2, 2) + [m1 % 0x100, m % 0x100];
  }

  lemma TailUpTo3High(m: int)
    ensures Above(m, 0) == m && Above(m, 1) == m / 0x100
    ensures Above(m, 2) == m / 0x1_0000 && Above(m, 3) == m / 0x100_0000
    ensures Tail(m, 0, 4) == [] && Tail(m, 1, 4) == [m % 0x20]
    ensures Tail(m, 2, 4) == [m / 0x100 % 0x20, m % 0x20]
    ensures Tail(m, 3, 4) == [m / 0x1_0000 % 0x20, m / 0x100 % 0x20, m % 0x20]
  {
    TailUpTo3(m);
    assert Tail(m / 0x1_0000, 1, 6) == [m / 0x1_0000 % 0x20];
    assert Tail(m / 0x100, 2, 5) == [m / 0x1_0000 % 0x20, m / 0x100 % 0x20];
  }

  method WriteUpTo4Bytes(s: Stream, value: int)
    requires s.Valid() && s.position + 8 <= |s.buffer| && 0 <= value <= 0x1FFF_FFFF
    modifies s
    ensures s.Valid() && |s.buffer| == old(|s.buffer|) && Encode(U8, value).Some?
    ensures s.Written() == old(s.Written()) + Encode(U8, value).value
  {
    TailUpTo3(value);
    if value <= 0x1F {
      s.Write([value % 0x20]);
    } else if value <= 0x1FFF {
      s.Write([Or(1 * 0x20, value / 0x100 % 0x20, 0x20),
               value % 0x100]);
    } else if value <= 0x1F_FFFF {
      s.Write([Or(2 * 0x20, value / 0x1_0000 % 0x20, 0x20),
               value / 0x100 % 0x100, value % 0x100]);
    } else {
      s.Write([Or(3 * 0x20, value / 0x100_0000 % 0x20, 0x20),
               value / 0x1_0000 % 0x100, value / 0x100 % 0x100, value % 0x100]);
    }
  }

  method WriteUpTo8Bytes(s: Stream, value: int) returns (ok: bool)
    requires s.Valid() && s.position + 8 <= |s.buffer| && 0x1FFF_FFFF < value && InRange(U8, value)
    modifies s
    ensures s.Valid() && |s.buffer| == old(|s.buffer|) && ok == Encode(U8, value).Some?
    ensures s.Written() == old(s.Written()) + (if ok then Encode(U8, value).value else [])
  {
    TailUpTo7(value);
    if value <= 0x1F_FFFF_FFFF {
      s.Write([Or(4 * 0x20, value / 0x1_0000_0000 % 0x20, 0x20),
               value / 0x100_0000 % 0x20, value / 0x1_0000 % 0x100, value / 0x100 % 0x100, value % 0x100]);
    } else if value <= 0x1FFF_FFFF_FFFF {
      s.Write([Or(5 * 0x20, value / 0x100_0000_0000 % 0x20, 0x20),
               value / 0x1_0000_0000 % 0x20, value / 0x100_0000 % 0x20, value / 0x1_0000 % 0x100,
               value / 0x100 % 0x100, value % 0x100]);
    } else if value <= 0x1F_FFFF_FFFF_FFFF {
      s.Write([Or(6 * 0x20, value / 0x1_0000_0000_0000 % 0x20, 0x20),
               value / 0x100_0000_0000 % 0x20, value / 0x1_0000_0000 % 0x20, value / 0x100_0000 % 0x20,
               value / 0x1_0000 % 0x100, value / 0x100 % 0x100, value % 0x100]);
    } else if value <= 0x1FFF_FFFF_FFFF_FFFF {
      s.Write([Or(7 * 0x20, value / 0x100_0000_0000_0000 % 0x20, 0x20),
               value / 0x1_0000_0000_0000 % 0x20, value / 0x100_0000_0000 % 0x20, value / 0x1_0000_0000 % 0x20,
               value / 0x100_0000 % 0x20, value / 0x1_0000 % 0x100, value / 0x100 % 0x100, value % 0x100]);
    } else {
      return false;
    }
    return true;
  }

  method Write8ByteUnsigned(s: Stream, value: int) returns (ok: bool)
    requires s.Valid() && s.buffer != [] && InRange(U8, value)
    modifies s
    ensures s.Valid() && ok == Encode(U8, value).Some?
    ensures s.Written() == old(s.Written()) + (if ok then Encode(U8, value).value else [])
    ensures |s.buffer| == Reserved(old(|s.buffer|), old(s.position), 8)
  {
    s.EnsureRemainingCapacity(8);
    if value <= 0x1FFF_FFFF {
      WriteUpTo4Bytes(s, value);
      return true;
    }
    ok := WriteUpTo8Bytes(s, value);
  }

  // ---- The readers -------------------------------------------------------

  lemma FromBigEndianUpTo3(acc: nat, b: seq<Byte>)
    ensures FromBigEndian(acc, []) == acc
    ensures |b| == 1 ==> FromBigEndian(acc, b) == 0x100 * acc + b[0]
    ensures |b| == 2 ==> FromBigEndian(acc, b) == 0x1_0000 * acc + 0x100 * (b[0] as int) + b[1]
    ensures |b| == 3 ==>
              FromBigEndian(acc, b) == 0x100_0000 * acc + 0x1_0000 * (b[0] as int) + 0x100 * (b[1] as int) + b[2]
  {
    if |b| == 2 {
      assert b[..1] == [b[0]];
    }
    if |b| == 3 {
      assert b[..2] == [b[0], b[1]];
      assert b[..2][..1] == [b[0]];
    }
  }

  method Read2ByteUnsigned(s: Stream) returns (ok: bool, value: int)
    requires s.Valid() && s.position <= s.length
    modifies s`position
    ensures s.Valid() && s.position <= s.length
    ensures ok == Decode(U2, old(s.Rest())).Value?
    ensures ok ==> value == Decode(U2, old(s.Rest())).value
    ensures s.Rest() == old(s.Rest())[Decode(U2, old(s.Rest())).consumed..]
  {
    if s.length - s.position < 1 {
      return false, 0;
    }
    ghost var bytes := s.Rest();
    var byte := s.ReadUint8();
    if byte >= 0x80 {
      if s.length - s.position < 1 {
        return false, 0;
      }
      FromBigEndianUpTo3(byte % 0x80, bytes[1..2]);
      value := (byte % 0x80) as int * 0x100;
      byte := s.ReadUint8();
      value := value + byte;
    } else {
      FromBigEndianUpTo3(byte, []);
      value := byte % 0x80;
    }
    return true, value;
  }

  method Read2ByteSigned(s: Stream) returns (ok: bool, value: int)
    requires s.Valid() && s.position <= s.length
    modifies s`position
    ensures s.Valid() && s.position <= s.length
    ensures ok == Decode(S2, old(s.Rest())).Value?
    ensures ok ==> value == Decode(S2, old(s.Rest())).value
    ensures s.Rest() == old(s.Rest())[Decode(S2, old(s.Rest())).consumed..]
  {
    if s.length - s.position < 1 {
      return false, 0;
    }
    ghost var bytes := s.Rest();
    var byte := s.ReadUint8();
    var negative := byte % 0x80 >= 0x40;
    var val: int := byte % 0x40;
    if byte >= 0x80 {
      if s.length - s.position < 1 {
        return false, 0;
      }
      FromBigEndianUpTo3(val, bytes[1..2]);
      byte := s.ReadUint8();
      value := val * 0x100 + byte;
    } else {
      FromBigEndianUpTo3(val, []);
      value := val;
    }
    if negative {
      value := -value;
    }
    return true, value;
  }

  method Read4ByteUnsigned(s: Stream) returns (ok: bool, value: int)
    requires s.Valid() && s.position <= s.length
    modifies s`position
    ensures s.Valid() && s.position <= s.length
    ensures ok == Decode(U4, old(s.Rest())).Value?
    ensures ok ==> value == Decode(U4, old(s.Rest())).value
    ensures s.Rest() == old(s.Rest())[Decode(U4, old(s.Rest())).consumed..]
  {
    if s.length - s.position < 1 {
      return false, 0;
    }
    ghost var bytes := s.Rest();
    var byte := s.ReadUint8();
    var count := byte / 0x40;
    if s.length - s.position < count {
      return false, 0;
    }
    var lead: int := byte % 0x40;
    var b: seq<Byte> := [];
    FromBigEndianUpTo3(lead, bytes[1..1 + count]);
    match count {
      case 0 =>
        value := lead;
      case 1 =>
        b := s.ReadBytes(1);
        value := lead * 0x100 + b[0];
      case 2 =>
        b := s.ReadBytes(2);
        value := lead * 0x1_0000 + b[0] as int * 0x100 + b[1];
      case _ =>
        b := s.ReadBytes(3);
        value := lead * 0x100_0000 + b[0] as int * 0x1_0000 + b[1] as int * 0x100 + b[2];
    }
    return true, value;
  }

  method Read4ByteSigned(s: Stream) returns (ok: bool, value: int)
    requires s.Valid() && s.position <= s.length
    modifies s`position
    ensures s.Valid() && s.position <= s.length
    ensures ok == Decode(S4, old(s.Rest())).Value?
    ensures ok ==> value == Decode(S4, old(s.Rest())).value
    ensures s.Rest() == old(s.Rest())[Decode(S4, old(s.Rest())).consumed..]
  {
    if s.length - s.position < 1 {
      return false, 0;
    }
    ghost var bytes := s.Rest();
    var byte := s.ReadUint8();
    var count := byte / 0x40;
    if s.length - s.position < count {
      return false, 0;
    }
    var lead: int := byte % 0x20;
    var b: seq<Byte> := [];
    FromBigEndianUpTo3(lead, bytes[1..1 + count]);
    match count {
      case 0 =>
        value := lead;
      case 1 =>
        b := s.ReadBytes(1);
        value := lead * 0x100 + b[0];
      case 2 =>
        b := s.ReadBytes(2);
        value := lead * 0x1_0000 + b[0] as int * 0x100 + b[1];
      case _ =>
        b := s.ReadBytes(3);
        value := lead * 0x100_0000 + b[0] as int * 0x1_0000 + b[1] as int * 0x100 + b[2];
    }
    if byte % 0x40 >= 0x20 {
      value := -value;
    }
    return true, value;
  }

  lemma {:induction false} FromBigEndianSplit(acc: nat, b: seq<Byte>, i: nat)
    requires i <= |b|
    ensures FromBigEndian(acc, b) == FromBigEndian(FromBigEndian(acc, b[..i]), b[i..])
    decreases |b|
  {
    if i == |b| {
      assert b[..i] == b;
    } else {
      var c := b[..|b| - 1];
      FromBigEndianSplit(acc, c, i);
      assert c[..i] == b[..i] && c[i..] == b[i..][..|b| - i - 1];
    }
  }

  function Join4(acc: nat, b: seq<Byte>): (v: nat)
    requires |b| == 4
  {
    acc * 0x1_0000_0000 + b[0] as int * 0x100_0000 + b[1] as int * 0x1_0000 + b[2] as int * 0x100 + b[3]
  }

  function Join5(acc: nat, b: seq<Byte>): (v: nat)
    requires |b| == 5
  {
    acc * 0x100_0000_0000 + b[0] as int * 0x1_0000_0000 + b[1] as int * 0x100_0000 + b[2] as int * 0x1_0000
        + b[3] as int * 0x100 + b[4]
  }

  function Join6(acc: nat, b: seq<Byte>): (v: nat)
    requires |b| == 6
  {
    acc * 0x1_0000_0000_0000 + b[0] as int * 0x100_0000_0000 + b[1] as int * 0x1_0000_0000
        + b[2] as int * 0x100_0000 + b[3] as int * 0x1_0000 + b[4] as int * 0x100 + b[5]
  }

  function Join7(acc: nat, b: seq<Byte>): (v: nat)
    requires |b| == 7
  {
    acc * 0x100_0000_0000_0000 + b[0] as int * 0x1_0000_0000_0000 + b[1] as int * 0x100_0000_0000
        + b[2] as int * 0x1_0000_0000 + b[3] as int * 0x100_0000 + b[4] as int * 0x1_0000 + b[5] as int * 0x100 + b[6]
  }

  lemma JoinIsBigEndian(acc: nat, b: seq<Byte>)
    ensures |b| == 4 ==> FromBigEndian(acc, b) == Join4(acc, b)
    ensures |b| == 5 ==> FromBigEndian(acc, b) == Join5(acc, b)
    ensures |b| == 6 ==> FromBigEndian(acc, b) == Join6(acc, b)
    ensures |b| == 7 ==> FromBigEndian(acc, b) == Join7(acc, b)
  {
    if 4 <= |b| <= 6 {
      FromBigEndianSplit(acc, b, 3);
      FromBigEndianUpTo3(acc, b[..3]);
      FromBigEndianUpTo3(FromBigEndian(acc, b[..3]), b[3..]);
    } else if |b| == 7 {
      JoinIsBigEndian(acc, b[..6]);
    }
  }

  method Read8ByteUnsigned(s: Stream) returns (ok: bool, value: int)
    requires s.Valid() && s.position <= s.length
    modifies s`position
    ensures s.Valid() && s.position <= s.length
    ensures ok == Decode(U8, old(s.Rest())).Value?
    ensures ok ==> value == Decode(U8, old(s.Rest())).value
    ensures s.Rest() == old(s.Rest())[Decode(U8, old(s.Rest())).consumed..]
  {
    if s.length - s.position < 1 {
      return false, 0;
    }
    ghost var bytes := s.Rest();
    var byte := s.ReadUint8();
    var count := byte / 0x20;
    if s.length - s.position < count {
      return false, 0;
    }
    var lead: int := byte % 0x20;
    var b := s.ReadBytes(count);
    assert b == bytes[1..1 + count];
    FromBigEndianUpTo3(lead, b);
    JoinIsBigEndian(lead, b);
    match count {
      case 0 => value := lead;
      case 1 => value := lead * 0x100 + b[0];
      case 2 => value := lead * 0x1_0000 + b[0] as int * 0x100 + b[1];
      case 3 => value := lead * 0x100_0000 + b[0] as int * 0x1_0000 + b[1] as int * 0x100 + b[2];
      case 4 => value := Join4(lead, b);
      case 5 => value := Join5(lead, b);
      case 6 => value := Join6(lead, b);
      case _ => value := Join7(lead, b);
    }
    return true, value;
  }

  // ---- Whole streams -----------------------------------------------------

  datatype Field = Field(kind: Kind, value: int)

  predicate Writable(fs: seq<Field>)
  {
    forall f :: f in fs ==> InRange(f.kind, f.value) && Encode(f.kind, f.value).Some?
  }

  function EncodeAll(fs: seq<Field>): (bytes: seq<Byte>)
    requires Writable(fs)
  {
    if fs == [] then [] else Encode(fs[0].kind, fs[0].value).value + EncodeAll(fs[1..])
  }

  function Kinds(fs: seq<Field>): (ks: seq<Kind>)
  {
    if fs == [] then [] else [fs[0].kind] + Kinds(fs[1..])
  }

  /** The matching readers, one after the other: the values read and what is left. */
  function DecodeAll(ks: seq<Kind>, bytes: seq<Byte>): (r: Option<(seq<int>, seq<Byte>)>)
  {
    if ks == [] then Some(([], bytes))
    else
      match Decode(ks[0], bytes)
      case Short(_) => None
      case Value(v, n) =>
        match DecodeAll(ks[1..], bytes[n..])
        case None => None
        case Some((vs, rest)) => Some(([v] + vs, rest))
  }

  function StoredAll(fs: seq<Field>): (vs: seq<int>)
    requires Writable(fs)
  {
    if fs == [] then [] else [Stored(fs[0].kind, fs[0].value)] + StoredAll(fs[1..])
  }

  lemma DecodeAllCons(k: Kind, ks: seq<Kind>, e: seq<Byte>, more: seq<Byte>, v: int, tail: (seq<int>, seq<Byte>))
    requires Decode(k, e + more) == Value(v, |e|)
    requires DecodeAll(ks, more) == Some(tail)
    ensures DecodeAll([k] + ks, e + more) == Some(([v] + tail.0, tail.1))
  {
    assert ([k] + ks)[1..] == ks && (e + more)[|e|..] == more;
  }

  lemma StreamStep(f: Field, fs: seq<Field>, more: seq<Byte>, tail: (seq<int>, seq<Byte>))
    requires InRange(f.kind, f.value) && Encode(f.kind, f.value).Some?
    requires DecodeAll(Kinds(fs), more) == Some(tail)
    ensures DecodeAll([f.kind] + Kinds(fs), Encode(f.kind, f.value).value + more)
            == Some(([Stored(f.kind, f.value)] + tail.0, tail.1))
  {
    RoundTrip(f.kind, f.value, more);
    DecodeAllCons(f.kind, Kinds(fs), Encode(f.kind, f.value).value, more, Stored(f.kind, f.value), tail);
  }

  lemma EncodeAllAppend(fs: seq<Field>, rest: seq<Byte>)
    requires Writable(fs) && fs != []
    ensures EncodeAll(fs) + rest == Encode(fs[0].kind, fs[0].value).value + (EncodeAll(fs[1..]) + rest)
  {
  }

  /** Any sequence of accepted values reads back as stored, and nothing of what follows is touched. */
  lemma {:induction false} StreamRoundTrip(fs: seq<Field>, rest: seq<Byte>)
    requires Writable(fs)
    ensures DecodeAll(Kinds(fs), EncodeAll(fs) + rest) == Some((StoredAll(fs), rest))
  {
    if fs == [] {
      assert EncodeAll(fs) + rest == rest;
    } else {
      StreamRoundTrip(fs[1..], rest);
      StreamStep(fs[0], fs[1..], EncodeAll(fs[1..]) + rest, (StoredAll(fs[1..]), rest));
      EncodeAllAppend(fs, rest);
    }
  }

  function Values(fs: seq<Field>): (vs: seq<int>)
    ensures |vs| == |fs|
  {
    if fs == [] then [] else [fs[0].value] + Values(fs[1..])
  }

  /** The stream gives back the very values written exactly when each of them survives. */
  lemma {:induction false} StreamExact(fs: seq<Field>, rest: seq<Byte>)
    requires Writable(fs)
    ensures DecodeAll(Kinds(fs), EncodeAll(fs) + rest) == Some((Values(fs), rest))
            <==> forall f :: f in fs ==> Survives(f.kind, f.value)
  {
    StreamRoundTrip(fs, rest);
    StoredExact(fs);
  }

  lemma StoredSurvives(k: Kind, v: int)
    requires InRange(k, v) && Encode(k, v).Some?
    ensures Stored(k, v) == v <==> Survives(k, v)
  {
    RoundTrip(k, v, []);
    RoundTripExact(k, v, []);
  }

  lemma SameCons(a: int, x: seq<int>, b: int, y: seq<int>)
    ensures [a] + x == [b] + y <==> a == b && x == y
  {
    assert ([a] + x)[1..] == x && ([b] + y)[1..] == y;
    assert ([a] + x)[0] == a && ([b] + y)[0] == b;
  }

  lemma {:induction false} StoredExact(fs: seq<Field>)
    requires Writable(fs)
    ensures StoredAll(fs) == Values(fs) <==> forall f :: f in fs ==> Survives(f.kind, f.value)
  {
    if fs != [] {
      StoredExact(fs[1..]);
      var f := fs[0];
      StoredSurvives(f.kind, f.value);
      SameCons(Stored(f.kind, f.value), StoredAll(fs[1..]), f.value, Values(fs[1..]));
      assert forall g :: g in fs <==> g == f || g in fs[1..];
    }
  }

  /** Small 8-byte values always survive, as do all accepted values of the other formats but the minimum. */
  lemma SurvivesUpTo29Bits(k: Kind, v: int)
    requires InRange(k, v) && !IsMinimum(k, v) && (k.U8? ==> v <= 0x1FFF_FFFF)
    ensures Survives(k, v)
  {
  }

  lemma LossyKept()
    ensures Kept(0x2000_0000, 4, 0) == 0
  {
    assert Kept(0x20, 1, 3) == 0;
    assert Kept(0x2000, 2, 2) == 0;
    assert Kept(0x20_0000, 3, 1) == 0;
  }

  /** The first value that does not survive: byte 3 of 0x2000_0000 is 0x20. */
  lemma FirstLossyValue()
    ensures Decode(U8, Encode(U8, 0x2000_0000).value) == Value(0, 5)
  {
    var v := 0x2000_0000;
    RoundTrip(U8, v, []);
    LossyKept();
    var e := Encode(U8, v).value;
    assert e + [] == e && |e| == 5;
  }

  /** The signed 16-bit minimum is read as zero. */
  lemma MinimumIsLost()
    ensures Decode(S2, Encode(S2, -0x8000).value) == Value(0, 1)
  {
    var v := -0x8000;
    RoundTrip(S2, v, []);
    var e := Encode(S2, v).value;
    assert e + [] == e && |e| == 1;
  }
}
