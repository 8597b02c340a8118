/**
 The format list PDU of the clipboard channel, channels/cliprdr/cliprdr_common.c, with
 the short and the long format names of sections 2.2.3.1.1 and 2.2.3.1.2 of MS-RDPECLIP.
 Names are UTF-8 in memory and ASCII or UTF-16 on the wire.
 */
module FormatList {
  import opened WinprStream
  import opened ClipboardFormats

  /** The conversions of winpr's unicode.c between UTF-8 and little-endian UTF-16, as bytes; both can fail. */
  datatype Codec = Codec(wide: seq<Byte> -> Option<seq<Byte>>, narrow: seq<Byte> -> Option<seq<Byte>>)

  function Widened(s: seq<Byte>): (w: seq<Byte>)
    ensures |w| == 2 * |s|
  {
    if s == [] then [] else [s[0], 0] + Widened(s[1..])
  }

  /** Little-endian characters whose upper byte is zero. */
  lemma {:induction false} WidenedAt(s: seq<Byte>, i: nat)
    requires i < |s|
    ensures Widened(s)[2 * i] == s[i] && Widened(s)[2 * i + 1] == 0
    decreases |s|
  {
    if i > 0 {
      WidenedAt(s[1..], i - 1);
      assert Widened(s)[2..] == Widened(s[1..]);
    }
  }

  predicate SevenBit(s: seq<Byte>)
  {
    forall i :: 0 <= i < |s| ==> 0 < s[i] < 0x80
  }

  /** The conversions keep this text. */
  predicate Keeps(codec: Codec, s: seq<Byte>)
  {
    codec.wide(s) == Some(Widened(s)) && codec.narrow(Widened(s)) == Some(s)
  }

  /** All that is assumed of the conversions: they keep 7-bit text. */
  ghost predicate Faithful(codec: Codec)
  {
    forall s :: SevenBit(s) ==> Keeps(codec, s)
  }

  function Min(a: nat, b: nat): (m: nat)
  {
    if a < b then a else b
  }

  // ---- Writing -----------------------------------------------------------

  /** How many characters a name field has room for, and how many of the name go there. */
  function Room(long: bool, ascii: bool, name: seq<Byte>): (n: nat)
    ensures n > 0
  {
    if long then |name| + 1 else if ascii then 32 else 16
  }

  function Used(long: bool, ascii: bool, name: seq<Byte>): (n: nat)
    ensures n < Room(long, ascii, name) && n <= |name|
  {
    if long then |name| else Min(Room(long, ascii, name) - 1, |name|)
  }

  function NameField(codec: Codec, long: bool, ascii: bool, name: seq<Byte>): (b: Option<seq<Byte>>)
  {
    var room, used := Room(long, ascii, name), Used(long, ascii, name);
    if used == 0 then Some(Zeros(if long || !ascii then 2 * room else room))
    else if ascii then Some(name[..used] + Zeros(room - used))
    else
      match codec.wide(name[..used])
      case None => None
      case Some(w) => if |w| > 2 * room then None else Some(w + Zeros(2 * room - |w|))
  }

  function Entry(codec: Codec, long: bool, ascii: bool, f: Format<seq<Byte>>): (b: Option<seq<Byte>>)
  {
    match NameField(codec, long, ascii, NameBytes(f))
    case None => None
    case Some(field) => Some(LittleEndian32(f.id) + field)
  }

  /** The body of the PDU: what is written so far, and the entries of the formats. */
  function Body(codec: Codec, long: bool, ascii: bool, done: seq<Byte>,
                fs: seq<Format<seq<Byte>>>): (b: Option<seq<Byte>>)
    decreases |fs|
  {
    if fs == [] then Some(done)
    else
      match Entry(codec, long, ascii, fs[0])
      case None => None
      case Some(e) => Body(codec, long, ascii, done + e, fs[1..])
  }

  // ---- Reading -----------------------------------------------------------

  /** _wcsnlen. */
  function WideLength(b: seq<Byte>): (n: nat)
    ensures 2 * n <= |b|
  {
    if |b| < 2 || (b[0] == 0 && b[1] == 0) then 0 else 1 + WideLength(b[2..])
  }

  /** The name in a 32-byte block; the outer option is the failure of the conversion. */
  function ShortName(codec: Codec, ascii: bool, block: seq<Byte>): (r: Option<Option<seq<Byte>>>)
    requires |block| == 32
  {
    if ascii then
      if block[0] == 0 then Some(None) else Some(Some(block[..Length(block[..31])]))
    else if WideLength(block) == 0 then Some(None)
    else
      match codec.narrow(block[..2 * WideLength(block)])
      case None => None
      case Some(name) => Some(Some(name))
  }

  /** The formats read so far, and those in the rest of a list with short names. */
  function ReadShort(codec: Codec, ascii: bool, done: seq<Format<seq<Byte>>>,
                     b: seq<Byte>): (r: Option<seq<Format<seq<Byte>>>>)
    decreases |b|
  {
    if |b| < 4 then Some(done)
    else if |b| < 36 then None
    else
      match ShortName(codec, ascii, b[4..36])
      case None => None
      case Some(name) => ReadShort(codec, ascii, done + [Format(FromLittleEndian32(b), name)], b[36..])
  }

  /** How many bytes the first entry of a list with long names takes, if it is all there. */
  function LongSize(b: seq<Byte>): (n: Option<nat>)
    ensures n.Some? ==> 6 <= n.value <= |b|
  {
    if |b| < 4 then None
    else
      var size := 4 + 2 * WideLength(b[4..]) + 2;
      if size > |b| then None else Some(size)
  }

  function LongName(codec: Codec, text: seq<Byte>): (r: Option<Option<seq<Byte>>>)
  {
    if text == [] then Some(None)
    else match codec.narrow(text) case None => None case Some(name) => Some(Some(name))
  }

  /** The counting pass: the entries that are all there, and whether nothing else is. */
  function Counted(b: seq<Byte>): (n: nat)
    decreases |b|
  {
    if LongSize(b).None? then 0 else 1 + Counted(b[LongSize(b).value..])
  }

  predicate Complete(b: seq<Byte>)
    decreases |b|
  {
    b == [] || (LongSize(b).Some? && Complete(b[LongSize(b).value..]))
  }

  /** The reading pass. */
  function ReadLong(codec: Codec, done: seq<Format<seq<Byte>>>, b: seq<Byte>): (r: Option<seq<Format<seq<Byte>>>>)
    decreases |b|
  {
    if |b| < 4 then Some(done)
    else if LongSize(b).None? then None
    else
      var size := LongSize(b).value;
      match LongName(codec, b[4..size - 2])
      case None => None
      case Some(name) => ReadLong(codec, done + [Format(FromLittleEndian32(b), name)], b[size..])
  }

  datatype Code = Ok | InvalidData | NoMemory | InternalError

  /** What reading a list of `dataLen` bytes gives: a code, and the formats if it is Ok. */
  function Outcome(codec: Codec, long: bool, ascii: bool, b: seq<Byte>, dataLen: nat)
    : (r: (Code, seq<Format<seq<Byte>>>))
  {
    if dataLen > |b| then (InvalidData, [])
    else if dataLen == 0 then (Ok, [])
    else if !long then
      if dataLen < 36 then (NoMemory, [])
      else match ReadShort(codec, ascii, [], b[..dataLen]) case None => (InternalError, []) case Some(fs) => (Ok, fs)
    else if !Complete(b[..dataLen]) then (InternalError, [])
    else match ReadLong(codec, [], b[..dataLen]) case None => (InternalError, []) case Some(fs) => (Ok, fs)
  }

  // ---- Round trip --------------------------------------------------------

  /** What is left of a format on the other side: short names are cut, and an empty name is no name. */
  function Kept(long: bool, ascii: bool, f: Format<seq<Byte>>): (r: Format<seq<Byte>>)
  {
    var name := NameBytes(f);
    Format(f.id, if name == [] then None else Some(name[..Used(long, ascii, name)]))
  }

  function AllKept(long: bool, ascii: bool, fs: seq<Format<seq<Byte>>>): (r: seq<Format<seq<Byte>>>)
    ensures |r| == |fs| && forall i :: 0 <= i < |fs| ==> r[i] == Kept(long, ascii, fs[i])
  {
    seq(|fs|, i requires 0 <= i < |fs| => Kept(long, ascii, fs[i]))
  }

  predicate Plain(fs: seq<Format<seq<Byte>>>)
  {
    forall i :: 0 <= i < |fs| ==> SevenBit(NameBytes(fs[i]))
  }

  lemma {:induction false} LengthOfText(s: seq<Byte>, rest: seq<Byte>)
    requires SevenBit(s) && (rest == [] || rest[0] == 0)
    ensures Length(s + rest) == |s|
    decreases |s|
  {
    if s != [] {
      assert (s + rest)[1..] == s[1..] + rest;
      LengthOfText(s[1..], rest);
    } else {
      assert s + rest == rest;
    }
  }

  lemma {:induction false} WideLengthOfText(s: seq<Byte>, rest: seq<Byte>)
    requires SevenBit(s) && |rest| >= 2 && rest[0] == 0 && rest[1] == 0
    ensures WideLength(Widened(s) + rest) == |s|
    decreases |s|
  {
    var b := Widened(s) + rest;
    if s != [] {
      assert b[2..] == Widened(s[1..]) + rest;
      WideLengthOfText(s[1..], rest);
    } else {
      assert b == rest;
    }
  }

  function Cut(ascii: bool, name: seq<Byte>): (s: seq<Byte>)
    ensures |s| < (if ascii then 32 else 16)
  {
    name[..Used(false, ascii, name)]
  }

  lemma CutIsPlain(ascii: bool, name: seq<Byte>)
    requires SevenBit(name)
    ensures SevenBit(Cut(ascii, name)) && (Cut(ascii, name) == [] <==> name == [])
  {
  }

  lemma AsciiBlock(codec: Codec, s: seq<Byte>)
    requires SevenBit(s) && |s| < 32
    ensures ShortName(codec, true, s + Zeros(32 - |s|)) == Some(if s == [] then None else Some(s))
  {
    var block := s + Zeros(32 - |s|);
    assert block[..31] == s + Zeros(31 - |s|);
    LengthOfText(s, Zeros(31 - |s|));
    assert block[..|s|] == s;
  }

  lemma WideBlock(codec: Codec, s: seq<Byte>)
    requires SevenBit(s) && |s| < 16 && Keeps(codec, s)
    ensures ShortName(codec, false, Widened(s) + Zeros(32 - 2 * |s|)) == Some(if s == [] then None else Some(s))
  {
    var block := Widened(s) + Zeros(32 - 2 * |s|);
    WideLengthOfText(s, Zeros(32 - 2 * |s|));
    assert block[..2 * |s|] == Widened(s);
  }

  /** The block a short name is written to, for 7-bit names. */
  function Block(ascii: bool, s: seq<Byte>): (b: seq<Byte>)
    requires |s| < if ascii then 32 else 16
    ensures |b| == 32
  {
    if ascii then s + Zeros(32 - |s|) else Widened(s) + Zeros(32 - 2 * |s|)
  }

  lemma ShortField(codec: Codec, ascii: bool, name: seq<Byte>)
    requires Keeps(codec, Cut(ascii, name))
    ensures NameField(codec, false, ascii, name) == Some(Block(ascii, Cut(ascii, name)))
  {
    var used := Cut(ascii, name);
    if |used| == 0 {
      assert [] + Zeros(32) == Zeros(32);
    }
  }

  lemma ShortNameReadsBack(codec: Codec, ascii: bool, name: seq<Byte>)
    requires SevenBit(name) && Keeps(codec, Cut(ascii, name))
    ensures ShortName(codec, ascii, Block(ascii, Cut(ascii, name)))
         == Some(if name == [] then None else Some(Cut(ascii, name)))
  {
    CutIsPlain(ascii, name);
    if ascii { AsciiBlock(codec, Cut(ascii, name)); } else { WideBlock(codec, Cut(ascii, name)); }
  }

  lemma ReadShortBlock(codec: Codec, ascii: bool, done: seq<Format<seq<Byte>>>, id: Uint32, block: seq<Byte>,
                       rest: seq<Byte>)
    requires |block| == 32 && ShortName(codec, ascii, block).Some?
    ensures ReadShort(codec, ascii, done, LittleEndian32(id) + block + rest)
         == ReadShort(codec, ascii, done + [Format(id, ShortName(codec, ascii, block).value)], rest)
  {
    var b := LittleEndian32(id) + (block + rest);
    assert LittleEndian32(id) + block + rest == b;
    LittleEndianRoundTrip(id, block + rest);
    assert b[4..36] == block && b[36..] == rest;
  }

  lemma ShortEntryReadsBack(codec: Codec, ascii: bool, done: seq<Format<seq<Byte>>>, f: Format<seq<Byte>>,
                            rest: seq<Byte>)
    requires SevenBit(NameBytes(f)) && Keeps(codec, Cut(ascii, NameBytes(f)))
    ensures Entry(codec, false, ascii, f).Some?
    ensures ReadShort(codec, ascii, done, Entry(codec, false, ascii, f).value + rest)
         == ReadShort(codec, ascii, done + [Kept(false, ascii, f)], rest)
  {
    var name := NameBytes(f);
    ShortField(codec, ascii, name);
    ShortNameReadsBack(codec, ascii, name);
    ReadShortBlock(codec, ascii, done, f.id, Block(ascii, Cut(ascii, name)), rest);
  }

  lemma LongField(codec: Codec, name: seq<Byte>)
    requires Keeps(codec, name)
    ensures NameField(codec, true, false, name) == Some(Widened(name) + [0, 0])
  {
    assert Zeros(2) == [0, 0];
    if name == [] {
      assert Widened(name) + [0, 0] == [0, 0];
    } else {
      assert name[..|name|] == name;
    }
  }

  lemma LongTextParts(id: Uint32, name: seq<Byte>, rest: seq<Byte>)
    requires SevenBit(name)
    ensures var b := LittleEndian32(id) + (Widened(name) + [0, 0]) + rest;
            var size := 6 + 2 * |name|;
            && |b| >= size && FromLittleEndian32(b) == id && WideLength(b[4..]) == |name|
            && b[4..size - 2] == Widened(name) && b[size..] == rest
  {
    var text := Widened(name);
    var tail := text + ([0, 0] + rest);
    var b := LittleEndian32(id) + tail;
    assert LittleEndian32(id) + (text + [0, 0]) + rest == b;
    LittleEndianRoundTrip(id, tail);
    WideLengthOfText(name, [0, 0] + rest);
    var size := 6 + |text|;
    assert b[4..size - 2] == text && b[size..] == rest;
  }

  lemma ReadLongText(codec: Codec, done: seq<Format<seq<Byte>>>, id: Uint32, name: seq<Byte>, rest: seq<Byte>)
    requires SevenBit(name) && Keeps(codec, name)
    ensures var b := LittleEndian32(id) + (Widened(name) + [0, 0]) + rest;
            && LongSize(b) == Some(6 + 2 * |name|) && b[6 + 2 * |name|..] == rest
            && ReadLong(codec, done, b)
               == ReadLong(codec, done + [Format(id, if name == [] then None else Some(name))], rest)
  {
    LongTextParts(id, name, rest);
  }

  lemma LongEntryReadsBack(codec: Codec, done: seq<Format<seq<Byte>>>, f: Format<seq<Byte>>, rest: seq<Byte>)
    requires SevenBit(NameBytes(f)) && Keeps(codec, NameBytes(f))
    ensures Entry(codec, true, false, f).Some?
    ensures var b := Entry(codec, true, false, f).value + rest;
            && ReadLong(codec, done, b) == ReadLong(codec, done + [Kept(true, false, f)], rest)
            && LongSize(b).Some? && b[LongSize(b).value..] == rest
  {
    var name := NameBytes(f);
    LongField(codec, name);
    ReadLongText(codec, done, f.id, name, rest);
    assert name[..|name|] == name;
  }

  /** The entries follow what was written before. */
  lemma {:induction false} BodyFollows(codec: Codec, long: bool, ascii: bool, done: seq<Byte>,
                                       fs: seq<Format<seq<Byte>>>)
    ensures Body(codec, long, ascii, done, fs) ==
            match Body(codec, long, ascii, [], fs) case None => None case Some(b) => Some(done + b)
    decreases |fs|
  {
    if fs == [] {
      assert done + [] == done;
    } else {
      var e := Entry(codec, long, ascii, fs[0]);
      if e.Some? {
        BodyFollows(codec, long, ascii, done + e.value, fs[1..]);
        BodyFollows(codec, long, ascii, [] + e.value, fs[1..]);
        var more := Body(codec, long, ascii, [], fs[1..]);
        assert more.Some? ==> (done + e.value) + more.value == done + (([] + e.value) + more.value);
      }
    }
  }

  lemma BodyOfCons(codec: Codec, long: bool, ascii: bool, fs: seq<Format<seq<Byte>>>)
    requires fs != [] && Entry(codec, long, ascii, fs[0]).Some? && Body(codec, long, ascii, [], fs[1..]).Some?
    ensures Body(codec, long, ascii, [], fs)
         == Some(Entry(codec, long, ascii, fs[0]).value + Body(codec, long, ascii, [], fs[1..]).value)
  {
    var e := Entry(codec, long, ascii, fs[0]).value;
    assert [] + e == e;
    BodyFollows(codec, long, ascii, e, fs[1..]);
  }

  lemma KeptOfCons(long: bool, ascii: bool, done: seq<Format<seq<Byte>>>, fs: seq<Format<seq<Byte>>>)
    requires fs != []
    ensures (done + [Kept(long, ascii, fs[0])]) + AllKept(long, ascii, fs[1..]) == done + AllKept(long, ascii, fs)
  {
  }

  lemma PlainTail(fs: seq<Format<seq<Byte>>>)
    requires Plain(fs) && fs != []
    ensures SevenBit(NameBytes(fs[0])) && Plain(fs[1..])
  {
    assert forall i :: 0 <= i < |fs[1..]| ==> fs[1..][i] == fs[i + 1];
  }

  lemma {:induction false} ShortListReadsBack(codec: Codec, ascii: bool, done: seq<Format<seq<Byte>>>,
                                              fs: seq<Format<seq<Byte>>>)
    requires Faithful(codec) && Plain(fs)
    ensures var b := Body(codec, false, ascii, [], fs);
            && b.Some? && |b.value| == 36 * |fs|
            && ReadShort(codec, ascii, done, b.value) == Some(done + AllKept(false, ascii, fs))
    decreases |fs|
  {
    if fs == [] {
      assert done + AllKept(false, ascii, fs) == done;
    } else {
      PlainTail(fs);
      var name := NameBytes(fs[0]);
      CutIsPlain(ascii, name);
      ShortListReadsBack(codec, ascii, done + [Kept(false, ascii, fs[0])], fs[1..]);
      ShortField(codec, ascii, name);
      ShortEntryReadsBack(codec, ascii, done, fs[0], Body(codec, false, ascii, [], fs[1..]).value);
      BodyOfCons(codec, false, ascii, fs);
      KeptOfCons(false, ascii, done, fs);
    }
  }

  lemma {:induction false} LongListReadsBack(codec: Codec, done: seq<Format<seq<Byte>>>, fs: seq<Format<seq<Byte>>>)
    requires Faithful(codec) && Plain(fs)
    ensures var b := Body(codec, true, false, [], fs);
            && b.Some? && (b.value == [] <==> fs == []) && Complete(b.value)
            && ReadLong(codec, done, b.value) == Some(done + AllKept(true, false, fs))
    decreases |fs|
  {
    if fs == [] {
      assert done + AllKept(true, false, fs) == done;
    } else {
      PlainTail(fs);
      LongListReadsBack(codec, done + [Kept(true, false, fs[0])], fs[1..]);
      LongEntryReadsBack(codec, done, fs[0], Body(codec, true, false, [], fs[1..]).value);
      BodyOfCons(codec, true, false, fs);
      KeptOfCons(true, false, done, fs);
    }
  }

  /** The name that is left of one on the other side. */
  predicate LeftOf(long: bool, ascii: bool, name: seq<Byte>, left: Option<seq<Byte>>)
  {
    if name == [] then left == None
    else if long || |name| <= (if ascii then 31 else 15) then left == Some(name)
    else left == Some(name[..if ascii then 31 else 15])
  }

  lemma KeptIsLeft(long: bool, ascii: bool, f: Format<seq<Byte>>)
    ensures Kept(long, ascii, f).id == f.id && LeftOf(long, ascii, NameBytes(f), Kept(long, ascii, f).name)
  {
    var name := NameBytes(f);
    assert name[..|name|] == name;
  }

  lemma BodyReadsBack(codec: Codec, long: bool, ascii: bool, fs: seq<Format<seq<Byte>>>, rest: seq<Byte>)
    requires Faithful(codec) && Plain(fs) && !(long && ascii)
    ensures var b := Body(codec, long, ascii, [], fs);
            && b.Some?
            && Outcome(codec, long, ascii, b.value + rest, |b.value|) == (Ok, AllKept(long, ascii, fs))
  {
    if long { LongListReadsBack(codec, [], fs); } else { ShortListReadsBack(codec, ascii, [], fs); }
    var b := Body(codec, long, ascii, [], fs).value;
    assert (b + rest)[..|b|] == b;
    assert [] + AllKept(long, ascii, fs) == AllKept(long, ascii, fs);
  }

  /**
   Every list of formats with 7-bit names reads back, in order: whole with long names, cut to 31
   or 15 characters with short ones, and without the names that are empty.
   */
  lemma RoundTrip(codec: Codec, long: bool, ascii: bool, fs: seq<Format<seq<Byte>>>, rest: seq<Byte>)
    returns (gs: seq<Format<seq<Byte>>>)
    requires Faithful(codec) && Plain(fs) && !(long && ascii)
    ensures var b := Body(codec, long, ascii, [], fs);
            b.Some? && Outcome(codec, long, ascii, b.value + rest, |b.value|) == (Ok, gs)
    ensures |gs| == |fs|
    ensures forall i :: 0 <= i < |fs| ==>
              gs[i].id == fs[i].id && LeftOf(long, ascii, NameBytes(fs[i]), gs[i].name)
  {
    BodyReadsBack(codec, long, ascii, fs, rest);
    gs := AllKept(long, ascii, fs);
    forall i | 0 <= i < |fs|
      ensures gs[i].id == fs[i].id && LeftOf(long, ascii, NameBytes(fs[i]), gs[i].name)
    {
      KeptIsLeft(long, ascii, fs[i]);
    }
  }

  /** An entry on the wire: the id, then the name, in 32 bytes with zeros behind or with one zero character behind. */
  lemma EntryLayout(codec: Codec, f: Format<seq<Byte>>, j: nat)
    requires SevenBit(NameBytes(f)) && Faithful(codec)
    ensures var name := NameBytes(f);
            var a, u, l := Entry(codec, false, true, f), Entry(codec, false, false, f), Entry(codec, true, false, f);
            && a.Some? && u.Some? && l.Some?
            && |a.value| == 36 && a.value[..4] == LittleEndian32(f.id)
            && |u.value| == 36 && u.value[..4] == LittleEndian32(f.id)
            && |l.value| == 6 + 2 * |name| && l.value[..4] == LittleEndian32(f.id)
            && (j < 32 ==> a.value[4 + j] == if j < |name| && j < 31 then name[j] else 0)
            && (j < 16 ==> u.value[4 + 2 * j] == (if j < |name| && j < 15 then name[j] else 0)
                           && u.value[5 + 2 * j] == 0)
            && (j <= |name| ==> l.value[4 + 2 * j] == (if j < |name| then name[j] else 0)
                                && l.value[5 + 2 * j] == 0)
  {
    var name := NameBytes(f);
    CutIsPlain(true, name);
    CutIsPlain(false, name);
    ShortField(codec, true, name);
    ShortField(codec, false, name);
    LongField(codec, name);
    if j < |name| { WidenedAt(name, j); }
    if j < |Cut(false, name)| { WidenedAt(Cut(false, name), j); }
  }

  // ---- What is accepted --------------------------------------------------

  /** The name block of an entry of a list with short names. */
  function BlockAt(b: seq<Byte>, i: nat): (block: seq<Byte>)
    requires 36 * (i + 1) <= |b|
    ensures |block| == 32
  {
    b[36 * i + 4..36 * i + 36]
  }

  /** The names in all whole entries convert. */
  predicate ShortNamesConvert(codec: Codec, ascii: bool, b: seq<Byte>)
  {
    forall i :: 0 <= i < |b| / 36 ==> ShortName(codec, ascii, BlockAt(b, i)).Some?
  }

  lemma BlocksOfRest(codec: Codec, ascii: bool, b: seq<Byte>)
    requires |b| >= 36
    ensures ShortNamesConvert(codec, ascii, b)
            <==> ShortName(codec, ascii, b[4..36]).Some? && ShortNamesConvert(codec, ascii, b[36..])
  {
    var rest := b[36..];
    assert |rest| / 36 == |b| / 36 - 1;
    assert BlockAt(b, 0) == b[4..36];
    forall i | 0 <= i < |rest| / 36 ensures BlockAt(rest, i) == BlockAt(b, i + 1) {
    }
    if ShortName(codec, ascii, b[4..36]).Some? && ShortNamesConvert(codec, ascii, rest) {
      forall i | 0 <= i < |b| / 36 ensures ShortName(codec, ascii, BlockAt(b, i)).Some? {
        if i > 0 { assert BlockAt(rest, i - 1) == BlockAt(b, i); }
      }
    }
  }

  lemma {:induction false} ShortLengths(codec: Codec, ascii: bool, done: seq<Format<seq<Byte>>>, b: seq<Byte>)
    ensures ReadShort(codec, ascii, done, b).Some? <==> |b| % 36 < 4 && ShortNamesConvert(codec, ascii, b)
    ensures ReadShort(codec, ascii, done, b).Some? ==>
              |ReadShort(codec, ascii, done, b).value| == |done| + |b| / 36
    decreases |b|
  {
    if |b| >= 36 {
      BlocksOfRest(codec, ascii, b);
      var name := ShortName(codec, ascii, b[4..36]);
      if name.Some? {
        ShortLengths(codec, ascii, done + [Format(FromLittleEndian32(b), name.value)], b[36..]);
      }
    }
  }

  lemma NamesConvert(codec: Codec, ascii: bool, b: seq<Byte>)
    requires ascii || forall text :: codec.narrow(text).Some?
    ensures ShortNamesConvert(codec, ascii, b)
  {
  }

  /**
   A list with short names is accepted exactly when it is empty, or holds at least one entry
   and fewer than four bytes too many and its names convert; it then has as many formats as
   whole entries. ASCII names always convert.
   */
  lemma ShortAccepted(codec: Codec, ascii: bool, b: seq<Byte>, dataLen: nat)
    ensures var r := Outcome(codec, false, ascii, b, dataLen);
            var fits := dataLen <= |b| && (dataLen == 0 || (36 <= dataLen && dataLen % 36 < 4));
            && (r.0 == Ok <==> fits && ShortNamesConvert(codec, ascii, b[..dataLen]))
            && (r.0 == Ok ==> |r.1| == dataLen / 36)
            && ((ascii || forall text :: codec.narrow(text).Some?) ==> (r.0 == Ok <==> fits))
  {
    if dataLen <= |b| { ShortLengths(codec, ascii, [], b[..dataLen]); }
    if dataLen <= |b| && (ascii || forall text :: codec.narrow(text).Some?) { NamesConvert(codec, ascii,
                                                                                           b[..dataLen]); }
  }

  /** A list that is not there is invalid; a short one without an entry is out of memory; all else is internal. */
  lemma CodesExactly(codec: Codec, long: bool, ascii: bool, b: seq<Byte>, dataLen: nat)
    ensures var code := Outcome(codec, long, ascii, b, dataLen).0;
            && (code == InvalidData <==> dataLen > |b|)
            && (code == NoMemory <==> dataLen <= |b| && !long && 0 < dataLen < 36)
            && (dataLen == 0 ==> Outcome(codec, long, ascii, b, dataLen) == (Ok, []))
  {
  }

  /** A short ASCII name is what lies before the first zero byte, of 31 at most. */
  lemma AsciiNameExactly(codec: Codec, block: seq<Byte>)
    requires |block| == 32
    ensures var r := ShortName(codec, true, block);
            && r.Some?
            && (r.value.None? <==> block[0] == 0)
            && (r.value.Some? ==>
                  var name := r.value.value;
                  name <= block[..31] && 0 !in name && (|name| == 31 || block[|name|] == 0))
  {
    LengthStops(block[..31]);
    assert block[..31][..Length(block[..31])] == block[..Length(block[..31])];
    assert block[..31][0] == block[0];
  }

  lemma {:induction false} WideLengthStops(b: seq<Byte>, j: nat)
    ensures var n := WideLength(b);
            && (2 * n + 1 < |b| ==> b[2 * n] == 0 && b[2 * n + 1] == 0)
            && (j < n ==> b[2 * j] != 0 || b[2 * j + 1] != 0)
    decreases |b|
  {
    if |b| >= 2 && !(b[0] == 0 && b[1] == 0) {
      WideLengthStops(b[2..], if j > 0 then j - 1 else 0);
    }
  }

  /** A short Unicode name is converted from the characters before the first zero character, of 16 at most. */
  lemma UnicodeNameExactly(codec: Codec, block: seq<Byte>, n: nat)
    requires |block| == 32 && n <= 16
    requires forall j :: 0 <= j < n ==> block[2 * j] != 0 || block[2 * j + 1] != 0
    requires n < 16 ==> block[2 * n] == 0 && block[2 * n + 1] == 0
    ensures ShortName(codec, false, block)
            == if n == 0 then Some(None)
               else match codec.narrow(block[..2 * n]) case None => None case Some(name) => Some(Some(name))
  {
    var m := WideLength(block);
    WideLengthStops(block, n);
    assert m == n;
  }

  lemma CountOfNext(b: seq<Byte>)
    requires Complete(b)
    ensures b == [] <==> Counted(b) == 0
    ensures b != [] ==> LongSize(b).Some? && Counted(b) == 1 + Counted(b[LongSize(b).value..])
  {
  }

  /** The names of all entries of a list with long names convert. */
  predicate LongNamesConvert(codec: Codec, b: seq<Byte>)
    requires Complete(b)
    decreases |b|
  {
    b == [] ||
    (LongName(codec, b[4..LongSize(b).value - 2]).Some? && LongNamesConvert(codec, b[LongSize(b).value..]))
  }

  /**
   When the counting pass goes through, the reading pass fails exactly if the name of some
   entry does not convert, and otherwise reads as many formats as were counted.
   */
  lemma {:induction false} PassesAgree(codec: Codec, done: seq<Format<seq<Byte>>>, b: seq<Byte>)
    requires Complete(b)
    ensures ReadLong(codec, done, b).Some? <==> LongNamesConvert(codec, b)
    ensures ReadLong(codec, done, b).Some? ==> |ReadLong(codec, done, b).value| == |done| + Counted(b)
    decreases |b|
  {
    CountOfNext(b);
    if b != [] {
      var size := LongSize(b).value;
      var name := LongName(codec, b[4..size - 2]);
      if name.Some? {
        PassesAgree(codec, done + [Format(FromLittleEndian32(b), name.value)], b[size..]);
      }
    }
  }

  /** A list with long names is accepted exactly when it is there, ends with a whole entry, and its names convert. */
  lemma LongAccepted(codec: Codec, ascii: bool, b: seq<Byte>, dataLen: nat)
    ensures var r := Outcome(codec, true, ascii, b, dataLen);
            && (r.0 == Ok <==> dataLen <= |b| && Complete(b[..dataLen]) && LongNamesConvert(codec, b[..dataLen]))
            && (r.0 == Ok ==> |r.1| == Counted(b[..dataLen]))
  {
    if 0 < dataLen <= |b| && Complete(b[..dataLen]) { PassesAgree(codec, [], b[..dataLen]); }
  }

  // ---- Long names cannot be ASCII ----------------------------------------

  lemma EntrySizes(codec: Codec, f: Format<seq<Byte>>)
    requires Keeps(codec, NameBytes(f))
    ensures var n := |NameBytes(f)|;
            && Entry(codec, true, false, f).Some? && |Entry(codec, true, false, f).value| == 6 + 2 * n
            && Entry(codec, true, true, f).Some? && |Entry(codec, true, true, f).value| == (if n == 0 then 6 else 5 + n)
            && (n == 0 ==> Entry(codec, true, true, f) == Entry(codec, true, false, f))
  {
    LongField(codec, NameBytes(f));
  }

  predicate Nameless(fs: seq<Format<seq<Byte>>>)
  {
    forall i :: 0 <= i < |fs| ==> NameBytes(fs[i]) == []
  }

  lemma {:induction false} AsciiShrinks(codec: Codec, fs: seq<Format<seq<Byte>>>)
    requires Faithful(codec) && Plain(fs)
    ensures var a, w := Body(codec, true, true, [], fs), Body(codec, true, false, [], fs);
            && a.Some? && w.Some? && |a.value| <= |w.value|
            && (if Nameless(fs) then a == w else |a.value| < |w.value|)
    decreases |fs|
  {
    if fs != [] {
      PlainTail(fs);
      EntrySizes(codec, fs[0]);
      AsciiShrinks(codec, fs[1..]);
      BodyOfCons(codec, true, true, fs);
      BodyOfCons(codec, true, false, fs);
      assert Nameless(fs) <==> NameBytes(fs[0]) == [] && Nameless(fs[1..]) by { NamelessTail(fs); }
    }
  }

  lemma NamelessTail(fs: seq<Format<seq<Byte>>>)
    requires fs != []
    ensures Nameless(fs) <==> NameBytes(fs[0]) == [] && Nameless(fs[1..])
  {
    assert forall i :: 0 <= i < |fs[1..]| ==> fs[1..][i] == fs[i + 1];
    assert forall i :: 0 < i < |fs| ==> fs[i] == fs[1..][i - 1];
  }

  /** ASCII names are announced as ignored with long names; they are exactly when no format has a name. */
  lemma AsciiIsIgnoredExactly(codec: Codec, fs: seq<Format<seq<Byte>>>)
    requires Faithful(codec) && Plain(fs)
    ensures Body(codec, true, true, [], fs) == Body(codec, true, false, [], fs) <==> Nameless(fs)
  {
    AsciiShrinks(codec, fs);
  }

  // ---- The code ----------------------------------------------------------

  /** The part of the loop in cliprdr_packet_format_list_new that writes one format. */
  method WriteEntry(codec: Codec, s: Stream, long: bool, ascii: bool, f: Format<seq<Byte>>) returns (ok: bool)
    requires s.Valid() && |s.buffer| > 0
    modifies s
    ensures s.Valid() && |s.buffer| > 0
    ensures ok == Entry(codec, long, ascii, f).Some?
    ensures ok ==> s.Written() == old(s.Written()) + Entry(codec, long, ascii, f).value
  {
    var name := NameBytes(f);
    var charSize := if long || !ascii then 2 else 1;
    var needed := charSize * (|name| + 1);
    s.EnsureRemainingCapacity(4 + if needed > 32 then needed else 32);
    s.WriteUint32(f.id);
    ok := WriteName(codec, s, long, ascii, name);
  }

  method WriteName(codec: Codec, s: Stream, long: bool, ascii: bool, name: seq<Byte>) returns (ok: bool)
    requires s.Valid() && |s.buffer| > 0
    requires s.position + (if long || !ascii then 2 else 1) * Room(long, ascii, name) <= |s.buffer|
    modifies s
    ensures s.Valid() && |s.buffer| > 0
    ensures ok == NameField(codec, long, ascii, name).Some?
    ensures ok ==> s.Written() == old(s.Written()) + NameField(codec, long, ascii, name).value
  {
    var maxLength := if long then |name| + 1 else if ascii then 32 else 16;
    var length := if long then |name| else Min(maxLength - 1, |name|);
    ghost var before := s.Written();
    if length > 0 {
      if ascii {
        s.Write(name[..length]);
        s.Zero(maxLength - length);
        var fill := maxLength - length;
        assert before + name[..length] + Zeros(fill) == before + (name[..length] + Zeros(fill));
      } else {
        var w := codec.wide(name[..length]);
        if w.None? || |w.value| > 2 * maxLength { return false; }
        s.Write(w.value);
        s.Zero(2 * maxLength - |w.value|);
        var fill := 2 * maxLength - |w.value|;
        assert before + w.value + Zeros(fill) == before + (w.value + Zeros(fill));
      }
    } else {
      s.Zero((if long || !ascii then 2 else 1) * maxLength);
    }
    return true;
  }

  /** cliprdr_packet_format_list_new; the header of the PDU is given. */
  method WriteFormatList(codec: Codec, header: seq<Byte>, fs: seq<Format<seq<Byte>>>, long: bool, ascii: bool)
    returns (s: Stream, ok: bool)
    requires |header| == 8
    ensures fresh(s) && s.Valid()
    ensures ok == Body(codec, long, ascii, header, fs).Some?
    ensures ok ==> Some(s.Written()) == Body(codec, long, ascii, header, fs)
  {
    s := new Stream(|fs| * 36 + 8, 0);
    s.Write(header);
    assert s.Written() == header && fs[0..] == fs;
    var index := 0;
    while index < |fs|
      invariant 0 <= index <= |fs| && fresh(s) && s.Valid() && |s.buffer| > 0
      invariant Body(codec, long, ascii, header, fs) == Body(codec, long, ascii, s.Written(), fs[index..])
    {
      assert fs[index..][0] == fs[index] && fs[index..][1..] == fs[index + 1..];
      ok := WriteEntry(codec, s, long, ascii, fs[index]);
      if !ok { return; }
      index := index + 1;
    }
    assert fs[index..] == [];
    ok := true;
  }

  method ReadShortEntries(codec: Codec, s: Stream, ascii: bool) returns (r: Option<seq<Format<seq<Byte>>>>)
    requires s.Valid() && s.position == 0 && s.length >= 36
    modifies s`position
    ensures r == ReadShort(codec, ascii, [], old(s.Rest()))
  {
    var numFormats := s.length / 36;
    var fs: seq<Format<seq<Byte>>> := [];
    while s.length - s.position >= 4
      invariant s.Valid() && s.position == 36 * |fs| <= s.length
      invariant ReadShort(codec, ascii, [], old(s.Rest())) == ReadShort(codec, ascii, fs, s.Rest())
      decreases s.length - s.position
    {
      if |fs| >= numFormats { return None; }
      ghost var rest := s.Rest();
      var id := s.ReadUint32();
      var block := s.ReadBytes(32);
      assert block == rest[4..36] && s.Rest() == rest[36..];
      var name := ShortName(codec, ascii, block);
      if name.None? { return None; }
      fs := fs + [Format(id, name.value)];
    }
    return Some(fs);
  }

  method CountLongEntries(s: Stream) returns (ok: bool, n: nat)
    requires s.Valid() && s.position <= s.length
    modifies s`position
    ensures ok == Complete(old(s.Rest())) && n == Counted(old(s.Rest()))
  {
    n := 0;
    while s.length - s.position > 0
      invariant s.Valid() && s.position <= s.length
      invariant Complete(old(s.Rest())) == Complete(s.Rest())
      invariant Counted(old(s.Rest())) == n + Counted(s.Rest())
      decreases s.length - s.position
    {
      ghost var rest := s.Rest();
      ok := s.SafeSeek(4);
      if !ok { return; }
      var length := WideLength(s.buffer[s.position..s.length]);
      ok := s.SafeSeek(2 * (length + 1));
      if !ok { return; }
      assert s.Rest() == rest[LongSize(rest).value..];
      n := n + 1;
    }
    ok := true;
  }

  method ReadLongEntry(s: Stream) returns (id: Uint32, text: seq<Byte>)
    requires s.Valid() && s.position <= s.length && LongSize(s.Rest()).Some?
    modifies s`position
    ensures s.Valid() && s.position <= s.length
    ensures var size := LongSize(old(s.Rest())).value;
            && id == FromLittleEndian32(old(s.Rest())) && text == old(s.Rest())[4..size - 2]
            && s.Rest() == old(s.Rest())[size..] && s.position == old(s.position) + size
  {
    ghost var rest := s.Rest();
    id := s.ReadUint32();
    var length := WideLength(s.buffer[s.position..s.length]);
    text := s.ReadBytes(2 * length);
    var _ := s.SafeSeek(2);
    assert text == rest[4..LongSize(rest).value - 2] && s.Rest() == rest[LongSize(rest).value..];
  }

  /** One round of the reading pass. */
  method ReadNextLong(codec: Codec, s: Stream, ghost fs: seq<Format<seq<Byte>>>)
    returns (f: Option<Format<seq<Byte>>>)
    requires s.Valid() && s.position + 4 <= s.length && Complete(s.Rest())
    modifies s`position
    ensures s.Valid() && old(s.position) < s.position <= s.length
    ensures Complete(s.Rest()) && Counted(old(s.Rest())) == 1 + Counted(s.Rest())
    ensures ReadLong(codec, fs, old(s.Rest()))
         == (if f.None? then None else ReadLong(codec, fs + [f.value], s.Rest()))
  {
    CountOfNext(s.Rest());
    var id, text := ReadLongEntry(s);
    var name := LongName(codec, text);
    f := if name.None? then None else Some(Format(id, name.value));
  }

  /** The reading pass over a list that was counted before: there is always a place for the next format. */
  method ReadLongEntries(codec: Codec, s: Stream, numFormats: nat) returns (r: Option<seq<Format<seq<Byte>>>>)
    requires s.Valid() && s.position <= s.length
    requires Complete(s.Rest()) && Counted(s.Rest()) == numFormats
    modifies s`position
    ensures r == ReadLong(codec, [], old(s.Rest()))
    ensures r.Some? ==> |r.value| == numFormats
  {
    var fs: seq<Format<seq<Byte>>> := [];
    while s.length - s.position >= 4
      invariant s.Valid() && s.position <= s.length
      invariant Complete(s.Rest()) && |fs| + Counted(s.Rest()) == numFormats
      invariant ReadLong(codec, [], old(s.Rest())) == ReadLong(codec, fs, s.Rest())
      decreases s.length - s.position
    {
      var f := ReadNextLong(codec, s, fs);
      assert |fs| < numFormats;
      if f.None? { return None; }
      fs := fs + [f.value];
    }
    CountOfNext(s.Rest());
    return Some(fs);
  }

  /**
   cliprdr_read_format_list. A list that cannot be counted leaves the number of entries
   that were counted behind, and no formats.
   */
  method ReadFormatList(codec: Codec, s: Stream, dataLen: nat, long: bool, ascii: bool)
    returns (code: Code, formats: seq<Format<seq<Byte>>>, numFormats: nat)
    requires s.Valid() && s.position <= s.length
    modifies s`position
    ensures (code, formats) == Outcome(codec, long, ascii, old(s.Rest()), dataLen)
    ensures code == Ok ==> numFormats == |formats|
    ensures code != Ok && long && 0 < dataLen <= old(|s.Rest()|) && !Complete(old(s.Rest())[..dataLen]) ==>
              numFormats == Counted(old(s.Rest())[..dataLen])
    ensures code != Ok && !(long && 0 < dataLen <= old(|s.Rest()|) && !Complete(old(s.Rest())[..dataLen])) ==>
              numFormats == 0
  {
    formats, numFormats := [], 0;
    ghost var b := s.Rest();
    var start := s.position;
    var ok := s.SafeSeek(dataLen);
    if !ok { return InvalidData, [], 0; }
    if dataLen == 0 { return Ok, [], 0; }
    var data := s.buffer[start..start + dataLen];
    assert data == b[..dataLen];
    var sub1 := new Stream.Over(data);
    assert sub1.Rest() == data;
    if !long {
      if dataLen / 36 == 0 { return NoMemory, [], 0; }
      var r := ReadShortEntries(codec, sub1, ascii);
      if r.None? { return InternalError, [], 0; }
      return Ok, r.value, |r.value|;
    }
    var sub2 := new Stream.Over(data);
    assert sub2.Rest() == data;
    ok, numFormats := CountLongEntries(sub1);
    if !ok { return InternalError, [], numFormats; }
    var r := ReadLongEntries(codec, sub2, numFormats);
    if r.None? { return InternalError, [], 0; }
    return Ok, r.value, numFormats;
  }
}
