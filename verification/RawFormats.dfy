/**
 The list of server formats that one X11 client leaves on its window for another one to
 read, client/X11/xf_cliprdr.c: a count, then each format's id and its name with the
 terminating zero. All names are C strings.
 */
module RawFormats {
  import opened WinprStream
  import opened ClipboardFormats

  const MAX_CLIPBOARD_FORMATS: nat := 255

  /** C strings hold no zero byte. */
  predicate Proper(fs: seq<Format<seq<Byte>>>)
  {
    forall i :: 0 <= i < |fs| ==> 0 !in NameBytes(fs[i])
  }

  function Entry(f: Format<seq<Byte>>): (b: seq<Byte>)
  {
    LittleEndian32(f.id) + NameBytes(f) + [0]
  }

  function Entries(fs: seq<Format<seq<Byte>>>): (b: seq<Byte>)
  {
    if fs == [] then [] else Entry(fs[0]) + Entries(fs[1..])
  }

  function Serialised(fs: seq<Format<seq<Byte>>>): (b: seq<Byte>)
    requires |fs| < 0x1_0000_0000
  {
    LittleEndian32(|fs|) + Entries(fs)
  }

  // ---- Reading -----------------------------------------------------------

  function ParseEntry(b: seq<Byte>): (r: Option<(Format<seq<Byte>>, seq<Byte>)>)
  {
    if |b| < 4 then None
    else
      var n := Length(b[4..]);
      if 4 + n == |b| then None else Some((Format(FromLittleEndian32(b), Some(b[4..4 + n])), b[4 + n + 1..]))
  }

  /** The formats read so far, and then `count` more. */
  function ParseEntries(fs: seq<Format<seq<Byte>>>, b: seq<Byte>, count: nat): (r: Option<seq<Format<seq<Byte>>>>)
    decreases count
  {
    if count == 0 then Some(fs)
    else match ParseEntry(b)
      case None => None
      case Some((f, rest)) => ParseEntries(fs + [f], rest, count - 1)
  }

  /** `empty` says whether allocating no format at all gives a pointer, which C leaves open. */
  function Parsed(b: seq<Byte>, empty: bool): (r: Option<seq<Format<seq<Byte>>>>)
  {
    if |b| < 4 then None
    else
      var count := FromLittleEndian32(b);
      if count > MAX_CLIPBOARD_FORMATS || (count == 0 && !empty) then None else ParseEntries([], b[4..], count)
  }

  // ---- Round trip --------------------------------------------------------

  function ReadBack(f: Format<seq<Byte>>): (r: Format<seq<Byte>>)
  {
    Format(f.id, Some(NameBytes(f)))
  }

  function AllReadBack(fs: seq<Format<seq<Byte>>>): (r: seq<Format<seq<Byte>>>)
    ensures |r| == |fs| && forall i :: 0 <= i < |fs| ==> r[i] == ReadBack(fs[i])
  {
    seq(|fs|, i requires 0 <= i < |fs| => ReadBack(fs[i]))
  }

  lemma {:induction false} LengthOfName(name: seq<Byte>, rest: seq<Byte>)
    requires 0 !in name
    ensures Length(name + [0] + rest) == |name|
    decreases |name|
  {
    var b := name + [0] + rest;
    if name != [] {
      assert b[1..] == name[1..] + [0] + rest;
      LengthOfName(name[1..], rest);
    }
  }

  lemma EntryReadsBack(f: Format<seq<Byte>>, rest: seq<Byte>)
    requires 0 !in NameBytes(f)
    ensures ParseEntry(Entry(f) + rest) == Some((ReadBack(f), rest))
  {
    var name := NameBytes(f);
    var tail := name + [0] + rest;
    var b := LittleEndian32(f.id) + tail;
    assert Entry(f) + rest == b;
    LittleEndianRoundTrip(f.id, tail);
    LengthOfName(name, rest);
    var n := |name|;
    assert b[4..4 + n] == name && b[4 + n + 1..] == rest;
  }

  lemma {:induction false} EntriesReadBack(done: seq<Format<seq<Byte>>>, fs: seq<Format<seq<Byte>>>, rest: seq<Byte>)
    requires Proper(fs)
    ensures ParseEntries(done, Entries(fs) + rest, |fs|) == Some(done + AllReadBack(fs))
    decreases |fs|
  {
    if fs == [] {
      assert done + AllReadBack(fs) == done;
    } else {
      var more := Entries(fs[1..]) + rest;
      assert Entries(fs) + rest == Entry(fs[0]) + more;
      EntryReadsBack(fs[0], more);
      EntriesReadBack(done + [ReadBack(fs[0])], fs[1..], rest);
      assert done + AllReadBack(fs) == (done + [ReadBack(fs[0])]) + AllReadBack(fs[1..]);
    }
  }

  /** A list reads back, with missing names as empty ones, exactly when it has no more than 255 formats. */
  lemma RoundTrip(fs: seq<Format<seq<Byte>>>, rest: seq<Byte>, empty: bool)
    requires Proper(fs)
    requires |fs| < 0x1_0000_0000 && (fs == [] ==> empty)
    ensures Parsed(Serialised(fs) + rest, empty)
         == if |fs| <= MAX_CLIPBOARD_FORMATS then Some(AllReadBack(fs)) else None
  {
    assert Serialised(fs) + rest == LittleEndian32(|fs|) + (Entries(fs) + rest);
    LittleEndianRoundTrip(|fs|, Entries(fs) + rest);
    EntriesReadBack([], fs, rest);
    assert [] + AllReadBack(fs) == AllReadBack(fs);
  }

  lemma InThree(a: seq<Byte>, n: seq<Byte>, c: seq<Byte>)
    requires |a| == 4
    ensures var b := a + n + [0] + c;
            |b| >= 5 + |n| && b[..4] == a && b[4..4 + |n|] == n && b[4 + |n|] == 0 && b[5 + |n|..] == c
  {
  }

  /** Where things are: the count; then the id, the name and a zero byte of the first format; then the others. */
  lemma Layout(fs: seq<Format<seq<Byte>>>)
    requires |fs| < 0x1_0000_0000
    ensures Serialised(fs)[..4] == LittleEndian32(|fs|) && Serialised(fs)[4..] == Entries(fs)
    ensures fs == [] ==> Entries(fs) == []
    ensures fs != [] ==>
              var b := Entries(fs);
              var name := NameBytes(fs[0]);
              && |b| >= 5 + |name| && b[..4] == LittleEndian32(fs[0].id)
              && b[4..4 + |name|] == name && b[4 + |name|] == 0 && b[5 + |name|..] == Entries(fs[1..])
  {
    if fs != [] {
      InThree(LittleEndian32(fs[0].id), NameBytes(fs[0]), Entries(fs[1..]));
    }
  }

  // ---- Only serialised lists are read ------------------------------------

  lemma LittleEndianOfBytes(b: seq<Byte>)
    requires |b| >= 4
    ensures LittleEndian32(FromLittleEndian32(b)) == b[..4]
  {
    var hi := b[1] as int + 0x100 * b[2] as int + 0x1_0000 * b[3] as int;
    var v := FromLittleEndian32(b);
    assert v == b[0] as int + 0x100 * hi;
    Digit(b[0], hi);
    var top := b[2] as int + 0x100 * b[3] as int;
    assert hi == b[1] as int + 0x100 * top;
    Digit(b[1], top);
    Digit(b[2], b[3] as int);
    Nested(v);
  }

  lemma Digit(low: Byte, high: nat)
    ensures (low as int + 0x100 * high) % 0x100 == low && (low as int + 0x100 * high) / 0x100 == high
  {
  }

  lemma Nested(v: Uint32)
    ensures v / 0x1_0000 == v / 0x100 / 0x100 && v / 0x100_0000 == v / 0x100 / 0x100 / 0x100
  {
  }

  lemma EntryIsSerialised(b: seq<Byte>)
    requires ParseEntry(b).Some?
    ensures var (f, rest) := ParseEntry(b).value;
            f.name.Some? && 0 !in NameBytes(f) && b == Entry(f) + rest
  {
    var n := Length(b[4..]);
    LengthStops(b[4..]);
    LittleEndianOfBytes(b);
    var name, rest := b[4..4 + n], b[4 + n + 1..];
    assert name == b[4..][..n] && b[4 + n] == b[4..][n] == 0;
    assert b == b[..4] + name + [0] + rest;
  }

  /** What is known of formats read from the front of some bytes. */
  predicate Front(fs: seq<Format<seq<Byte>>>, b: seq<Byte>)
  {
    Entries(fs) <= b && AllReadBack(fs) == fs && Proper(fs)
  }

  lemma FrontCons(f: Format<seq<Byte>>, fs: seq<Format<seq<Byte>>>, rest: seq<Byte>)
    requires f.name.Some? && 0 !in NameBytes(f) && Front(fs, rest)
    ensures Front([f] + fs, Entry(f) + rest)
  {
    var all := [f] + fs;
    assert all[1..] == fs;
    assert Entries(all) == Entry(f) + Entries(fs);
    assert AllReadBack(all) == [ReadBack(f)] + AllReadBack(fs);
    assert Proper(all) by {
      assert forall i :: 0 < i < |all| ==> all[i] == fs[i - 1];
    }
  }

  lemma {:induction false} EntriesAreSerialised(done: seq<Format<seq<Byte>>>, b: seq<Byte>, count: nat)
    returns (fs: seq<Format<seq<Byte>>>)
    requires ParseEntries(done, b, count).Some?
    ensures ParseEntries(done, b, count).value == done + fs
    ensures |fs| == count && Front(fs, b)
    decreases count
  {
    fs := [];
    if count > 0 {
      EntryIsSerialised(b);
      var (f, rest) := ParseEntry(b).value;
      var more := EntriesAreSerialised(done + [f], rest, count - 1);
      FrontCons(f, more, rest);
      fs := [f] + more;
      assert done + fs == (done + [f]) + more;
    }
  }

  /** Bytes are read as a list exactly when they start with that list, of at most 255 named formats, serialised. */
  lemma ParsedExactly(b: seq<Byte>, empty: bool, fs: seq<Format<seq<Byte>>>)
    requires |fs| < 0x1_0000_0000 && (fs == [] ==> empty)
    ensures Parsed(b, empty) == Some(fs) <==>
            |fs| <= MAX_CLIPBOARD_FORMATS && Serialised(fs) <= b && AllReadBack(fs) == fs && Proper(fs)
  {
    if Parsed(b, empty) == Some(fs) {
      var more := EntriesAreSerialised([], b[4..], FromLittleEndian32(b));
      assert [] + more == more;
      LittleEndianOfBytes(b);
      assert b == b[..4] + b[4..];
    } else if |fs| <= MAX_CLIPBOARD_FORMATS && Serialised(fs) <= b && Proper(fs) {
      var rest := b[|Serialised(fs)|..];
      assert b == Serialised(fs) + rest;
      RoundTrip(fs, rest, empty);
    }
  }

  // ---- The code ----------------------------------------------------------

  lemma {:induction false} EntriesSnoc(fs: seq<Format<seq<Byte>>>, f: Format<seq<Byte>>)
    ensures Entries(fs + [f]) == Entries(fs) + Entry(f)
    decreases |fs|
  {
    if fs == [] {
      assert fs + [f] == [f] && [f][1..] == [];
    } else {
      assert (fs + [f])[1..] == fs[1..] + [f];
      EntriesSnoc(fs[1..], f);
    }
  }

  method WriteEntry(s: Stream, f: Format<seq<Byte>>)
    requires s.Valid() && |s.buffer| > 0
    modifies s
    ensures s.Valid() && |s.buffer| > 0
    ensures s.Written() == old(s.Written()) + Entry(f)
  {
    var name := NameBytes(f);
    s.EnsureRemainingCapacity(4 + |name| + 1);
    s.WriteUint32(f.id);
    s.Write(name);
    s.WriteUint8(0);
  }

  lemma EntriesUpTo(fs: seq<Format<seq<Byte>>>, i: nat)
    requires i < |fs|
    ensures Entries(fs[..i + 1]) == Entries(fs[..i]) + Entry(fs[i])
  {
    EntriesSnoc(fs[..i], fs[i]);
    assert fs[..i] + [fs[i]] == fs[..i + 1];
  }

  /** The formats but the last. */
  function Announced(fs: seq<Format<seq<Byte>>>): (r: seq<Format<seq<Byte>>>)
  {
    if fs == [] then [] else fs[..|fs| - 1]
  }

  /** A server list with the synthetic format behind it reaches the other client as it came from the server. */
  lemma ServerListArrives(fs: seq<Format<seq<Byte>>>, raw: Format<seq<Byte>>, empty: bool)
    requires Proper(fs)
    requires |fs| < 0x1_0000_0000 && (fs == [] ==> empty)
    ensures |Announced(fs + [raw])| == |fs|
    ensures Parsed(Serialised(Announced(fs + [raw])), empty) == if |fs| <= 255 then Some(AllReadBack(fs)) else None
  {
    assert (fs + [raw])[..|fs|] == fs;
    RoundTrip(fs, [], empty);
    assert Serialised(fs) + [] == Serialised(fs);
  }

  /** xf_cliprdr_serialize_server_format_list: the last format is the synthetic CF_RAW and is left out. */
  method Serialise(serverFormats: seq<Format<seq<Byte>>>) returns (s: Stream)
    requires |serverFormats| < 0x1_0000_0000
    ensures fresh(s) && s.Valid()
    ensures s.Written() == Serialised(Announced(serverFormats))
  {
    s := new Stream(128, 0);
    var formatCount := if |serverFormats| > 0 then |serverFormats| - 1 else 0;
    ghost var fs := Announced(serverFormats);
    s.WriteUint32(formatCount);
    assert s.Written() == LittleEndian32(|fs|) + Entries(fs[..0]);
    var i := 0;
    while i < formatCount
      invariant 0 <= i <= formatCount == |fs|
      invariant fresh(s) && s.Valid() && |s.buffer| > 0
      invariant s.Written() == LittleEndian32(|fs|) + Entries(fs[..i])
    {
      EntriesUpTo(fs, i);
      WriteEntry(s, serverFormats[i]);
      i := i + 1;
    }
    assert fs[..i] == fs;
  }

  method ReadEntry(s: Stream) returns (r: Option<Format<seq<Byte>>>)
    requires s.Valid() && s.position <= s.length
    modifies s`position
    ensures s.Valid() && s.position <= s.length
    ensures var p := ParseEntry(old(s.Rest()));
            if p.None? then r == None else r == Some(p.value.0) && s.Rest() == p.value.1
  {
    if s.length - s.position < 4 { return None; }
    ghost var before := s.Rest();
    var id := s.ReadUint32();
    var rest := s.buffer[s.position..s.length];
    assert rest == before[4..];
    var n := Length(rest);
    if n == |rest| { return None; }
    var ok := s.SafeSeek(n + 1);
    assert rest[..n] == before[4..4 + n] && s.Rest() == before[4 + n + 1..];
    return Some(Format(id, Some(rest[..n])));
  }

  method ReadEntries(s: Stream, count: nat) returns (r: Option<seq<Format<seq<Byte>>>>)
    requires s.Valid() && s.position <= s.length
    modifies s`position
    ensures r == ParseEntries([], old(s.Rest()), count)
  {
    var fs: seq<Format<seq<Byte>>> := [];
    var left := count;
    while left > 0
      invariant s.Valid() && s.position <= s.length
      invariant ParseEntries([], old(s.Rest()), count) == ParseEntries(fs, s.Rest(), left)
    {
      var f := ReadEntry(s);
      if f.None? { return None; }
      fs, left := fs + [f.value], left - 1;
    }
    return Some(fs);
  }

  /** xf_cliprdr_parse_server_format_list. */
  method Parse(data: seq<Byte>, empty: bool) returns (r: Option<seq<Format<seq<Byte>>>>)
    ensures r == Parsed(data, empty)
  {
    var s := new Stream.Over(data);
    assert s.Rest() == data;
    if s.length - s.position < 4 { return None; }
    var count := s.ReadUint32();
    if count > MAX_CLIPBOARD_FORMATS || (count == 0 && !empty) { return None; }
    r := ReadEntries(s, count);
  }
}
