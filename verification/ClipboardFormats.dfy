/** The clipboard formats that all clipboard components exchange: the CLIPRDR_FORMAT structure. */
module ClipboardFormats {
  import opened WinprStream

  const CF_RAW: Uint32 := 0
  const CF_TEXT: Uint32 := 1
  const CF_TIFF: Uint32 := 6
  const CF_OEMTEXT: Uint32 := 7
  const CF_DIB: Uint32 := 8
  const CF_UNICODETEXT: Uint32 := 13
  const CF_DIBV5: Uint32 := 17

  /** The first id a wClipboard gives to a format that is registered by name. */
  const FIRST_REGISTERED: Uint32 := 0xC000

  const HTML_FORMAT := "HTML Format"
  const FILE_GROUP := "FileGroupDescriptorW"

  /** A format; a missing name is not the same as an empty one. */
  datatype Format<N> = Format(id: Uint32, name: Option<N>)

  predicate DistinctIds<N>(fs: seq<Format<N>>)
  {
    forall i, j :: 0 <= i < j < |fs| ==> fs[i].id != fs[j].id
  }

  function NameBytes(f: Format<seq<Byte>>): (s: seq<Byte>)
  {
    if f.name.Some? then f.name.value else []
  }

  /** strnlen. */
  function Length(b: seq<Byte>): (n: nat)
    ensures n <= |b|
  {
    if b == [] || b[0] == 0 then 0 else 1 + Length(b[1..])
  }

  /** The first zero byte, or the end. */
  lemma {:induction false} LengthStops(b: seq<Byte>)
    ensures 0 !in b[..Length(b)] && (Length(b) < |b| ==> b[Length(b)] == 0)
  {
    if b != [] && b[0] != 0 {
      LengthStops(b[1..]);
      assert b[..Length(b)] == [b[0]] + b[1..][..Length(b[1..])];
    }
  }
}
