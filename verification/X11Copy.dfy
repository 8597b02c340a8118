/**
 Copying to the server in the X11 client, client/X11/xf_cliprdr.c: the server asks for a
 format, the selection owner hands the data over in one property or, by the INCR
 mechanism of section 2.7.2 of the Inter-Client Communication Conventions Manual, in
 many, and the server gets one response.
 */
module X11Copy {
  import opened WinprStream
  import opened ClipboardFormats

  /** The requested id when no request is pending. */
  const NO_REQUEST: Uint32 := 0xFFFF_FFFF

  datatype ClientFormat = ClientFormat(atom: nat, remote: Uint32, local: Uint32, isImage: bool)

  /**
   The table of formats, the ids of "HTML Format" and "FileGroupDescriptorW" in the
   wClipboard, its conversions, and the packing of file lists.
   */
  datatype System = System(
    formats: seq<ClientFormat>, html: Uint32, fileGroup: Uint32,
    convert: (Uint32, Uint32, seq<Byte>) -> Option<seq<Byte>>,
    pack: seq<Byte> -> Option<seq<Byte>>)

  // ---- The format table --------------------------------------------------

  /** An image on the clipboard is also handed out where HTML is asked for. */
  predicate Serves(sys: System, image: bool, id: Uint32, f: ClientFormat)
  {
    (image && id == sys.html && f.isImage) || f.remote == id
  }

  function FirstServing(sys: System, image: bool, id: Uint32, fs: seq<ClientFormat>): (f: Option<ClientFormat>)
    decreases |fs|
  {
    if fs == [] then None
    else if Serves(sys, image, id, fs[0]) then Some(fs[0])
    else FirstServing(sys, image, id, fs[1..])
  }

  predicate IsFirst(sys: System, image: bool, id: Uint32, fs: seq<ClientFormat>, i: nat)
  {
    i < |fs| && Serves(sys, image, id, fs[i]) && forall j :: 0 <= j < i ==> !Serves(sys, image, id, fs[j])
  }

  /** The table is searched for the first format that serves the request; without one there is none. */
  lemma {:induction false} FirstServingIsFirst(sys: System, image: bool, id: Uint32, fs: seq<ClientFormat>)
    ensures var f := FirstServing(sys, image, id, fs);
            if f.None? then forall i :: 0 <= i < |fs| ==> !Serves(sys, image, id, fs[i])
            else exists i: nat :: IsFirst(sys, image, id, fs, i) && fs[i] == f.value
    decreases |fs|
  {
    if fs != [] && !Serves(sys, image, id, fs[0]) {
      FirstServingIsFirst(sys, image, id, fs[1..]);
      var f := FirstServing(sys, image, id, fs);
      if f.Some? {
        var i: nat :| IsFirst(sys, image, id, fs[1..], i) && fs[1..][i] == f.value;
        assert forall j :: 0 < j < |fs| ==> fs[j] == fs[1..][j - 1];
        assert IsFirst(sys, image, id, fs, i + 1);
      } else {
        assert forall j :: 0 < j < |fs| ==> fs[j] == fs[1..][j - 1];
      }
    } else if fs != [] {
      assert IsFirst(sys, image, id, fs, 0);
    }
  }

  function FormatById(sys: System, image: bool, id: Uint32): (f: Option<ClientFormat>)
  {
    FirstServing(sys, image, id, sys.formats)
  }

  /** Asked for HTML while the clipboard holds an image, an image format serves as well as the one with the id. */
  predicate Offers(sys: System, image: bool, id: Uint32, f: ClientFormat)
  {
    f.remote == id || (f.isImage && image && id == sys.html)
  }

  /** The format found is the first of the table that the request allows. */
  lemma FormatIsFirst(sys: System, image: bool, id: Uint32, f: ClientFormat)
    ensures FormatById(sys, image, id) == Some(f)
            <==> exists i :: 0 <= i < |sys.formats| && sys.formats[i] == f && Offers(sys, image, id, f)
                             && forall j :: 0 <= j < i ==> !Offers(sys, image, id, sys.formats[j])
  {
    var fs := sys.formats;
    FirstServingIsFirst(sys, image, id, fs);
    assert forall g :: Serves(sys, image, id, g) <==> Offers(sys, image, id, g);
    if FormatById(sys, image, id).Some? {
      var i: nat :| IsFirst(sys, image, id, fs, i) && fs[i] == FormatById(sys, image, id).value;
      assert Offers(sys, image, id, fs[i]) && forall j :: 0 <= j < i ==> !Offers(sys, image, id, fs[j]);
    }
  }

  // ---- State -------------------------------------------------------------

  datatype Result = Ok(data: seq<Byte>) | Fail

  /** A response, and the number of the request it answers. */
  datatype Response = Response(request: nat, result: Result)

  /**
   The requested id, whether an incremental transfer runs, the bytes collected, whether
   their buffer was ever allocated, and whether the clipboard holds an image; then the
   history: how many requests came, were overtaken by the next one or cannot be
   answered, and the responses.
   */
  datatype Copy = Copy(
    requested: Uint32, incr: bool, collected: seq<Byte>, buffered: bool, image: bool,
    requests: nat, overtaken: nat, unanswerable: nat, responses: seq<Response>)

  const START := Copy(NO_REQUEST, false, [], false, false, 0, 0, 0, [])

  /** What reading the property gives: its type and size first, and then, if that works, its bytes. */
  datatype Property = Unreadable | Contents(incr: bool, total: nat, batch: Option<seq<Byte>>)

  datatype Event =
    | Requested(raw: bool, id: Uint32)
    | SelectionNotify(target: nat, property: Property)
    | PropertyNotify(property: Property)
    | Polled(image: bool, announced: bool)
    | ServerList

  // ---- Steps -------------------------------------------------------------

  function Responded(s: Copy, r: Result): (t: Copy)
  {
    if s.requested == NO_REQUEST then s
    else s.(requested := NO_REQUEST, responses := s.responses + [Response(s.requests, r)])
  }

  /** What the server gets for data in the format that serves its request. */
  function Outcome(sys: System, image: bool, id: Uint32, data: Option<seq<Byte>>): (r: Result)
  {
    var f := FormatById(sys, image, id);
    if data.None? || f.None? then Fail
    else match sys.convert(if f.value.remote == CF_RAW then CF_RAW else f.value.local, id, data.value)
      case None => Fail
      case Some(d) =>
        if f.value.remote != 0 && f.value.remote == sys.fileGroup then
          match sys.pack(d) case None => Fail case Some(list) => Ok(list)
        else Ok(d)
  }

  function Stopped(s: Copy): (t: Copy)
  {
    s.(incr := false, collected := [])
  }

  /** xf_cliprdr_process_requested_data; `data` is what was collected, if there is a buffer. */
  function Processed(sys: System, s: Copy, hasData: bool, data: Option<seq<Byte>>): (t: Copy)
  {
    if s.incr && hasData then s
    else Responded(s.(collected := []), if hasData then Outcome(sys, s.image, s.requested, data) else Fail)
  }

  function Appended(s: Copy, batch: seq<Byte>): (t: Copy)
  {
    s.(collected := s.collected + batch, buffered := true)
  }

  /** xf_cliprdr_get_requested_data, once the property could be looked at. */
  function Fetched(sys: System, s: Copy, p: Property): (t: Copy)
    requires p.Contents?
  {
    if p.total == 0 && !s.incr then Processed(sys, Stopped(s), false, None)
    else if p.incr then Processed(sys, Stopped(s).(incr := true), true, None)
    else if p.total == 0 then
      Processed(sys, Stopped(s), true, if s.buffered then Some(s.collected) else None)
    else if p.batch.None? then Processed(sys, s, false, None)
    else
      var t := Appended(s, p.batch.value);
      Processed(sys, t, true, Some(t.collected))
  }

  function GotData(sys: System, s: Copy, target: nat, p: Property): (t: Copy)
  {
    var f := FormatById(sys, s.image, s.requested);
    if f.None? || f.value.atom != target || p.Unreadable? then Responded(s, Fail)
    else Fetched(sys, s, p)
  }

  /** The latest request takes the place of a pending one. */
  function Accepted(s: Copy, id: Uint32): (t: Copy)
  {
    s.(requested := id, requests := s.requests + 1,
       overtaken := s.overtaken + (if s.requested != NO_REQUEST then 1 else 0),
       unanswerable := s.unanswerable + (if id == NO_REQUEST then 1 else 0))
  }

  function OnRequest(sys: System, s: Copy, raw: bool, id: Uint32): (t: Copy)
  {
    var wanted := if raw then CF_RAW else id;
    var t := Accepted(s, wanted);
    if FormatById(sys, s.image, wanted).None? then Responded(t, Fail) else t
  }

  /** The targets were looked at; a change of the formats was announced to the server. */
  function OnPoll(s: Copy, image: bool, announced: bool): (t: Copy)
  {
    var t := s.(image := image);
    if announced then Stopped(Responded(t, Fail)) else t
  }

  function Step(sys: System, s: Copy, e: Event): (t: Copy)
  {
    match e
    case Requested(raw, id) => OnRequest(sys, s, raw, id)
    case SelectionNotify(target, p) => GotData(sys, s, target, p)
    case PropertyNotify(p) =>
      var f := FormatById(sys, s.image, s.requested);
      if s.incr && f.Some? then GotData(sys, s, f.value.atom, p) else s
    case Polled(image, announced) => OnPoll(s, image, announced)
    case ServerList => Stopped(s)
  }

  function Run(sys: System, s: Copy, es: seq<Event>): (t: Copy)
    decreases |es|
  {
    if es == [] then s else Run(sys, Step(sys, s, es[0]), es[1..])
  }

  // ---- Requests and responses --------------------------------------------

  predicate Increasing(rs: seq<Response>, bound: nat)
  {
    && (forall i :: 0 <= i < |rs| ==> rs[i].request < bound)
    && (forall i, j :: 0 <= i < j < |rs| ==> rs[i].request < rs[j].request)
  }

  predicate Pending(s: Copy)
  {
    s.requested != NO_REQUEST
  }

  /**
   Every request was answered, overtaken, unanswerable or is pending; the responses
   are in the order of their requests and none is for the pending one; outside an
   incremental transfer nothing is collected.
   */
  predicate Inv(s: Copy)
  {
    && s.requests == |s.responses| + s.overtaken + s.unanswerable + (if Pending(s) then 1 else 0)
    && Increasing(s.responses, if Pending(s) then s.requests else s.requests + 1)
    && (!s.incr ==> s.collected == [])
    && (s.collected != [] ==> s.buffered)
  }

  lemma RespondedKeeps(s: Copy, r: Result)
    requires Inv(s)
    ensures Inv(Responded(s, r))
  {
  }

  lemma FetchedKeeps(sys: System, s: Copy, p: Property)
    requires Inv(s) && p.Contents?
    ensures Inv(Fetched(sys, s, p))
  {
    if p.total == 0 && !s.incr {
      RespondedKeeps(Stopped(s), Fail);
    } else if p.incr {
    } else if p.total == 0 {
      var data := if s.buffered then Some(s.collected) else None;
      RespondedKeeps(Stopped(s), Outcome(sys, s.image, s.requested, data));
    } else if p.batch.None? {
      RespondedKeeps(s.(collected := []), Fail);
    } else {
      BatchKeeps(sys, s, p.batch.value);
    }
  }

  lemma BatchKeeps(sys: System, s: Copy, batch: seq<Byte>)
    requires Inv(s)
    ensures var t := Appended(s, batch); Inv(Processed(sys, t, true, Some(t.collected)))
  {
    var t := Appended(s, batch);
    if !s.incr {
      RespondedKeeps(t.(collected := []), Outcome(sys, s.image, s.requested, Some(t.collected)));
    }
  }

  lemma AcceptedKeeps(s: Copy, id: Uint32)
    requires Inv(s)
    ensures Inv(Accepted(s, id))
  {
  }

  lemma RequestKeeps(sys: System, s: Copy, raw: bool, id: Uint32)
    requires Inv(s)
    ensures Inv(OnRequest(sys, s, raw, id))
  {
    var wanted := if raw then CF_RAW else id;
    AcceptedKeeps(s, wanted);
    RespondedKeeps(Accepted(s, wanted), Fail);
  }

  lemma GotDataKeeps(sys: System, s: Copy, target: nat, p: Property)
    requires Inv(s)
    ensures Inv(GotData(sys, s, target, p))
  {
    RespondedKeeps(s, Fail);
    if p.Contents? { FetchedKeeps(sys, s, p); }
  }

  lemma StepKeepsInv(sys: System, s: Copy, e: Event)
    requires Inv(s)
    ensures Inv(Step(sys, s, e))
  {
    match e
    case Requested(raw, id) => RequestKeeps(sys, s, raw, id);
    case SelectionNotify(target, p) => GotDataKeeps(sys, s, target, p);
    case PropertyNotify(p) =>
      var f := FormatById(sys, s.image, s.requested);
      if s.incr && f.Some? { GotDataKeeps(sys, s, f.value.atom, p); }
    case Polled(image, announced) => RespondedKeeps(s.(image := image), Fail);
    case ServerList =>
  }

  /** In every run the requests are accounted for and no request is answered twice. */
  lemma {:induction false} RunKeepsInv(sys: System, s: Copy, es: seq<Event>)
    requires Inv(s)
    ensures Inv(Run(sys, s, es))
    decreases |es|
  {
    if es != [] {
      StepKeepsInv(sys, s, es[0]);
      RunKeepsInv(sys, Step(sys, s, es[0]), es[1..]);
    }
  }

  // ---- What data becomes -------------------------------------------------

  /** The data of a request in the format f that serves it, as the wClipboard converts it to the id requested. */
  function Conversion(sys: System, f: ClientFormat, id: Uint32, data: seq<Byte>): (d: Option<seq<Byte>>)
  {
    if f.remote == 0 then sys.convert(0, id, data) else sys.convert(f.local, id, data)
  }

  /**
   What the server gets is the conversion of the data from the local format to the id it asked
   for, packed if it asked for files; and a failure exactly if there is no data, no format that
   serves the request, no conversion, or no packing.
   */
  lemma OutcomeExactly(sys: System, image: bool, id: Uint32, data: Option<seq<Byte>>)
    ensures var f := FormatById(sys, image, id);
            if data.None? || f.None? then Outcome(sys, image, id, data) == Fail
            else
              var d := Conversion(sys, f.value, id, data.value);
              var files := f.value.remote != 0 && f.value.remote == sys.fileGroup;
              && (d.None? ==> Outcome(sys, image, id, data) == Fail)
              && (d.Some? && !files ==> Outcome(sys, image, id, data) == Ok(d.value))
              && (d.Some? && files ==>
                    Outcome(sys, image, id, data)
                    == if sys.pack(d.value).Some? then Ok(sys.pack(d.value).value) else Fail)
  {
  }

  /** For text, pictures and HTML: one property, or the chunks of a transfer, give one converted response. */
  lemma CopyIsConverted(sys: System, s: Copy, f: ClientFormat, chunks: seq<seq<Byte>>, size: nat, d: seq<Byte>)
    requires Inv(s) && Pending(s) && FormatById(sys, s.image, s.requested) == Some(f)
    requires f.remote != CF_RAW && f.remote != sys.fileGroup && chunks != [] && NonEmpty(chunks) && 0 < size
    requires sys.convert(f.local, s.requested, Concat(chunks)) == Some(d)
    ensures var es := [SelectionNotify(f.atom, Contents(true, size, None))] + (ChunkEvents(chunks) + [END]);
            Run(sys, s, es).responses == s.responses + [Response(s.requests, Ok(d))]
    ensures !s.incr && Concat(chunks) != [] ==>
              Step(sys, s, SelectionNotify(f.atom, Contents(false, |Concat(chunks)|, Some(Concat(chunks))))).responses
              == s.responses + [Response(s.requests, Ok(d))]
  {
    IncrementalCopy(sys, s, size, None, chunks);
    OutcomeExactly(sys, s.image, s.requested, Some(Concat(chunks)));
    if Concat(chunks) != [] { SingleCopy(sys, s, Concat(chunks)); }
  }

  /** The one new response to the pending request, if there is one, is a failure. */
  predicate Failed(s: Copy, t: Copy)
  {
    && !Pending(t)
    && t.responses == s.responses + (if Pending(s) then [Response(s.requests, Fail)] else [])
  }

  /**
   A pending request fails when the owner answers for another target or the property cannot be
   read; when there is no data outside a transfer, or a batch cannot be read; and when the
   client announces new formats. A format list of the server leaves it pending. Both lists end
   a transfer.
   */
  lemma FailsExactly(sys: System, s: Copy, target: nat, p: Property, total: nat, image: bool)
    ensures var f := FormatById(sys, s.image, s.requested);
            && Failed(s, Step(sys, s, SelectionNotify(target, Unreadable)))
            && (f.None? || f.value.atom != target ==> Failed(s, Step(sys, s, SelectionNotify(target, p))))
            && (!s.incr ==> Failed(s, Step(sys, s, SelectionNotify(target, Contents(false, 0, None)))))
            && (total > 0 ==> Failed(s, Step(sys, s, SelectionNotify(target, Contents(false, total, None)))))
    ensures var t := Step(sys, s, Polled(image, true));
            Failed(s, t) && !t.incr && t.collected == [] && t.image == image
    ensures Step(sys, s, Polled(image, false)) == s.(image := image)
    ensures Step(sys, s, ServerList) == s.(incr := false, collected := [])
  {
  }

  /**
   A request is for the raw format if the owner offers raw transfers. It fails at once, exactly
   if no format serves it; otherwise it is the pending one, in place of any before it. A running
   transfer goes on.
   */
  lemma RequestExactly(sys: System, s: Copy, raw: bool, id: Uint32)
    ensures var t := Step(sys, s, Requested(raw, id));
            var wanted := if raw then 0 else id;
            && t.requests == s.requests + 1 && t.incr == s.incr && t.collected == s.collected
            && (FormatById(sys, s.image, wanted).Some? ==> t.requested == wanted && t.responses == s.responses)
            && (FormatById(sys, s.image, wanted).None? && wanted != NO_REQUEST ==>
                  !Pending(t) && t.responses == s.responses + [Response(t.requests, Fail)])
  {
  }

  /** Outside a transfer a change of the property means nothing; in one it is read for the pending request. */
  lemma NotifyExactly(sys: System, s: Copy, p: Property)
    ensures var f := FormatById(sys, s.image, s.requested);
            Step(sys, s, PropertyNotify(p))
            == if s.incr && f.Some? then Step(sys, s, SelectionNotify(f.value.atom, p)) else s
  {
  }

  // ---- What the server gets ----------------------------------------------

  function ChunkEvents(chunks: seq<seq<Byte>>): (es: seq<Event>)
  {
    if chunks == [] then []
    else [PropertyNotify(Contents(false, |chunks[0]|, Some(chunks[0])))] + ChunkEvents(chunks[1..])
  }

  const END := PropertyNotify(Contents(false, 0, None))

  predicate NonEmpty(chunks: seq<seq<Byte>>)
  {
    forall i :: 0 <= i < |chunks| ==> chunks[i] != []
  }

  lemma ChunkStep(sys: System, s: Copy, chunk: seq<Byte>)
    requires s.incr && FormatById(sys, s.image, s.requested).Some? && chunk != []
    ensures Step(sys, s, PropertyNotify(Contents(false, |chunk|, Some(chunk)))) == Appended(s, chunk)
  {
  }

  /** The chunks of a running transfer are collected in order, and nothing else happens. */
  lemma {:induction false} ChunksAreCollected(sys: System, s: Copy, chunks: seq<seq<Byte>>, rest: seq<Event>)
    requires s.incr && FormatById(sys, s.image, s.requested).Some? && NonEmpty(chunks)
    ensures var t := s.(collected := s.collected + Concat(chunks), buffered := s.buffered || chunks != []);
            Run(sys, s, ChunkEvents(chunks) + rest) == Run(sys, t, rest)
    decreases |chunks|
  {
    var es := ChunkEvents(chunks) + rest;
    if chunks == [] {
      assert es == rest && s.collected + [] == s.collected;
    } else {
      var chunk := chunks[0];
      var t := Appended(s, chunk);
      ChunkStep(sys, s, chunk);
      ChunksAreCollected(sys, t, chunks[1..], rest);
      assert es[0] == PropertyNotify(Contents(false, |chunk|, Some(chunk)));
      assert es[1..] == ChunkEvents(chunks[1..]) + rest;
      assert t.collected + Concat(chunks[1..]) == s.collected + Concat(chunks);
    }
  }

  /** The end of a transfer: the response is for everything collected. */
  lemma TransferEnds(sys: System, s: Copy)
    requires s.incr && Pending(s) && FormatById(sys, s.image, s.requested).Some?
    ensures Step(sys, s, END) == Responded(Stopped(s), Outcome(sys, s.image, s.requested,
                                                             if s.buffered then Some(s.collected) else None))
  {
  }

  /**
   An incremental transfer, however the data is cut, ends in one response, for the
   concatenation of its chunks, whatever an earlier unfinished transfer left behind. Only
   a transfer without chunks in a client that never received any data fails.
   */
  lemma IncrementalCopy(sys: System, s: Copy, size: nat, batch: Option<seq<Byte>>, chunks: seq<seq<Byte>>)
    requires Pending(s) && FormatById(sys, s.image, s.requested).Some? && 0 < size && NonEmpty(chunks)
    ensures var atom := FormatById(sys, s.image, s.requested).value.atom;
            var es := [SelectionNotify(atom, Contents(true, size, batch))] + (ChunkEvents(chunks) + [END]);
            var data := if s.buffered || chunks != [] then Some(Concat(chunks)) else None;
            && Run(sys, s, es).responses
               == s.responses + [Response(s.requests, Outcome(sys, s.image, s.requested, data))]
            && !Run(sys, s, es).incr && Run(sys, s, es).collected == [] && !Pending(Run(sys, s, es))
  {
    var atom := FormatById(sys, s.image, s.requested).value.atom;
    var first := SelectionNotify(atom, Contents(true, size, batch));
    var rest := ChunkEvents(chunks) + [END];
    var s1 := Stopped(s).(incr := true);
    assert ([first] + rest)[1..] == rest;
    assert Step(sys, s, first) == s1;
    ChunksAreCollected(sys, s1, chunks, [END]);
    var s2 := s1.(collected := s1.collected + Concat(chunks), buffered := s1.buffered || chunks != []);
    assert s2.collected == Concat(chunks);
    TransferEnds(sys, s2);
    assert [END][1..] == [];
    assert Run(sys, s2, [END]) == Step(sys, s2, END);
  }

  /** A single property is answered with its data, at once, exactly when no incremental transfer runs. */
  lemma SingleCopy(sys: System, s: Copy, data: seq<Byte>)
    requires Inv(s) && Pending(s) && FormatById(sys, s.image, s.requested).Some? && data != []
    ensures var atom := FormatById(sys, s.image, s.requested).value.atom;
            var t := Step(sys, s, SelectionNotify(atom, Contents(false, |data|, Some(data))));
            && (s.incr ==> t.responses == s.responses && t.collected == s.collected + data)
            && (!s.incr ==>
                  && t.responses == s.responses
                     + [Response(s.requests, Outcome(sys, s.image, s.requested, Some(data)))]
                  && t.collected == [] && !Pending(t))
  {
    if !s.incr {
      assert s.collected + data == data;
    }
  }

  /** A request for the id that marks "no request" is never answered. */
  lemma MarkerIsNotAnswered(sys: System, s: Copy)
    ensures var t := Step(sys, s, Requested(false, NO_REQUEST));
            t.responses == s.responses && t.requests == s.requests + 1 && !Pending(t)
  {
  }

  // ---- The client's code -------------------------------------------------

  class Clipboard {
    const system: System
    var requestedFormatId: Uint32
    var incrStarts: bool
    var incrData: Option<seq<Byte>>
    var incrDataLength: nat
    var isImageContent: bool
    var responses: seq<Response>
    /** Requests, overtaken and unanswerable ones so far. */
    var counts: (nat, nat, nat)

    ghost predicate Valid()
      reads this
    {
      incrDataLength <= if incrData.Some? then |incrData.value| else 0
    }

    ghost function View(): (s: Copy)
      requires Valid()
      reads this
    {
      Copy(requestedFormatId, incrStarts, if incrData.Some? then incrData.value[..incrDataLength] else [],
           incrData.Some?, isImageContent, counts.0, counts.1, counts.2, responses)
    }

    constructor (system: System)
      ensures Valid() && View() == START && this.system == system
    {
      this.system := system;
      requestedFormatId, incrStarts, incrData, incrDataLength := NO_REQUEST, false, None, 0;
      isImageContent, responses, counts := false, [], (0, 0, 0);
    }

    /** xf_cliprdr_get_client_format_by_id. */
    method GetClientFormatById(id: Uint32) returns (f: Option<ClientFormat>)
      ensures f == FormatById(system, isImageContent, id)
    {
      var fetchImage := isImageContent && id == system.html;
      var index := 0;
      while index < |system.formats|
        invariant 0 <= index <= |system.formats|
        invariant FormatById(system, isImageContent, id)
               == FirstServing(system, isImageContent, id, system.formats[index..])
      {
        var format := system.formats[index];
        assert system.formats[index..][0] == format;
        assert system.formats[index..][1..] == system.formats[index + 1..];
        if (fetchImage && format.isImage) || format.remote == id {
          return Some(format);
        }
        index := index + 1;
      }
      assert system.formats[index..] == [];
      return None;
    }

    /** xf_cliprdr_send_data_response. */
    method SendDataResponse(result: Result)
      requires Valid()
      modifies this`requestedFormatId, this`responses
      ensures Valid() && View() == Responded(old(View()), result)
    {
      if requestedFormatId == NO_REQUEST { return; }
      requestedFormatId := NO_REQUEST;
      responses := responses + [Response(counts.0, result)];
    }

    /** xf_cliprdr_stop_incr. */
    method StopIncr()
      requires Valid()
      modifies this`incrStarts, this`incrDataLength
      ensures Valid() && View() == Stopped(old(View())) && incrDataLength == 0
    {
      incrStarts, incrDataLength := false, 0;
    }

    /** append: the buffer grows by the batch and two zero bytes that are not counted. */
    method Append(batch: seq<Byte>)
      requires Valid()
      modifies this`incrData, this`incrDataLength
      ensures Valid() && View() == Appended(old(View()), batch)
      ensures incrDataLength == old(incrDataLength) + |batch|
    {
      var kept := if incrData.Some? then incrData.value[..incrDataLength] else [];
      incrData := Some(kept + batch + [0, 0]);
      incrDataLength := incrDataLength + |batch|;
      assert incrData.value[..incrDataLength] == kept + batch;
    }

    /** xf_cliprdr_process_requested_data. */
    method ProcessRequestedData(hasData: bool, size: nat)
      requires Valid() && size <= if incrData.Some? then |incrData.value| else 0
      modifies this
      ensures Valid()
      ensures View() == Processed(system, old(View()), hasData,
                                  if old(incrData).Some? then Some(old(incrData).value[..size]) else None)
    {
      if incrStarts && hasData { return; }
      incrDataLength := 0;
      var format := GetClientFormatById(requestedFormatId);
      if !hasData || incrData.None? || format.None? {
        SendDataResponse(Fail);
        return;
      }
      var src := if format.value.remote == CF_RAW then CF_RAW else format.value.local;
      var dst := system.convert(src, requestedFormatId, incrData.value[..size]);
      if dst.None? {
        SendDataResponse(Fail);
        return;
      }
      if format.value.remote != 0 && format.value.remote == system.fileGroup {
        dst := system.pack(dst.value);
      }
      SendDataResponse(if dst.None? then Fail else Ok(dst.value));
    }

    /** xf_cliprdr_get_requested_data. */
    method GetRequestedData(target: nat, p: Property)
      requires Valid()
      modifies this
      ensures Valid() && View() == GotData(system, old(View()), target, p)
    {
      var format := GetClientFormatById(requestedFormatId);
      if format.None? || format.value.atom != target || p.Unreadable? {
        SendDataResponse(Fail);
        return;
      }
      var hasData, len := false, 0;
      if p.total == 0 && !incrStarts {
        StopIncr();
      } else if p.incr {
        StopIncr();
        incrStarts, hasData := true, true;
      } else {
        len := incrDataLength;
        if p.total == 0 {
          StopIncr();
          hasData := true;
        } else if p.batch.Some? {
          Append(p.batch.value);
          hasData, len := true, incrDataLength;
        }
      }
      ProcessRequestedData(hasData, len);
    }

    /** What xf_cliprdr_send_format_list does to a pending request and a running transfer. */
    method SendFormatList()
      requires Valid()
      modifies this
      ensures Valid() && View() == OnPoll(old(View()), isImageContent, true) && isImageContent == old(isImageContent)
    {
      SendDataResponse(Fail);
      StopIncr();
    }

    method Accept(id: Uint32)
      requires Valid()
      modifies this`requestedFormatId, this`counts
      ensures Valid() && View() == Accepted(old(View()), id)
    {
      counts := (counts.0 + 1, counts.1 + (if requestedFormatId != NO_REQUEST then 1 else 0),
                 counts.2 + (if id == NO_REQUEST then 1 else 0));
      requestedFormatId := id;
    }

    /** xf_cliprdr_server_format_data_request. */
    method ServerFormatDataRequest(raw: bool, id: Uint32) returns (asked: Option<ClientFormat>)
      requires Valid()
      modifies this
      ensures Valid() && View() == OnRequest(system, old(View()), raw, id)
      ensures asked == FormatById(system, isImageContent, if raw then CF_RAW else id)
    {
      var wanted := if raw then CF_RAW else id;
      asked := GetClientFormatById(wanted);
      Accept(wanted);
      if asked.None? { SendDataResponse(Fail); }
    }
  }
}
