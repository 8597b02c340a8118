/**
 Pasting from the server in the Wayland client, client/Wayland/wlf_cliprdr.c. An
 application asks for a MIME type; the client queues the request and sends it while
 it holds the clipboard lock, and a reply, which names no request, goes to the
 oldest queued one. The replies are dequeued without the lock.
 */
module WaylandPaste {
  import opened WinprStream
  import opened RingQueue
  import opened ClipboardFormats

  // ---- Which format a MIME type asks for ---------------------------------

  const MIME_TEXT := ["text/plain", "text/plain;charset=utf-8", "UTF8_STRING", "COMPOUND_TEXT", "TEXT", "STRING"]
  const MIME_TIFF := "image/tiff"
  const MIME_IMAGE := ["image/png", "image/webp", "image/jpeg", "image/tiff", "image/bmp", "image/x-bmp",
                       "image/x-MS-bmp", "image/x-win-bitmap"]
  const MIME_FILE := ["text/uri-list", "x-special/gnome-copied-files", "x-special/mate-copied-files"]
  const MIME_HTML := "text/html"

  function FormatId(formats: seq<Format<string>>, name: string): (id: Uint32)
  {
    if formats == [] then 0
    else if formats[0].name == Some(name) then formats[0].id
    else FormatId(formats[1..], name)
  }

  function FormatName(formats: seq<Format<string>>, id: nat): (name: Option<string>)
  {
    if formats == [] then None
    else if formats[0].id == id then formats[0].name
    else FormatName(formats[1..], id)
  }

  /** What is asked of the server for one paste. */
  datatype Wanted = Wanted(mime: string, format: nat)

  function WantedFor(formats: seq<Format<string>>, mime: string): (w: Option<Wanted>)
  {
    if mime == MIME_HTML then Some(Wanted(MIME_HTML, FormatId(formats, HTML_FORMAT)))
    else if mime in MIME_FILE then Some(Wanted(mime, FormatId(formats, FILE_GROUP)))
    else if mime in MIME_TEXT then Some(Wanted("text/plain", CF_UNICODETEXT))
    else if mime in MIME_IMAGE then Some(Wanted(mime, if mime == MIME_TIFF then CF_TIFF else CF_DIB))
    else None
  }

  /** How a reply is turned into what was asked for: not at all, from a standard format, or from a named one. */
  datatype Source = Raw | Standard(id: nat) | Named(name: string)

  function SourceOf(formats: seq<Format<string>>, format: nat): (s: Source)
  {
    if IsStandard(format) then Standard(format)
    else match FormatName(formats, format)
      case Some(name) => if name == FILE_GROUP || name == HTML_FORMAT then Named(name) else Raw
      case None => Raw
  }

  predicate IsStandard(id: nat)
  {
    id in [CF_TEXT, CF_OEMTEXT, CF_UNICODETEXT, CF_DIB, CF_DIBV5]
  }

  predicate Lists(formats: seq<Format<string>>, name: string)
  {
    exists i :: 0 <= i < |formats| && formats[i].name == Some(name)
  }

  /** The first entry of the list with this id. */
  predicate FirstWithId(formats: seq<Format<string>>, id: nat, i: nat)
  {
    i < |formats| && formats[i].id == id && forall j :: 0 <= j < i ==> formats[j].id != id
  }

  /** The first entry with this id has this name. */
  predicate NamedFirst(formats: seq<Format<string>>, id: nat, name: string)
  {
    exists i :: 0 <= i < |formats| && FirstWithId(formats, id, i) && formats[i].name == Some(name)
  }

  lemma FirstBehind(formats: seq<Format<string>>, id: nat, i: nat)
    requires formats != [] && formats[0].id != id
    ensures FirstWithId(formats[1..], id, i) <==> FirstWithId(formats, id, i + 1)
  {
    var rest := formats[1..];
    assert forall j :: 0 <= j < |rest| ==> rest[j] == formats[j + 1];
    assert forall j :: 0 < j < |formats| ==> formats[j] == rest[j - 1];
  }

  lemma {:induction false} NameIsFirst(formats: seq<Format<string>>, id: nat, name: string)
    ensures FormatName(formats, id) == Some(name) <==> NamedFirst(formats, id, name)
    decreases |formats|
  {
    if formats != [] && formats[0].id != id {
      var rest := formats[1..];
      NameIsFirst(rest, id, name);
      if NamedFirst(rest, id, name) {
        var i :| 0 <= i < |rest| && FirstWithId(rest, id, i) && rest[i].name == Some(name);
        FirstBehind(formats, id, i);
        assert formats[i + 1].name == Some(name);
      }
      if NamedFirst(formats, id, name) {
        var i :| 0 <= i < |formats| && FirstWithId(formats, id, i) && formats[i].name == Some(name);
        FirstBehind(formats, id, i - 1);
        assert rest[i - 1].name == Some(name);
      }
    } else if formats != [] {
      assert FirstWithId(formats, id, 0);
    }
  }

  /** The id asked for by name is that of an entry with this name, or 0 without one. */
  lemma {:induction false} IdIsListed(formats: seq<Format<string>>, name: string)
    ensures if Lists(formats, name)
            then exists i :: 0 <= i < |formats| && formats[i] == Format(FormatId(formats, name), Some(name))
            else FormatId(formats, name) == 0
    decreases |formats|
  {
    if formats != [] && formats[0].name != Some(name) {
      var rest := formats[1..];
      IdIsListed(rest, name);
      assert forall i :: 0 <= i < |rest| ==> rest[i] == formats[i + 1];
      assert forall i :: 0 < i < |formats| ==> formats[i] == rest[i - 1];
      if Lists(rest, name) {
        var i :| 0 <= i < |rest| && rest[i] == Format(FormatId(rest, name), Some(name));
        assert formats[i + 1] == Format(FormatId(formats, name), Some(name));
      }
    } else if formats != [] {
      assert formats[0] == Format(FormatId(formats, name), Some(name));
    }
  }

  /** It is the first one with this name. */
  lemma {:induction false} IdOfFirst(formats: seq<Format<string>>, name: string, i: nat)
    requires i < |formats| && formats[i].name == Some(name)
    requires forall j :: 0 <= j < i ==> formats[j].name != Some(name)
    ensures FormatId(formats, name) == formats[i].id
    decreases i
  {
    if i > 0 {
      assert formats[1..][i - 1] == formats[i];
      IdOfFirst(formats[1..], name, i - 1);
    }
  }

  /** Where no id is repeated, an entry with the id is the first one. */
  lemma DistinctIsFirst(formats: seq<Format<string>>, name: string)
    requires DistinctIds(formats) && Lists(formats, name)
    ensures NamedFirst(formats, FormatId(formats, name), name)
  {
    IdIsListed(formats, name);
    var i :| 0 <= i < |formats| && formats[i] == Format(FormatId(formats, name), Some(name));
    assert FirstWithId(formats, FormatId(formats, name), i);
  }

  /** Files or HTML go by this id. */
  predicate Carries(formats: seq<Format<string>>, id: nat, name: string)
  {
    (name == FILE_GROUP || name == HTML_FORMAT) && NamedFirst(formats, id, name)
  }

  /**
   A reply that was not asked for in a standard text or bitmap format is decoded by the name
   that its id has first in the list.
   */
  lemma NamedSource(formats: seq<Format<string>>, id: nat, name: string)
    requires !IsStandard(id)
    ensures SourceOf(formats, id) == Named(name) <==> Carries(formats, id, name)
    ensures SourceOf(formats, id) == Raw <==> !Carries(formats, id, FILE_GROUP) && !Carries(formats, id, HTML_FORMAT)
  {
    NameIsFirst(formats, id, name);
    NameIsFirst(formats, id, FILE_GROUP);
    NameIsFirst(formats, id, HTML_FORMAT);
  }

  /** The server's name for what a MIME type of files or HTML asks for. */
  function NameFor(mime: string): (name: string)
  {
    if mime == MIME_HTML then HTML_FORMAT else FILE_GROUP
  }

  /** A text, HTML, file or image type is asked for, nothing else; text as text/plain, the others as they are. */
  lemma WantedExactly(formats: seq<Format<string>>, mime: string)
    ensures WantedFor(formats, mime).Some?
            <==> mime == MIME_HTML || mime in MIME_FILE || mime in MIME_TEXT || mime in MIME_IMAGE
    ensures WantedFor(formats, mime).Some? ==>
              WantedFor(formats, mime).value.mime == if mime in MIME_TEXT then "text/plain" else mime
  {
    TypesApart(mime);
  }

  lemma TypesApart(mime: string)
    ensures mime in MIME_TEXT ==> mime != MIME_HTML && mime !in MIME_FILE
    ensures mime in MIME_IMAGE ==> mime != MIME_HTML && mime !in MIME_FILE && mime !in MIME_TEXT
    ensures mime in MIME_FILE ==> mime != MIME_HTML
  {
    assert MIME_HTML[5] == 'h' && MIME_HTML[0] == 't';
  }

  /** Only plain text, OEM text, Unicode text and the two bitmap formats are decoded as such. */
  lemma StandardExactly(formats: seq<Format<string>>, id: nat)
    ensures SourceOf(formats, id) == Standard(id) <==> id in {1, 7, 13, 8, 17}
  {
  }

  /**
   With an unchanged list of formats: text is asked for as Unicode text and bitmaps as CF_DIB,
   and both are decoded from that. Files and HTML are asked for by the id of the first entry
   with their name, and decoded as what they are exactly when their id is not that of a
   standard text or bitmap format and first stands for them in the list. Where no id is
   repeated, they need only be listed.
   */
  lemma PasteIsDecoded(formats: seq<Format<string>>, mime: string)
    ensures mime in MIME_TEXT ==>
              && WantedFor(formats, mime) == Some(Wanted("text/plain", CF_UNICODETEXT))
              && SourceOf(formats, CF_UNICODETEXT) == Standard(CF_UNICODETEXT)
    ensures mime in MIME_IMAGE && mime != MIME_TIFF ==>
              WantedFor(formats, mime) == Some(Wanted(mime, CF_DIB)) && SourceOf(formats, CF_DIB) == Standard(CF_DIB)
    ensures mime == MIME_HTML || mime in MIME_FILE ==>
              var name := NameFor(mime);
              var id := FormatId(formats, name);
              && WantedFor(formats, mime) == Some(Wanted(mime, id))
              && (SourceOf(formats, id) == Named(name) <==> !IsStandard(id) && Carries(formats, id, name))
              && (DistinctIds(formats) ==> (Carries(formats, id, name) <==> Lists(formats, name)))
  {
    TypesApart(mime);
    var name := NameFor(mime);
    var id := FormatId(formats, name);
    if !IsStandard(id) { NamedSource(formats, id, name); }
    if DistinctIds(formats) && Lists(formats, name) { DistinctIsFirst(formats, name); }
  }

  /**
   An image/tiff paste asks for CF_TIFF and is never decoded from it: the reply is taken as
   raw data, or as files or HTML exactly when the id of CF_TIFF first stands for those.
   */
  lemma TiffIsNotDecoded(formats: seq<Format<string>>, name: string)
    ensures WantedFor(formats, MIME_TIFF) == Some(Wanted(MIME_TIFF, CF_TIFF))
    ensures !SourceOf(formats, CF_TIFF).Standard?
    ensures SourceOf(formats, CF_TIFF) == Named(name) <==> Carries(formats, CF_TIFF, name)
    ensures SourceOf(formats, CF_TIFF) == Raw
            <==> !Carries(formats, CF_TIFF, FILE_GROUP) && !Carries(formats, CF_TIFF, HTML_FORMAT)
  {
    NamedSource(formats, CF_TIFF, name);
    assert MIME_IMAGE[3] == MIME_TIFF;
  }

  /**
   Files or HTML that the server does not list are asked for as format 0, and the reply is
   taken as raw data, or as the other of the two exactly when the id 0 first stands for that.
   */
  lemma UnlistedIsNotDecoded(formats: seq<Format<string>>, mime: string, name: string)
    requires (mime == MIME_HTML || mime in MIME_FILE) && !Lists(formats, NameFor(mime))
    ensures WantedFor(formats, mime) == Some(Wanted(mime, 0))
    ensures SourceOf(formats, 0) == Named(name) <==> Carries(formats, 0, name) && name != NameFor(mime)
    ensures SourceOf(formats, 0) == Raw <==> !Carries(formats, 0, FILE_GROUP) && !Carries(formats, 0, HTML_FORMAT)
  {
    IdIsListed(formats, NameFor(mime));
    NamedSource(formats, 0, name);
  }

  // ---- The protocol ------------------------------------------------------

  datatype Request = Request(file: nat, wanted: Wanted)

  /** A reply on the wire; its origin is what the server answered, which the client cannot see. */
  datatype Reply = Reply(origin: Request, ok: bool, data: seq<Byte>)

  /** A request that was queued, and whether sending it worked. */
  datatype Entry = Entry(request: Request, sent: bool)

  /**
   The client's queue and the request it holds the lock for; the two directions of the
   wire; the server's unanswered requests; the history of finished requests, of the
   requests taken off the queue, and of the replies they were taken for.
   */
  datatype State = State(
    queue: seq<Request>, pending: Option<Request>, outbound: seq<Request>, server: seq<Request>,
    inbound: seq<Reply>, log: seq<Entry>, taken: seq<Request>, replies: seq<Reply>, refused: nat)

  const START := State([], None, [], [], [], [], [], [], 0)

  datatype Event =
    | Begin(request: Request)
    | Sent
    | SendFailed
    | Arrive
    | Answer(ok: bool, data: seq<Byte>)
    | Deliver

  predicate Enabled(s: State, e: Event)
  {
    match e
    case Begin(_) => s.pending.None?
    case Sent => s.pending.Some?
    case SendFailed => s.pending.Some?
    case Arrive => s.outbound != []
    case Answer(_, _) => s.server != []
    case Deliver => s.inbound != []
  }

  function Step(s: State, e: Event): (r: State)
    requires Enabled(s, e)
  {
    match e
    case Begin(q) => s.(queue := s.queue + [q], pending := Some(q))
    case Sent =>
      s.(pending := None, outbound := s.outbound + [s.pending.value], log := s.log + [Entry(s.pending.value, true)])
    case SendFailed => s.(pending := None, log := s.log + [Entry(s.pending.value, false)])
    case Arrive => s.(outbound := s.outbound[1..], server := s.server + [s.outbound[0]])
    case Answer(ok, data) =>
      s.(server := s.server[1..], inbound := s.inbound + [Reply(s.server[0], ok, data)])
    case Deliver =>
      if s.queue == [] then s.(inbound := s.inbound[1..], refused := s.refused + 1)
      else s.(inbound := s.inbound[1..], queue := s.queue[1..],
              taken := s.taken + [s.queue[0]], replies := s.replies + [s.inbound[0]])
  }

  function Requests(log: seq<Entry>): (qs: seq<Request>)
    ensures |qs| == |log|
    ensures forall i :: 0 <= i < |log| ==> qs[i] == log[i].request
  {
    seq(|log|, i requires 0 <= i < |log| => log[i].request)
  }

  /** The requests that reached the wire. */
  function Delivered(log: seq<Entry>): (qs: seq<Request>)
    ensures |qs| <= |log|
  {
    if log == [] then []
    else
      var rest := Delivered(log[..|log| - 1]);
      if log[|log| - 1].sent then rest + [log[|log| - 1].request] else rest
  }

  lemma RequestsAppend(log: seq<Entry>, e: Entry)
    ensures Requests(log + [e]) == Requests(log) + [e.request]
  {
  }

  lemma DeliveredAppend(log: seq<Entry>, e: Entry)
    ensures Delivered(log + [e]) == if e.sent then Delivered(log) + [e.request] else Delivered(log)
  {
    assert (log + [e])[..|log|] == log;
  }

  function Origins(replies: seq<Reply>): (qs: seq<Request>)
    ensures |qs| == |replies|
    ensures forall i :: 0 <= i < |replies| ==> qs[i] == replies[i].origin
  {
    seq(|replies|, i requires 0 <= i < |replies| => replies[i].origin)
  }

  function Queued(s: State): (qs: seq<Request>)
  {
    Requests(s.log) + (if s.pending.Some? then [s.pending.value] else [])
  }

  /**
   The queue holds what was queued and not yet taken, in order; what reached the wire is
   what was answered, then what is being answered, is at the server, or is on its way.
   */
  predicate Inv(s: State)
  {
    && s.refused == 0
    && |s.taken| == |s.replies|
    && s.taken + s.queue == Queued(s)
    && Origins(s.replies) + Origins(s.inbound) + s.server + s.outbound == Delivered(s.log)
  }

  lemma SentKeepsInv(s: State, sent: bool)
    requires Inv(s) && s.pending.Some?
    ensures Inv(Step(s, if sent then Sent else SendFailed))
  {
    var e := Entry(s.pending.value, sent);
    RequestsAppend(s.log, e);
    DeliveredAppend(s.log, e);
    if sent {
      assert Origins(s.replies) + Origins(s.inbound) + s.server + (s.outbound + [e.request])
          == (Origins(s.replies) + Origins(s.inbound) + s.server + s.outbound) + [e.request];
    }
  }

  lemma ArriveKeepsInv(s: State)
    requires Inv(s) && s.outbound != []
    ensures Inv(Step(s, Arrive))
  {
    assert s.server + s.outbound == (s.server + [s.outbound[0]]) + s.outbound[1..];
    assert Origins(s.replies) + Origins(s.inbound) + s.server + s.outbound
        == Origins(s.replies) + Origins(s.inbound) + (s.server + s.outbound);
  }

  lemma AnswerKeepsInv(s: State, ok: bool, data: seq<Byte>)
    requires Inv(s) && s.server != []
    ensures Inv(Step(s, Answer(ok, data)))
  {
    var inbound := s.inbound + [Reply(s.server[0], ok, data)];
    assert Origins(inbound) == Origins(s.inbound) + [s.server[0]];
    assert Origins(s.replies) + Origins(inbound) + s.server[1..]
        == Origins(s.replies) + Origins(s.inbound) + s.server;
  }

  lemma DeliverKeepsInv(s: State)
    requires Inv(s) && s.inbound != []
    ensures Inv(Step(s, Deliver)) && s.queue != []
  {
    assert |Origins(s.replies) + Origins(s.inbound) + s.server + s.outbound| >= |s.replies| + 1;
    assert |Delivered(s.log)| <= |s.log|;
    assert |s.taken + s.queue| == |s.taken| + |s.queue|;
    assert (s.taken + [s.queue[0]]) + s.queue[1..] == s.taken + s.queue;
    assert Origins(s.replies + [s.inbound[0]]) + Origins(s.inbound[1..]) == Origins(s.replies) + Origins(s.inbound);
  }

  lemma StepKeepsInv(s: State, e: Event)
    requires Inv(s) && Enabled(s, e)
    ensures Inv(Step(s, e))
  {
    match e
    case Begin(q) => assert s.taken + (s.queue + [q]) == (s.taken + s.queue) + [q];
    case Sent => SentKeepsInv(s, true);
    case SendFailed => SentKeepsInv(s, false);
    case Arrive => ArriveKeepsInv(s);
    case Answer(ok, data) => AnswerKeepsInv(s, ok, data);
    case Deliver => DeliverKeepsInv(s);
  }

  predicate Runs(s: State, es: seq<Event>)
    decreases |es|
  {
    es == [] || (Enabled(s, es[0]) && Runs(Step(s, es[0]), es[1..]))
  }

  function After(s: State, es: seq<Event>): (r: State)
    requires Runs(s, es)
    decreases |es|
  {
    if es == [] then s else After(Step(s, es[0]), es[1..])
  }

  lemma {:induction false} RunKeepsInv(s: State, es: seq<Event>)
    requires Inv(s) && Runs(s, es)
    ensures Inv(After(s, es))
    decreases |es|
  {
    if es != [] {
      StepKeepsInv(s, es[0]);
      RunKeepsInv(Step(s, es[0]), es[1..]);
    }
  }

  // ---- Every reply goes to its own request -------------------------------

  predicate AllSent(log: seq<Entry>)
  {
    forall i :: 0 <= i < |log| ==> log[i].sent
  }

  lemma {:induction false} AllDelivered(log: seq<Entry>)
    ensures |Delivered(log)| == |log| <==> AllSent(log)
  {
    if log != [] {
      var init := log[..|log| - 1];
      AllDelivered(init);
      assert AllSent(log) <==> AllSent(init) && log[|log| - 1].sent;
    }
  }

  /** Where the k-th request on the wire was queued: at k exactly when no earlier send failed. */
  lemma {:induction false} DeliveredAt(log: seq<Entry>, k: nat) returns (m: nat)
    requires k < |Delivered(log)|
    ensures k <= m < |log| && Delivered(log)[k] == log[m].request
    ensures m == k <==> AllSent(log[..k + 1])
  {
    var init := log[..|log| - 1];
    if k < |Delivered(init)| {
      m := DeliveredAt(init, k);
      assert init[..k + 1] == log[..k + 1];
    } else {
      m := |log| - 1;
      AllDelivered(init);
      if m == k {
        assert log[..k + 1] == log;
        assert log == init + [log[m]];
      } else {
        FailedWithin(log, k);
      }
    }
  }

  /** The last request queued is the k-th on the wire although more were queued: one of the first failed. */
  lemma FailedWithin(log: seq<Entry>, k: nat)
    requires log != [] && k < |log| - 1 && |Delivered(log[..|log| - 1])| == k
    ensures !AllSent(log[..k + 1])
  {
    var init := log[..|log| - 1];
    assert init[..k + 1] == log[..k + 1];
    AllDelivered(log[..k + 1]);
    DeliveredGrows(init, k + 1);
  }

  lemma {:induction false} DeliveredGrows(log: seq<Entry>, n: nat)
    requires n <= |log|
    ensures |Delivered(log[..n])| <= |Delivered(log)|
  {
    if n < |log| {
      DeliveredGrows(log[..|log| - 1], n);
      assert log[..|log| - 1][..n] == log[..n];
    } else {
      assert log[..n] == log;
    }
  }

  predicate Distinct(qs: seq<Request>)
  {
    forall i, j :: 0 <= i < j < |qs| ==> qs[i] != qs[j]
  }

  /**
   In every interleaving of the two sides, no reply is refused, and the k-th reply is
   handled with the request it answers exactly when none of the requests queued up to
   and including the k-th failed to be sent.
   */
  lemma RepliesMatch(es: seq<Event>, k: nat)
    requires Runs(START, es)
    requires k < |After(START, es).replies|
    requires Distinct(Queued(After(START, es)))
    ensures var s := After(START, es);
            && s.refused == 0 && |s.taken| == |s.replies| && k < |s.log|
            && (s.taken[k] == s.replies[k].origin <==> AllSent(s.log[..k + 1]))
  {
    RunKeepsInv(START, es);
    var s := After(START, es);
    var wire := Origins(s.replies) + Origins(s.inbound) + s.server + s.outbound;
    assert wire[k] == s.replies[k].origin;
    var m := DeliveredAt(s.log, k);
    assert (s.taken + s.queue)[k] == s.taken[k];
    assert Queued(s)[k] == s.log[k].request && Queued(s)[m] == s.log[m].request;
  }

  /** A failed send does shift the replies: here the reply to the second request is handled with the first. */
  lemma FailedSendShifts(a: Request, b: Request, ok: bool, data: seq<Byte>)
    requires a != b
    ensures var es := [Begin(a), SendFailed, Begin(b), Sent, Arrive, Answer(ok, data), Deliver];
            && Runs(START, es)
            && var s := After(START, es);
               |s.taken| == |s.replies| == 1 && s.taken[0] == a && s.replies[0].origin == b
  {
    var s1 := Step(START, Begin(a));
    var s2 := Step(s1, SendFailed);
    var s3 := Step(s2, Begin(b));
    var s4 := Step(s3, Sent);
    var s5 := Step(s4, Arrive);
    var s6 := Step(s5, Answer(ok, data));
    var s7 := Step(s6, Deliver);
    assert After(s7, []) == s7;
    RunFrom(s6, Deliver, []);
    RunFrom(s5, Answer(ok, data), [Deliver]);
    RunFrom(s4, Arrive, [Answer(ok, data), Deliver]);
    RunFrom(s3, Sent, [Arrive, Answer(ok, data), Deliver]);
    RunFrom(s2, Begin(b), [Sent, Arrive, Answer(ok, data), Deliver]);
    RunFrom(s1, SendFailed, [Begin(b), Sent, Arrive, Answer(ok, data), Deliver]);
    RunFrom(START, Begin(a), [SendFailed, Begin(b), Sent, Arrive, Answer(ok, data), Deliver]);
  }

  lemma RunFrom(s: State, e: Event, es: seq<Event>)
    requires Enabled(s, e) && Runs(Step(s, e), es)
    ensures Runs(s, [e] + es) && After(s, [e] + es) == After(Step(s, e), es)
  {
    assert ([e] + es)[1..] == es;
  }

  /**
   What is queued while sends work: the replies on their way, the server's, those on the way
   there, the one being sent.
   */
  lemma QueueIsInFlight(es: seq<Event>)
    requires Runs(START, es) && AllSent(After(START, es).log)
    ensures var s := After(START, es);
            s.queue == Origins(s.inbound) + s.server + s.outbound + (if s.pending.Some? then [s.pending.value] else [])
  {
    RunKeepsInv(START, es);
    var s := After(START, es);
    var last := if s.pending.Some? then [s.pending.value] else [];
    DeliveredIsLog(s.log);
    var flight := Origins(s.inbound) + s.server + s.outbound;
    assert Origins(s.replies) + flight == Delivered(s.log);
    assert s.taken + s.queue == Origins(s.replies) + (flight + last);
    assert s.queue == (s.taken + s.queue)[|s.taken|..];
    assert flight + last == (Origins(s.replies) + (flight + last))[|s.replies|..];
  }

  lemma {:induction false} DeliveredIsLog(log: seq<Entry>)
    requires AllSent(log)
    ensures Delivered(log) == Requests(log)
  {
    if log != [] {
      DeliveredIsLog(log[..|log| - 1]);
      RequestsAppend(log[..|log| - 1], log[|log| - 1]);
      assert log[..|log| - 1] + [log[|log| - 1]] == log;
    }
  }

  // ---- The client --------------------------------------------------------

  /** ClipboardSetData followed by ClipboardGetData, kept abstract: source, target MIME type (if converted), data. */
  type Converter = (Source, string, seq<Byte>) -> Option<seq<Byte>>

  datatype Output = Output(file: nat, data: seq<Byte>)

  /** A request queued and sent, or not sent, under the lock. */
  function Transferred(s: State, request: Request, ok: bool): (t: State)
    requires s.pending.None?
  {
    Step(Step(s, Begin(request)), if ok then Sent else SendFailed)
  }

  const NO_REQUEST := Request(0, Wanted("", 0))

  class Clipboard {
    const requests: Queue<Request>
    var serverFormats: seq<Format<string>>
    /** The format ids of the requests sent, and what was written to the files. */
    var wire: seq<nat>
    var outputs: seq<Output>

    ghost predicate Valid()
      reads this, requests
    {
      requests.Valid()
    }

    constructor ()
      ensures Valid() && fresh(requests) && fresh(requests.items)
      ensures requests.Contents() == [] && wire == [] && outputs == [] && serverFormats == []
    {
      requests := new Queue<Request>(NO_REQUEST);
      serverFormats, wire, outputs := [], [], [];
    }

    /** wlf_cliprdr_send_data_request: the request stays queued even if it cannot be sent. */
    method SendDataRequest(request: Request, ok: bool, ghost s: State) returns (ghost t: State)
      requires Valid() && s.pending.None? && s.queue == requests.Contents()
      modifies this`wire, requests, requests.items
      ensures Valid() && (requests.items == old(requests.items) || fresh(requests.items))
      ensures requests.Contents() == old(requests.Contents()) + [request]
      ensures wire == if ok then old(wire) + [request.wanted.format] else old(wire)
      ensures t == Transferred(s, request, ok) && t.queue == requests.Contents()
    {
      t := Transferred(s, request, ok);
      requests.Enqueue(request, NO_REQUEST);
      if ok { wire := wire + [request.wanted.format]; }
    }

    /** wlf_cliprdr_transfer_data; `usable` says whether the file could be opened. */
    method TransferData(mime: string, file: nat, usable: bool, ok: bool, ghost s: State) returns (ghost t: State)
      requires Valid() && s.pending.None? && s.queue == requests.Contents()
      modifies this`wire, requests, requests.items
      ensures Valid() && (requests.items == old(requests.items) || fresh(requests.items))
      ensures var w := WantedFor(serverFormats, mime);
              if w.Some? && usable then
                && requests.Contents() == old(requests.Contents()) + [Request(file, w.value)]
                && wire == old(wire) + (if ok then [w.value.format] else [])
                && t == Transferred(s, Request(file, w.value), ok)
              else
                && requests.Contents() == old(requests.Contents())
                && wire == old(wire) && t == s
      ensures t.queue == requests.Contents()
    {
      t := s;
      var wanted: Option<Wanted> := None;
      if mime == MIME_HTML {
        wanted := Some(Wanted(MIME_HTML, FormatId(serverFormats, HTML_FORMAT)));
      } else if mime in MIME_FILE {
        wanted := Some(Wanted(mime, FormatId(serverFormats, FILE_GROUP)));
      } else if mime in MIME_TEXT {
        wanted := Some(Wanted("text/plain", CF_UNICODETEXT));
      } else if mime in MIME_IMAGE {
        if mime == MIME_TIFF {
          wanted := Some(Wanted(mime, CF_TIFF));
        } else {
          wanted := Some(Wanted(mime, CF_DIB));
        }
      }
      if wanted.Some? && usable {
        t := SendDataRequest(Request(file, wanted.value), ok, s);
      }
    }

    /** wlf_cliprdr_server_format_data_response. */
    method FormatDataResponse(ok: bool, data: seq<Byte>, convert: Converter, ghost s: State)
      returns (accepted: bool, ghost t: State)
      requires Valid() && s.queue == requests.Contents()
      requires s.inbound != [] && s.inbound[0].ok == ok && s.inbound[0].data == data
      modifies this`outputs, requests`head, requests`size, requests.items
      ensures Valid()
      ensures var queued := old(requests.Contents());
              if queued == [] then !accepted && requests.Contents() == [] && outputs == old(outputs)
              else
                && requests.Contents() == queued[1..]
                && var w := queued[0].wanted;
                   var out := if ok then convert(SourceOf(serverFormats, w.format), w.mime, data) else None;
                   && outputs == old(outputs) + (if out.Some? then [Output(queued[0].file, out.value)] else [])
                   && accepted == (!ok || out.Some?)
      ensures t == Step(s, Deliver) && t.queue == requests.Contents()
    {
      t := Step(s, Deliver);
      var request := requests.Dequeue(NO_REQUEST);
      if request == None { return false, t; }
      if !ok { return true, t; }
      var wanted := request.value.wanted;
      var out := convert(SourceOf(serverFormats, wanted.format), wanted.mime, data);
      if out.None? { return false, t; }
      outputs := outputs + [Output(request.value.file, out.value)];
      return true, t;
    }
  }
}
