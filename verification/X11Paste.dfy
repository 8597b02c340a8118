/**
 Pasting from the server in the X11 client, client/X11/xf_cliprdr.c: selection
 requests of local applications are answered from two caches or held back while one
 format data request is at the server, and a new server format list forgets it all.
 */
module X11Paste {
  import opened WinprStream
  import opened ClipboardFormats

  datatype Name = Html | FileGroup | Other(text: string)

  /** What a target atom stands for: the remote format, the local format it becomes, the name it goes by. */
  datatype Target = Target(remote: Uint32, local: Uint32, name: Option<Name>)

  /**
   The wClipboard: the formats it accepts data in, its conversions, and the ids it has
   registered for "HTML Format", text/html and "FileGroupDescriptorW".
   */
  datatype System = System(
    known: Uint32 -> bool, get: (Uint32, Uint32, seq<Byte>) -> Option<seq<Byte>>,
    html: Uint32, mimeHtml: Uint32, fileGroup: Uint32)

  /** From which format to which a reply is converted, and whether the result ends at its first zero byte. */
  datatype Route = Route(src: Uint32, dst: Uint32, terminated: bool)

  function Converted(sys: System, route: Route, data: seq<Byte>): (r: Option<seq<Byte>>)
  {
    if !sys.known(route.src) then None
    else match sys.get(route.src, route.dst, data)
      case None => None
      case Some(d) => Some(if route.terminated then d[..Length(d)] else d)
  }

  predicate IsText(format: Uint32)
  {
    format == CF_TEXT || format == CF_OEMTEXT || format == CF_UNICODETEXT
  }

  /** The route a selection request looks for in the caches. */
  function RouteOfTarget(sys: System, t: Target): (r: Route)
  {
    match t.name
    case None => Route(t.remote, t.local, IsText(t.remote))
    case Some(Html) => Route(sys.html, sys.mimeHtml, true)
    case Some(FileGroup) => Route(sys.fileGroup, t.local, true)
    case Some(Other(_)) => Route(CF_RAW, CF_RAW, false)
  }

  /** The format noted when a request is sent, and the route its reply takes. */
  datatype Requested = Requested(local: Uint32, remote: Uint32, name: Option<Name>)

  function RouteOfReply(sys: System, q: Requested, target: Target): (r: Route)
  {
    match q.name
    case None => Route(q.remote, q.local, IsText(q.remote))
    case Some(Html) => Route(sys.html, sys.mimeHtml, true)
    case Some(FileGroup) => Route(sys.fileGroup, target.local, true)
    case Some(Other(_)) => Route(CF_RAW, q.local, false)
  }

  // ---- State -------------------------------------------------------------

  /** A selection request that waits for the server. */
  datatype Pending = Pending(id: nat, target: Target, property: bool)

  /** What a requestor is told: no, something about the selection itself, or data. */
  datatype Answer = Refused | About | Data(data: seq<Byte>)

  datatype Notice = Notice(id: nat, answer: Answer)

  /** A requestor that names no property gets nothing, and is told so as if it were refused. */
  function Shown(property: bool, a: Answer): (r: Answer)
  {
    if property then a else Refused
  }

  /** Data received for a format, and where a cached conversion came from. */
  datatype Received = Received(src: Uint32, data: seq<Byte>)
  datatype Origin = Origin(route: Route, data: seq<Byte>)

  /**
   The two caches, by hash table key, and their history since they were last cleared:
   the data received, and where each cached conversion came from.
   */
  datatype Caches = Caches(
    cached: map<nat, seq<Byte>>, cachedRaw: map<nat, seq<Byte>>,
    received: seq<Received>, origins: map<nat, Origin>)

  /** The requests accepted, answered and dropped so far, the answers, and the formats asked of the server. */
  datatype Ledger = Ledger(
    asked: seq<nat>, answered: seq<nat>, dropped: seq<nat>, notices: seq<Notice>, wire: seq<Uint32>)

  datatype Paste = Paste(
    respond: Option<Pending>, requested: Option<Requested>, raw: bool, caches: Caches, ledger: Ledger)

  const EMPTY := Caches(map[], map[], [], map[])
  const START := Paste(None, None, false, EMPTY, Ledger([], [], [], [], []))

  // ---- The caches --------------------------------------------------------

  function Slot(format: Uint32): (k: nat)
  {
    0x1_0000_0000 + format as int
  }

  function Stored(c: Caches, route: Route, data: seq<Byte>, result: seq<Byte>): (r: Caches)
  {
    c.(cached := c.cached[Slot(route.dst) := result], origins := c.origins[Slot(route.dst) := Origin(route, data)])
  }

  /** The raw cache takes no entry for format 0, whose key would be the null pointer. */
  function StoredRaw(c: Caches, src: Uint32, data: seq<Byte>): (r: Caches)
  {
    c.(cachedRaw := if src == 0 then c.cachedRaw else c.cachedRaw[src as int := data],
       received := c.received + [Received(src, data)])
  }

  /** What a reply leaves in the caches: its conversion, if there is one, and the data itself. */
  function StoredReply(sys: System, c: Caches, route: Route, data: seq<Byte>): (r: Caches)
  {
    var made := Converted(sys, route, data);
    StoredRaw(if made.Some? then Stored(c, route, data, made.value) else c, route.src, data)
  }

  /** The conversion at a key is one of data received since the caches were last cleared. */
  predicate Fresh(sys: System, c: Caches, k: nat)
    requires k in c.cached && k in c.origins
  {
    var o := c.origins[k];
    && k == Slot(o.route.dst)
    && Converted(sys, o.route, o.data) == Some(c.cached[k])
    && Received(o.route.src, o.data) in c.received
  }

  predicate CachesFresh(sys: System, c: Caches)
  {
    && c.cached.Keys == c.origins.Keys
    && (forall k :: k in c.cached ==> Fresh(sys, c, k))
    && (forall k :: k in c.cachedRaw ==> 0 < k < 0x1_0000_0000)
    && (forall k :: k in c.cachedRaw ==> Received(k, c.cachedRaw[k]) in c.received)
  }

  lemma StoredKeepsFresh(sys: System, c: Caches, route: Route, data: seq<Byte>, result: seq<Byte>)
    requires CachesFresh(sys, c)
    requires Received(route.src, data) in c.received && Converted(sys, route, data) == Some(result)
    ensures CachesFresh(sys, Stored(c, route, data, result))
  {
    var r := Stored(c, route, data, result);
    forall k | k in r.cached ensures Fresh(sys, r, k) {
      if k != Slot(route.dst) { assert Fresh(sys, c, k); }
    }
  }

  lemma StoredRawKeepsFresh(sys: System, c: Caches, src: Uint32, data: seq<Byte>)
    requires CachesFresh(sys, c)
    ensures CachesFresh(sys, StoredRaw(c, src, data)) && Received(src, data) in StoredRaw(c, src, data).received
  {
    var r := StoredRaw(c, src, data);
    forall k | k in r.cached ensures Fresh(sys, r, k) {
      assert Fresh(sys, c, k);
    }
  }

  lemma StoredReplyKeepsFresh(sys: System, c: Caches, route: Route, data: seq<Byte>)
    requires CachesFresh(sys, c)
    ensures CachesFresh(sys, StoredReply(sys, c, route, data))
  {
    var made := Converted(sys, route, data);
    StoredRawKeepsFresh(sys, c, route.src, data);
    if made.Some? {
      StoredKeepsFresh(sys, StoredRaw(c, route.src, data), route, data, made.value);
    }
  }

  // ---- Steps -------------------------------------------------------------

  /**
   A request for data: whether the selection asked for is the client's and the requestor
   the client itself; the format announced for the target, if there is one; the id a raw
   requestor names; and whether there is a property to put the data in.
   */
  datatype Query = Query(
    ours: bool, own: bool, server: Option<Uint32>, target: Target, rawId: Option<Uint32>, property: bool)

  datatype Event =
    | Meta(id: nat, property: bool)          // TIMESTAMP or TARGETS
    | Request(id: nat, query: Query, sends: bool)
    | Reply(fail: bool, data: seq<Byte>)
    | FormatList                             // from the server
    | Announced                              // to the server, which clears the caches too

  // `sends` says whether a data request that the client makes reaches the server. The client does not look.

  predicate IsRaw(q: Query)
  {
    q.server == Some(CF_RAW) && q.rawId.Some?
  }

  function FormatId(q: Query): (f: Uint32)
    requires q.server.Some?
  {
    if IsRaw(q) then q.rawId.value else q.server.value
  }

  /** The cached answer to a request. */
  function Hit(sys: System, c: Caches, q: Query): (d: Option<seq<Byte>>)
    requires q.server.Some?
  {
    var key := if IsRaw(q) then Slot(FormatId(q)) else Slot(RouteOfTarget(sys, q.target).dst);
    var cache := if IsRaw(q) then c.cachedRaw else c.cached;
    if key in cache then Some(cache[key]) else None
  }

  /** Data received earlier that a request can be answered from by converting it now. */
  function Convertible(sys: System, c: Caches, q: Query): (d: Option<seq<Byte>>)
  {
    var src := RouteOfTarget(sys, q.target).src as int;
    if !IsRaw(q) && src in c.cachedRaw && c.cachedRaw[src] != [] then Some(c.cachedRaw[src]) else None
  }

  /** The caches after a request was looked up, and the data found for it. */
  function LookedUp(sys: System, c: Caches, q: Query): (r: (Caches, Option<seq<Byte>>))
    requires q.server.Some?
  {
    var hit := Hit(sys, c, q);
    if hit.Some? then (c, hit)
    else
      var route := RouteOfTarget(sys, q.target);
      var source := Convertible(sys, c, q);
      var made := if source.Some? then Converted(sys, route, source.value) else None;
      if made.Some? then (Stored(c, route, source.value, made.value), made) else (c, None)
  }

  function Asked(s: Paste, id: nat): (r: Paste)
  {
    s.(ledger := s.ledger.(asked := s.ledger.asked + [id]))
  }

  function Noted(s: Paste, id: nat, a: Answer): (r: Paste)
  {
    s.(ledger := s.ledger.(answered := s.ledger.answered + [id], notices := s.ledger.notices + [Notice(id, a)]))
  }

  /** The pending request, if any, is forgotten without an answer. */
  function Dropped(s: Paste): (r: Paste)
  {
    match s.respond
    case None => s
    case Some(p) => s.(respond := None, ledger := s.ledger.(dropped := s.ledger.dropped + [p.id]))
  }

  function Sent(sys: System, s: Paste, id: nat, q: Query): (r: Paste)
    requires q.server.Some?
  {
    s.(respond := Some(Pending(id, q.target, q.property)), raw := IsRaw(q),
       requested := Some(Requested(RouteOfTarget(sys, q.target).dst, FormatId(q), q.target.name)),
       ledger := s.ledger.(wire := s.ledger.wire + [FormatId(q)]))
  }

  function OnRequest(sys: System, s: Paste, id: nat, q: Query): (r: Paste)
  {
    if q.ours then OnOurs(sys, Asked(s, id), id, q) else s
  }

  function OnOurs(sys: System, s: Paste, id: nat, q: Query): (r: Paste)
  {
    if q.server.None? || q.own then Noted(s, id, Refused)
    else
      var (caches, found) := LookedUp(sys, s.caches, q);
      if found.Some? then Noted(s.(caches := caches), id, Shown(q.property, Data(found.value)))
      else if s.respond.Some? then Noted(s, id, Refused)
      else Sent(sys, s, id, q)
  }

  function PendingRoute(sys: System, s: Paste): (r: Route)
    requires s.respond.Some? && (s.raw || s.requested.Some?)
  {
    if s.raw then Route(CF_RAW, CF_RAW, false) else RouteOfReply(sys, s.requested.value, s.respond.value.target)
  }

  /** A reply with data for the pending request; data that cannot be converted is answered with none. */
  function OnData(sys: System, s: Paste, data: seq<Byte>): (r: Paste)
    requires s.respond.Some? && (s.raw || s.requested.Some?)
  {
    var route := PendingRoute(sys, s);
    var made := Converted(sys, route, data);
    if sys.known(route.src) && data == [] then Dropped(s)
    else Noted(s.(respond := None, caches := StoredReply(sys, s.caches, route, data)),
               s.respond.value.id, Shown(s.respond.value.property, Data(if made.Some? then made.value else [])))
  }

  function OnReply(sys: System, s: Paste, fail: bool, data: seq<Byte>): (r: Paste)
  {
    if fail then Dropped(s)
    else if s.respond.None? || (s.requested.None? && !s.raw) then s
    else OnData(sys, s, data)
  }

  function OnFormatList(s: Paste): (r: Paste)
  {
    Cleared(Dropped(s)).(requested := None)
  }

  /** xf_cliprdr_clear_cached_data. */
  function Cleared(s: Paste): (r: Paste)
  {
    s.(caches := EMPTY)
  }

  function Step(sys: System, s: Paste, e: Event): (r: Paste)
  {
    match e
    case Meta(id, property) => Noted(Asked(s, id), id, Shown(property, About))
    case Request(id, q, _) => OnRequest(sys, s, id, q)
    case Reply(fail, data) => OnReply(sys, s, fail, data)
    case FormatList => OnFormatList(s)
    case Announced => Cleared(s)
  }

  function Run(sys: System, s: Paste, es: seq<Event>): (r: Paste)
    decreases |es|
  {
    if es == [] then s else Run(sys, Step(sys, s, es[0]), es[1..])
  }

  // ---- What every run keeps ----------------------------------------------

  function Waiting(s: Paste): (m: multiset<nat>)
  {
    if s.respond.Some? then multiset{s.respond.value.id} else multiset{}
  }

  function Answers(notices: seq<Notice>): (ids: seq<nat>)
    ensures |ids| == |notices|
    ensures forall i :: 0 <= i < |notices| ==> ids[i] == notices[i].id
  {
    seq(|notices|, i requires 0 <= i < |notices| => notices[i].id)
  }

  /** Every accepted request is answered once, dropped once, or the one that waits. */
  predicate Balanced(s: Paste)
  {
    && multiset(s.ledger.asked) == multiset(s.ledger.answered) + multiset(s.ledger.dropped) + Waiting(s)
    && s.ledger.answered == Answers(s.ledger.notices)
  }

  predicate Inv(sys: System, s: Paste)
  {
    && (s.respond.Some? ==> s.requested.Some?)
    && CachesFresh(sys, s.caches)
    && Balanced(s)
  }

  lemma NotedAsked(s: Paste, id: nat, a: Answer)
    requires Balanced(s)
    ensures Balanced(Noted(Asked(s, id), id, a))
  {
    assert Answers(s.ledger.notices + [Notice(id, a)]) == Answers(s.ledger.notices) + [id];
  }

  lemma NotedWaiting(s: Paste, a: Answer)
    requires Balanced(s) && s.respond.Some?
    ensures Balanced(Noted(s.(respond := None), s.respond.value.id, a))
  {
    var id := s.respond.value.id;
    assert Answers(s.ledger.notices + [Notice(id, a)]) == Answers(s.ledger.notices) + [id];
  }

  lemma DroppedBalanced(s: Paste)
    requires Balanced(s)
    ensures Balanced(Dropped(s)) && Dropped(s).respond.None?
  {
  }

  lemma LookedUpKeepsFresh(sys: System, c: Caches, q: Query)
    requires CachesFresh(sys, c) && q.server.Some?
    ensures CachesFresh(sys, LookedUp(sys, c, q).0)
  {
    var route := RouteOfTarget(sys, q.target);
    var source := Convertible(sys, c, q);
    if Hit(sys, c, q).None? && source.Some? && Converted(sys, route, source.value).Some? {
      StoredKeepsFresh(sys, c, route, source.value, Converted(sys, route, source.value).value);
    }
  }

  lemma RequestKeepsInv(sys: System, s: Paste, id: nat, q: Query)
    requires Inv(sys, s)
    ensures Inv(sys, OnRequest(sys, s, id, q))
  {
    if !q.ours {
    } else if q.server.None? || q.own {
      NotedAsked(s, id, Refused);
    } else {
      LookedUpKeepsFresh(sys, s.caches, q);
      var (caches, found) := LookedUp(sys, s.caches, q);
      if found.Some? {
        NotedAsked(s.(caches := caches), id, Shown(q.property, Data(found.value)));
      } else if s.respond.Some? {
        NotedAsked(s, id, Refused);
      }
    }
  }

  lemma DataKeepsInv(sys: System, s: Paste, data: seq<Byte>)
    requires Inv(sys, s) && s.respond.Some?
    ensures Inv(sys, OnData(sys, s, data))
  {
    var route := PendingRoute(sys, s);
    if sys.known(route.src) && data == [] {
      DroppedBalanced(s);
    } else {
      var made := Converted(sys, route, data);
      var caches := StoredReply(sys, s.caches, route, data);
      StoredReplyKeepsFresh(sys, s.caches, route, data);
      AnsweredKeepsInv(sys, s, caches,
                       Shown(s.respond.value.property, Data(if made.Some? then made.value else [])));
    }
  }

  lemma AnsweredKeepsInv(sys: System, s: Paste, caches: Caches, a: Answer)
    requires Inv(sys, s) && s.respond.Some? && CachesFresh(sys, caches)
    ensures Inv(sys, Noted(s.(respond := None, caches := caches), s.respond.value.id, a))
  {
    NotedWaiting(s.(caches := caches), a);
  }

  lemma ReplyKeepsInv(sys: System, s: Paste, fail: bool, data: seq<Byte>)
    requires Inv(sys, s)
    ensures Inv(sys, OnReply(sys, s, fail, data))
  {
    if fail {
      DroppedBalanced(s);
    } else if s.respond.Some? {
      DataKeepsInv(sys, s, data);
    }
  }

  lemma FormatListKeepsInv(sys: System, s: Paste)
    requires Inv(sys, s)
    ensures Inv(sys, OnFormatList(s))
  {
    DroppedBalanced(s);
  }

  lemma StepKeepsInv(sys: System, s: Paste, e: Event)
    requires Inv(sys, s)
    ensures Inv(sys, Step(sys, s, e))
  {
    match e
    case Meta(id, property) => NotedAsked(s, id, Shown(property, About));
    case Request(id, q, _) => RequestKeepsInv(sys, s, id, q);
    case Reply(fail, data) => ReplyKeepsInv(sys, s, fail, data);
    case FormatList => FormatListKeepsInv(sys, s);
    case Announced =>
  }

  lemma {:induction false} RunKeepsInv(sys: System, s: Paste, es: seq<Event>)
    requires Inv(sys, s)
    ensures Inv(sys, Run(sys, s, es))
    decreases |es|
  {
    if es != [] {
      StepKeepsInv(sys, s, es[0]);
      RunKeepsInv(sys, Step(sys, s, es[0]), es[1..]);
    }
  }

  /** With distinct requests, none is answered twice, and neither a waiting nor a dropped one is ever answered. */
  lemma AnsweredAtMostOnce(sys: System, es: seq<Event>, id: nat)
    requires multiset(Run(sys, START, es).ledger.asked)[id] <= 1
    ensures var s := Run(sys, START, es);
            && multiset(Answers(s.ledger.notices))[id] <= 1
            && (id in s.ledger.dropped || (s.respond.Some? && s.respond.value.id == id) ==>
                  id !in Answers(s.ledger.notices))
            && (id in s.ledger.asked ==> id in Answers(s.ledger.notices) || id in s.ledger.dropped || id in Waiting(s))
  {
    RunKeepsInv(sys, START, es);
    var s := Run(sys, START, es);
    assert multiset(s.ledger.asked)[id]
        == multiset(s.ledger.answered)[id] + multiset(s.ledger.dropped)[id] + Waiting(s)[id];
  }

  // ---- Where conversions are cut -----------------------------------------

  /** Text, HTML and file lists end at their first zero byte, pictures and raw data do not. */
  predicate EndsAtZero(sys: System, src: Uint32)
  {
    IsText(src) || src == sys.html || src == sys.fileGroup
  }

  /** Formats known by name have ids of their own; targets without a name stand for standard formats. */
  predicate Registered(sys: System)
  {
    sys.html >= FIRST_REGISTERED && sys.fileGroup >= FIRST_REGISTERED
  }

  predicate FromTable(q: Query)
  {
    q.server.Some? && q.target.name.None? ==> q.server.value < FIRST_REGISTERED && q.target.remote < FIRST_REGISTERED
  }

  predicate AllFromTable(es: seq<Event>)
  {
    forall i :: 0 <= i < |es| && es[i].Request? ==> FromTable(es[i].query)
  }

  predicate RightlyCut(sys: System, route: Route)
  {
    route.terminated <==> EndsAtZero(sys, route.src)
  }

  /** Every cached conversion was cut where its source says, and so will be that of the pending request. */
  predicate AllCut(sys: System, s: Paste)
  {
    && (forall k :: k in s.caches.origins ==> RightlyCut(sys, s.caches.origins[k].route))
    && (s.respond.Some? && s.requested.Some? ==> RightlyCut(sys, PendingRoute(sys, s)))
  }

  lemma TargetIsCut(sys: System, q: Query)
    requires Registered(sys) && FromTable(q) && q.server.Some?
    ensures RightlyCut(sys, RouteOfTarget(sys, q.target))
  {
  }

  lemma SentIsCut(sys: System, s: Paste, id: nat, q: Query)
    requires Registered(sys) && FromTable(q) && q.server.Some? && AllCut(sys, s)
    ensures AllCut(sys, Sent(sys, s, id, q))
  {
  }

  lemma LookupIsCut(sys: System, s: Paste, q: Query)
    requires Registered(sys) && FromTable(q) && q.server.Some? && AllCut(sys, s)
    ensures AllCut(sys, s.(caches := LookedUp(sys, s.caches, q).0))
  {
    TargetIsCut(sys, q);
  }

  lemma StepKeepsCut(sys: System, s: Paste, e: Event)
    requires Registered(sys) && (e.Request? ==> FromTable(e.query))
    requires Inv(sys, s) && AllCut(sys, s)
    ensures AllCut(sys, Step(sys, s, e))
  {
    match e
    case Request(id, q, _) =>
      if q.ours && q.server.Some? {
        LookupIsCut(sys, s, q);
        SentIsCut(sys, Asked(s, id), id, q);
      }
    case _ =>
  }

  lemma {:induction false} RunKeepsCut(sys: System, s: Paste, es: seq<Event>)
    requires Registered(sys) && AllFromTable(es) && Inv(sys, s) && AllCut(sys, s)
    ensures AllCut(sys, Run(sys, s, es))
    decreases |es|
  {
    if es != [] {
      StepKeepsInv(sys, s, es[0]);
      StepKeepsCut(sys, s, es[0]);
      assert AllFromTable(es[1..]) by { assert forall i :: 0 <= i < |es[1..]| ==> es[1..][i] == es[i + 1]; }
      RunKeepsCut(sys, Step(sys, s, es[0]), es[1..]);
    }
  }

  // ---- Where cached data comes from --------------------------------------

  /** Both kinds of format list, in and out, empty the caches. */
  predicate Clears(e: Event)
  {
    e.FormatList? || e.Announced?
  }

  /** After a format list, in or out, nothing is found for any request. */
  lemma NothingIsLeft(sys: System, s: Paste, e: Event, q: Query)
    requires Clears(e) && q.server.Some?
    ensures LookedUp(sys, Step(sys, s, e).caches, q).1.None?
    ensures Step(sys, s, e).caches.received == []
  {
  }

  /** This event was a reply with the data, taken for a request that waited for that format; no list came since. */
  predicate ReceivedBy(sys: System, es: seq<Event>, i: nat, r: Received)
  {
    && i < |es| && es[i] == Reply(false, r.data)
    && (forall j :: i < j < |es| ==> !Clears(es[j]))
    && var s := Run(sys, START, es[..i]);
       s.respond.Some? && (s.raw || s.requested.Some?) && r.src == PendingRoute(sys, s).src
  }

  lemma {:induction false} RunSnoc(sys: System, s: Paste, es: seq<Event>, e: Event)
    ensures Run(sys, s, es + [e]) == Step(sys, Run(sys, s, es), e)
    decreases |es|
  {
    if es == [] {
      assert es + [e] == [e] && [e][1..] == [];
    } else {
      assert (es + [e])[0] == es[0] && (es + [e])[1..] == es[1..] + [e];
      RunSnoc(sys, Step(sys, s, es[0]), es[1..], e);
    }
  }

  /** What one event adds to the data received. */
  lemma ReceivedGrows(sys: System, s: Paste, e: Event, r: Received)
    requires r in Step(sys, s, e).caches.received
    ensures !Clears(e)
    ensures r in s.caches.received
            || (e == Reply(false, r.data) && s.respond.Some? && (s.raw || s.requested.Some?)
                && r.src == PendingRoute(sys, s).src)
  {
  }

  /** Whatever counts as received was received by an event since the last format list. */
  lemma {:induction false} ReceivedByEvent(sys: System, es: seq<Event>, r: Received) returns (i: nat)
    requires r in Run(sys, START, es).caches.received
    ensures ReceivedBy(sys, es, i, r)
    decreases |es|
  {
    var n := |es| - 1;
    var init, e := es[..n], es[n];
    assert es == init + [e];
    RunSnoc(sys, START, init, e);
    var s := Run(sys, START, init);
    ReceivedGrows(sys, s, e, r);
    if r in s.caches.received {
      i := ReceivedByEvent(sys, init, r);
      assert init[..i] == es[..i];
    } else {
      i := n;
    }
  }

  /**
   Data given without asking the server was converted from the data of a reply, taken for a
   request of that source format, with no format list in between; and cut at its first zero
   byte exactly where the source format is text.
   */
  lemma FoundIsFresh(sys: System, es: seq<Event>, q: Query) returns (src: Uint32, data: seq<Byte>, i: nat)
    requires Registered(sys) && AllFromTable(es) && FromTable(q)
    requires q.server.Some? && !IsRaw(q)
    requires LookedUp(sys, Run(sys, START, es).caches, q).1.Some?
    ensures ReceivedBy(sys, es, i, Received(src, data))
    ensures Converted(sys, Route(src, RouteOfTarget(sys, q.target).dst, EndsAtZero(sys, src)), data)
            == LookedUp(sys, Run(sys, START, es).caches, q).1
  {
    RunKeepsInv(sys, START, es);
    RunKeepsCut(sys, START, es);
    var c := Run(sys, START, es).caches;
    var route := RouteOfTarget(sys, q.target);
    if Hit(sys, c, q).Some? {
      assert Fresh(sys, c, Slot(route.dst));
      var o := c.origins[Slot(route.dst)];
      src, data := o.route.src, o.data;
    } else {
      TargetIsCut(sys, q);
      src, data := route.src, Convertible(sys, c, q).value;
    }
    i := ReceivedByEvent(sys, es, Received(src, data));
  }

  /** The reply to a waiting request is cut in the same way. */
  lemma ReplyIsCut(sys: System, es: seq<Event>, data: seq<Byte>)
    requires Registered(sys) && AllFromTable(es)
    requires Run(sys, START, es).respond.Some? && data != []
    ensures var s := Run(sys, START, es);
            && s.requested.Some?
            && var p := PendingRoute(sys, s);
               var made := Converted(sys, Route(p.src, p.dst, EndsAtZero(sys, p.src)), data);
               Step(sys, s, Reply(false, data)).ledger.notices == s.ledger.notices
                 + [Notice(s.respond.value.id, Shown(s.respond.value.property,
                                                     Data(if made.Some? then made.value else [])))]
  {
    RunKeepsInv(sys, START, es);
    RunKeepsCut(sys, START, es);
  }

  /**
   The raw cache is filled under other keys than raw requests look for: those always reach the
   server or are refused.
   */
  lemma RawIsNeverCached(sys: System, es: seq<Event>, q: Query)
    requires IsRaw(q)
    ensures LookedUp(sys, Run(sys, START, es).caches, q).1.None?
  {
    RunKeepsInv(sys, START, es);
    var c := Run(sys, START, es).caches;
    assert CachesFresh(sys, c);
    assert Slot(FormatId(q)) !in c.cachedRaw;
  }

  /** Between replies and format lists at most one request goes to the server, and none if one is there already. */
  lemma {:induction false} SingleFlight(sys: System, s: Paste, es: seq<Event>)
    requires forall e :: e in es ==> Local(e) || e.Announced?
    ensures var r := Run(sys, s, es);
            && |r.ledger.wire| <= |s.ledger.wire| + (if s.respond.Some? then 0 else 1)
            && (s.respond.Some? ==> r.respond == s.respond && r.ledger.wire == s.ledger.wire)
    decreases |es|
  {
    if es != [] {
      var t := Step(sys, s, es[0]);
      LocalSends(sys, s, es[0]);
      SingleFlight(sys, t, es[1..]);
    }
  }

  lemma LocalSends(sys: System, s: Paste, e: Event)
    requires Local(e) || e.Announced?
    ensures var r := Step(sys, s, e);
            || (r.ledger.wire == s.ledger.wire && r.respond == s.respond)
            || (s.respond.None? && r.respond.Some? && |r.ledger.wire| == |s.ledger.wire| + 1)
  {
  }

  // ---- What each event does ----------------------------------------------

  /** The formats between which the data for a target is converted, and whether it ends at its first zero byte. */
  function Gets(sys: System, t: Target, asked: Uint32, data: seq<Byte>): (d: Option<seq<Byte>>)
  {
    var src := match t.name
      case None => asked
      case Some(Html) => sys.html
      case Some(FileGroup) => sys.fileGroup
      case Some(Other(_)) => 0;
    if sys.known(src) then
      match t.name
      case Some(Html) => sys.get(sys.html, sys.mimeHtml, data)
      case Some(Other(_)) => sys.get(0, 0, data)
      case _ => sys.get(src, t.local, data)
    else None
  }

  predicate EndsText(t: Target, asked: Uint32)
  {
    match t.name
    case None => asked == 1 || asked == 7 || asked == 13
    case Some(Html) => true
    case Some(FileGroup) => true
    case Some(Other(_)) => false
  }

  /** The part of the data before its first zero byte, or all of it. */
  predicate CutAtZero(whole: seq<Byte>, cut: seq<Byte>)
  {
    cut <= whole && 0 !in cut && (cut == whole || whole[|cut|] == 0)
  }

  /**
   A paste that goes to the server asks for the announced format and is answered with what the
   wClipboard makes of the reply: from the format that was asked for, or HTML or the file list,
   to the local format of the target, for HTML text/html; cut at its first zero byte if it is
   text, HTML or a list; with no data if there is no conversion.
   */
  lemma PasteGetsData(sys: System, s: Paste, id: nat, q: Query, sends: bool, data: seq<Byte>)
    requires q.ours && !q.own && q.server.Some? && !IsRaw(q) && data != []
    requires s.respond.None? && LookedUp(sys, s.caches, q).1.None?
    ensures var s1 := Step(sys, s, Request(id, q, sends));
            var s2 := Step(sys, s1, Reply(false, data));
            var made := Gets(sys, q.target, q.server.value, data);
            && s1.ledger.wire == s.ledger.wire + [q.server.value] && s1.ledger.notices == s.ledger.notices
            && s2.respond.None? && |s2.ledger.notices| == |s.ledger.notices| + 1
            && s.ledger.notices <= s2.ledger.notices
            && var n := s2.ledger.notices[|s.ledger.notices|];
               && n.id == id
               && (!q.property ==> n.answer == Refused)
               && (q.property ==> n.answer.Data?)
               && (q.property && made.None? ==> n.answer.data == [])
               && (q.property && made.Some? ==>
                     if EndsText(q.target, q.server.value) then CutAtZero(made.value, n.answer.data)
                     else n.answer.data == made.value)
  {
    var s1 := Step(sys, s, Request(id, q, sends));
    var made := Gets(sys, q.target, q.server.value, data);
    assert s1 == Sent(sys, Asked(s, id), id, q);
    var route := PendingRoute(sys, s1);
    if made.Some? {
      LengthStops(made.value);
      assert Converted(sys, route, data).Some?;
    }
  }

  /** A raw requestor gets the data of the format it names, as it is. */
  lemma RawPasteGetsData(sys: System, s: Paste, id: nat, q: Query, sends: bool, data: seq<Byte>)
    requires q.ours && !q.own && q.server == Some(CF_RAW) && q.rawId.Some? && q.property && data != []
    requires s.respond.None? && LookedUp(sys, s.caches, q).1.None? && sys.known(0)
    ensures var s1 := Step(sys, s, Request(id, q, sends));
            var s2 := Step(sys, s1, Reply(false, data));
            var made := sys.get(0, 0, data);
            && s1.ledger.wire == s.ledger.wire + [q.rawId.value]
            && s2.ledger.notices == s.ledger.notices + [Notice(id, Data(if made.Some? then made.value else []))]
  {
  }

  /**
   What a request leads to at once: nothing if the selection is not the client's; a refusal for
   an unknown target, the client's own request, or while another waits; the data found; or a
   question to the server.
   */
  lemma RequestExactly(sys: System, s: Paste, id: nat, q: Query, sends: bool)
    ensures var r := Step(sys, s, Request(id, q, sends));
            var found := if q.server.Some? then LookedUp(sys, s.caches, q).1 else None;
            if !q.ours then r == s
            else
              var answer := if q.server.None? || q.own then Some(Refused)
                            else if found.Some? then Some(if q.property then Data(found.value) else Refused)
                            else if s.respond.Some? then Some(Refused) else None;
              && r.ledger.asked == s.ledger.asked + [id]
              && r.ledger.notices == s.ledger.notices + (if answer.Some? then [Notice(id, answer.value)] else [])
              && r.ledger.wire == s.ledger.wire
                 + (if answer.Some? then []
                    else if q.server.value == 0 && q.rawId.Some? then [q.rawId.value] else [q.server.value])
              && (answer.Some? ==> r.respond == s.respond)
              && (answer.None? ==> r.respond.Some? && r.respond.value.id == id)
  {
  }

  /**
   A failure drops the waiting request without an answer, and so does a reply without data; a
   reply that nobody waits for changes nothing; a format list drops the waiting request and
   forgets its format; announcing formats leaves it waiting.
   */
  lemma DroppedExactly(sys: System, s: Paste, data: seq<Byte>)
    requires s.requested.Some?
    ensures var r := Step(sys, s, Reply(true, data));
            && r.respond.None? && r.ledger.notices == s.ledger.notices && r.caches == s.caches
            && r.ledger.dropped == s.ledger.dropped + (if s.respond.Some? then [s.respond.value.id] else [])
    ensures s.respond.None? ==> Step(sys, s, Reply(false, data)) == s
    ensures s.respond.Some? && sys.known(PendingRoute(sys, s).src) ==>
              var r := Step(sys, s, Reply(false, []));
              && r.respond.None? && r.ledger.notices == s.ledger.notices && r.caches == s.caches
              && r.ledger.dropped == s.ledger.dropped + [s.respond.value.id]
    ensures var r := Step(sys, s, FormatList);
            && r.respond.None? && r.requested.None? && r.ledger.notices == s.ledger.notices
            && r.ledger.dropped == s.ledger.dropped + (if s.respond.Some? then [s.respond.value.id] else [])
    ensures var r := Step(sys, s, Announced);
            r.respond == s.respond && r.requested == s.requested && r.ledger == s.ledger
  {
  }

  /** Questions about the selection itself are answered at once, if there is a property for the answer. */
  lemma MetaIsAnswered(sys: System, s: Paste, id: nat, property: bool)
    ensures Step(sys, s, Meta(id, property)).ledger.notices
            == s.ledger.notices + [Notice(id, if property then About else Refused)]
    ensures var r := Step(sys, s, Meta(id, property));
            r.respond == s.respond && r.caches == s.caches && r.ledger.wire == s.ledger.wire
  {
  }

  // ---- Another target of the same data -----------------------------------

  /**
   Data that was received for one target serves every other target of the same source without
   the server: it is converted when it is asked for.
   */
  lemma OtherTargetIsConverted(sys: System, s: Paste, data: seq<Byte>, id: nat, q: Query, sends: bool)
    requires s.respond.Some? && s.requested.Some? && data != []
    requires q.ours && !q.own && q.server.Some? && !IsRaw(q) && q.property
    requires RouteOfTarget(sys, q.target).src == PendingRoute(sys, s).src != 0
    requires RouteOfTarget(sys, q.target).dst != PendingRoute(sys, s).dst
    requires Slot(RouteOfTarget(sys, q.target).dst) !in s.caches.cached
    requires Converted(sys, RouteOfTarget(sys, q.target), data).Some?
    ensures var s1 := Step(sys, s, Reply(false, data));
            var s2 := Step(sys, s1, Request(id, q, sends));
            && s2.ledger.wire == s1.ledger.wire && s2.respond.None?
            && s2.ledger.notices == s1.ledger.notices
               + [Notice(id, Data(Converted(sys, RouteOfTarget(sys, q.target), data).value))]
  {
    var s1 := Step(sys, s, Reply(false, data));
    assert s1.caches == StoredReply(sys, s.caches, PendingRoute(sys, s), data);
    assert Hit(sys, s1.caches, q).None?;
    assert Convertible(sys, s1.caches, q) == Some(data);
  }

  // ---- A second paste ----------------------------------------------------

  /**
   The reply of a request is converted to the format that the next request for the same
   target will look for; and from it, exactly when the format asked for is the target's.
   */
  lemma RoutesAgree(sys: System, s: Paste, id: nat, q: Query)
    requires q.server.Some? && !IsRaw(q)
    ensures PendingRoute(sys, Sent(sys, s, id, q)) == RouteOfTarget(sys, q.target)
            <==> q.target.name.Some? || q.server.value == q.target.remote
    ensures PendingRoute(sys, Sent(sys, s, id, q)).dst == RouteOfTarget(sys, q.target).dst
  {
  }

  /**
   It need not be: image/tiff is in the table of targets for CF_TIFF and, behind that, for
   CF_DIB. From a server that has only CF_DIB, CF_DIB is asked for the target of CF_TIFF.
   */
  lemma TiffFromBitmap(sys: System, s: Paste, id: nat, q: Query)
    requires q.server == Some(CF_DIB) && q.target == Target(CF_TIFF, CF_TIFF, None)
    ensures PendingRoute(sys, Sent(sys, s, id, q)) == Route(CF_DIB, CF_TIFF, false)
    ensures RouteOfTarget(sys, q.target) == Route(CF_TIFF, CF_TIFF, false)
  {
  }

  /** A request of a local application. */
  predicate Local(e: Event)
  {
    e.Meta? || e.Request?
  }

  lemma LocalKeepsCached(sys: System, s: Paste, e: Event, k: nat)
    requires Local(e) && k in s.caches.cached
    ensures k in Step(sys, s, e).caches.cached && Step(sys, s, e).caches.cached[k] == s.caches.cached[k]
  {
    if e.Request? && e.query.server.Some? {
      LookupKeepsCached(sys, s.caches, e.query, k);
    }
  }

  lemma LookupKeepsCached(sys: System, c: Caches, q: Query, k: nat)
    requires q.server.Some? && k in c.cached
    ensures k in LookedUp(sys, c, q).0.cached && LookedUp(sys, c, q).0.cached[k] == c.cached[k]
  {
  }

  lemma {:induction false} LocalRunKeepsCached(sys: System, s: Paste, es: seq<Event>, k: nat)
    requires (forall e :: e in es ==> Local(e)) && k in s.caches.cached
    ensures k in Run(sys, s, es).caches.cached && Run(sys, s, es).caches.cached[k] == s.caches.cached[k]
    decreases |es|
  {
    if es != [] {
      LocalKeepsCached(sys, s, es[0], k);
      LocalRunKeepsCached(sys, Step(sys, s, es[0]), es[1..], k);
    }
  }

  /**
   A paste that went to the server and was answered is answered again, with the same data
   and without the server, after any number of other local requests.
   */
  lemma SecondPasteIsCached(sys: System, s: Paste, id: nat, again: nat, q: Query, sends: bool, data: seq<Byte>,
                            es: seq<Event>)
    requires q.ours && !q.own && q.server.Some? && !IsRaw(q) && data != []
    requires s.respond.None? && LookedUp(sys, s.caches, q).1.None?
    requires Converted(sys, PendingRoute(sys, Sent(sys, s, id, q)), data).Some?
    requires forall e :: e in es ==> Local(e)
    ensures var made := Converted(sys, PendingRoute(sys, Sent(sys, s, id, q)), data).value;
            var s1 := Step(sys, Step(sys, s, Request(id, q, true)), Reply(false, data));
            var s2 := Run(sys, s1, es);
            var told := Shown(q.property, Data(made));
            && s1 == Noted(s1.(ledger := Sent(sys, Asked(s, id), id, q).ledger), id, told)
            && Step(sys, s2, Request(again, q, sends)) == Noted(Asked(s2, again), again, told)
  {
    var route := RouteOfTarget(sys, q.target);
    var s0 := Step(sys, s, Request(id, q, true));
    RoutesAgree(sys, Asked(s, id), id, q);
    var s1 := Step(sys, s0, Reply(false, data));
    StoredAfterReply(sys, s0, data);
    LocalRunKeepsCached(sys, s1, es, Slot(route.dst));
  }

  lemma StoredAfterReply(sys: System, s: Paste, data: seq<Byte>)
    requires s.respond.Some? && s.requested.Some? && data != []
    requires Converted(sys, PendingRoute(sys, s), data).Some?
    ensures var r := Step(sys, s, Reply(false, data));
            var route := PendingRoute(sys, s);
            && Slot(route.dst) in r.caches.cached
            && r.caches.cached[Slot(route.dst)] == Converted(sys, route, data).value
            && r == Noted(r.(ledger := s.ledger), s.respond.value.id,
                          Shown(s.respond.value.property, Data(Converted(sys, route, data).value)))
  {
  }

  // ---- Which request a reply is for --------------------------------------

  /**
   The client together with the requests a server, which answers in order, has not answered
   yet, and whether the request that waits, if one does, was sent.
   */
  datatype World = World(client: Paste, unanswered: seq<nat>, sent: bool)

  const ORIGIN := World(START, [], false)

  predicate Enabled(w: World, e: Event)
  {
    match e
    case Meta(_, _) => true
    case Request(id, _, _) => id !in w.unanswered
    case Reply(_, _) => w.unanswered != []
    case FormatList => true
    case Announced => true
  }

  function Next(sys: System, w: World, e: Event): (r: World)
    requires Enabled(w, e)
  {
    var client := Step(sys, w.client, e);
    match e
    case Meta(_, _) => w.(client := client)
    case Request(id, _, sends) =>
      if |client.ledger.wire| > |w.client.ledger.wire| then
        World(client, if sends then w.unanswered + [id] else w.unanswered, sends)
      else w.(client := client)
    case Reply(_, _) => w.(client := client, unanswered := w.unanswered[1..])
    case FormatList => w.(client := client)
    case Announced => w.(client := client)
  }

  /** A request waits and is at the server. */
  predicate Awaited(w: World)
  {
    w.client.respond.Some? && w.sent
  }

  /** Requests at the server that the client no longer waits for. */
  function Orphans(w: World): (n: int)
  {
    |w.unanswered| - (if Awaited(w) then 1 else 0)
  }

  /** A waiting request is the last one at the server, or not there at all if it was not sent. */
  predicate InStep(w: World)
  {
    && (w.client.respond.Some? ==> w.client.requested.Some?)
    && (Awaited(w) ==> w.unanswered != [] && w.unanswered[|w.unanswered| - 1] == w.client.respond.value.id)
    && (w.client.respond.Some? && !w.sent ==> w.client.respond.value.id !in w.unanswered)
    && forall i, j :: 0 <= i < j < |w.unanswered| ==> w.unanswered[i] != w.unanswered[j]
  }

  lemma RequestSends(sys: System, s: Paste, id: nat, q: Query)
    ensures var r := OnRequest(sys, s, id, q);
            if |r.ledger.wire| > |s.ledger.wire| then
              s.respond.None? && r.respond == Some(Pending(id, q.target, q.property)) && r.requested.Some?
            else r.respond == s.respond && r.requested == s.requested && r.ledger.wire == s.ledger.wire
  {
  }

  /** What a format list or a reply does to a waiting request, and nothing else does. */
  lemma ReleasedExactly(sys: System, w: World, e: Event)
    requires InStep(w) && Enabled(w, e) && w.client.respond.Some?
    ensures Next(sys, w, e).client.respond == if e.FormatList? || e.Reply? then None else w.client.respond
  {
    match e
    case Request(id, q, _) => RequestSends(sys, w.client, id, q);
    case _ =>
  }

  /**
   Every step keeps the waiting request last. A format list that arrives while a request is
   awaited orphans it; a reply that arrives while none is awaited is an orphan's; nothing
   else changes the number of orphans.
   */
  lemma NextKeepsInStep(sys: System, w: World, e: Event)
    requires InStep(w) && Enabled(w, e)
    ensures InStep(Next(sys, w, e))
    ensures Orphans(Next(sys, w, e)) == Orphans(w)
              + (if e.FormatList? && Awaited(w) then 1 else 0)
              - (if e.Reply? && !Awaited(w) then 1 else 0)
  {
    match e
    case Request(id, q, _) => RequestSends(sys, w.client, id, q);
    case _ =>
  }

  /** A reply is for the waiting request exactly when that was sent and there are no orphans. */
  lemma ReplyIsOwn(w: World)
    requires InStep(w) && w.client.respond.Some? && w.unanswered != []
    ensures w.unanswered[0] == w.client.respond.value.id <==> w.sent && Orphans(w) == 0
  {
  }

  predicate Runs(sys: System, w: World, es: seq<Event>)
    decreases |es|
  {
    es == [] || (Enabled(w, es[0]) && Runs(sys, Next(sys, w, es[0]), es[1..]))
  }

  function WorldAfter(sys: System, w: World, es: seq<Event>): (r: World)
    requires Runs(sys, w, es)
    decreases |es|
  {
    if es == [] then w else WorldAfter(sys, Next(sys, w, es[0]), es[1..])
  }

  /** The format lists of a run that met an awaited request. */
  function Orphaned(sys: System, w: World, es: seq<Event>): (n: nat)
    requires Runs(sys, w, es)
    decreases |es|
  {
    if es == [] then 0
    else (if es[0].FormatList? && Awaited(w) then 1 else 0) + Orphaned(sys, Next(sys, w, es[0]), es[1..])
  }

  /** The replies of a run that met no awaited request. */
  function Strays(sys: System, w: World, es: seq<Event>): (n: nat)
    requires Runs(sys, w, es)
    decreases |es|
  {
    if es == [] then 0
    else (if es[0].Reply? && !Awaited(w) then 1 else 0) + Strays(sys, Next(sys, w, es[0]), es[1..])
  }

  lemma {:induction false} OrphansOverRun(sys: System, w: World, es: seq<Event>)
    requires InStep(w) && Runs(sys, w, es)
    ensures InStep(WorldAfter(sys, w, es))
    ensures Orphans(WorldAfter(sys, w, es)) == Orphans(w) + Orphaned(sys, w, es) - Strays(sys, w, es)
    decreases |es|
  {
    if es != [] {
      NextKeepsInStep(sys, w, es[0]);
      OrphansOverRun(sys, Next(sys, w, es[0]), es[1..]);
    }
  }

  /**
   After every run, whichever requests reached the server, a reply that meets a waiting
   request is that request's own exactly when it was sent and as many replies met no awaited
   request as format lists met one.
   */
  lemma RepliesAreOwnExactly(sys: System, es: seq<Event>)
    requires Runs(sys, ORIGIN, es)
    ensures var w := WorldAfter(sys, ORIGIN, es);
            w.client.respond.Some? ==>
              && (w.sent ==> w.unanswered != [])
              && (w.unanswered != [] ==>
                    (w.unanswered[0] == w.client.respond.value.id
                     <==> w.sent && Orphaned(sys, ORIGIN, es) == Strays(sys, ORIGIN, es)))
  {
    OrphansOverRun(sys, ORIGIN, es);
    var w := WorldAfter(sys, ORIGIN, es);
    if w.client.respond.Some? && w.unanswered != [] { ReplyIsOwn(w); }
  }

  /** As long as no format list arrives while a request is awaited, the server has that request and no other. */
  lemma RepliesAreOwn(sys: System, w: World, es: seq<Event>)
    requires InStep(w) && Orphans(w) == 0 && Runs(sys, w, es) && Orphaned(sys, w, es) == 0
    ensures var v := WorldAfter(sys, w, es);
            v.unanswered == if Awaited(v) then [v.client.respond.value.id] else []
  {
    OrphansOverRun(sys, w, es);
  }

  /**
   Otherwise a reply can reach another request than its own: a paste, a new format list,
   a paste of another format, and the reply to the first paste answers the second.
   */
  lemma StaleReplyIsTaken(sys: System, t1: Target, t2: Target, data: seq<Byte>)
    requires t1.name.None? && t2.name.None? && t1.remote != CF_RAW && t2.remote != CF_RAW
    requires sys.known(t2.remote) && data != []
    ensures var w1 := Next(sys, ORIGIN, Request(1, Query(true, false, Some(t1.remote), t1, None, true), true));
            var w2 := Next(sys, w1, FormatList);
            var w3 := Next(sys, w2, Request(2, Query(true, false, Some(t2.remote), t2, None, true), true));
            var w4 := Next(sys, w3, Reply(false, data));
            && w3.unanswered == [1, 2]
            && |w4.client.ledger.notices| == 1 && w4.client.ledger.notices[0].id == 2
  {
  }

  // ---- A request that is not sent ----------------------------------------

  /**
   The result of sending a request is not looked at. From a state in which the waiting request
   was not sent and the server has none, in every run without a format list the request goes on
   waiting, nothing is asked of the server, and whatever is not cached is refused.
   */
  lemma {:induction false} UnsentBlocks(sys: System, w: World, es: seq<Event>, id: nat, q: Query, sends: bool)
    requires InStep(w) && w.client.respond.Some? && !w.sent && w.unanswered == []
    requires Runs(sys, w, es) && forall e :: e in es ==> !e.FormatList?
    ensures var v := WorldAfter(sys, w, es);
            && v.client.respond == w.client.respond && v.client.ledger.wire == w.client.ledger.wire
            && v.unanswered == [] && !v.sent
            && (q.ours && q.server.Some? && LookedUp(sys, v.client.caches, q).1.None? ==>
                  Step(sys, v.client, Request(id, q, sends)) == Noted(Asked(v.client, id), id, Refused))
    decreases |es|
  {
    if es != [] {
      var e := es[0];
      assert !e.Reply?;
      NextKeepsInStep(sys, w, e);
      ReleasedExactly(sys, w, e);
      if e.Request? { RequestSends(sys, w.client, e.id, e.query); }
      UnsentBlocks(sys, Next(sys, w, e), es[1..], id, q, sends);
    }
  }

  /** Such a state: the first paste of all, not sent. */
  lemma UnsentPaste(sys: System, id: nat, q: Query)
    requires q.ours && !q.own && q.server.Some?
    ensures var w := Next(sys, ORIGIN, Request(id, q, false));
            InStep(w) && w.client.respond.Some? && !w.sent && w.unanswered == []
  {
  }

  // ---- The client's code -------------------------------------------------

  class Clipboard {
    const system: System
    var respond: Option<Pending>
    var requestedFormat: Option<Requested>
    var dataRawFormat: bool
    var cachedData: map<nat, seq<Byte>>
    var cachedRawData: map<nat, seq<Byte>>
    var notices: seq<Notice>
    var wire: seq<Uint32>
    ghost var history: (seq<Received>, map<nat, Origin>)
    ghost var ids: (seq<nat>, seq<nat>, seq<nat>)

    ghost function View(): (s: Paste)
      reads this
    {
      Paste(respond, requestedFormat, dataRawFormat, Caches(cachedData, cachedRawData, history.0, history.1),
            Ledger(ids.0, ids.1, ids.2, notices, wire))
    }

    constructor (system: System)
      ensures View() == START && this.system == system
    {
      this.system := system;
      respond, requestedFormat, dataRawFormat := None, None, false;
      cachedData, cachedRawData, notices, wire := map[], map[], [], [];
      history, ids := ([], map[]), ([], [], []);
    }

    method Notify(id: nat, answer: Answer)
      modifies this`notices, this`ids
      ensures View() == Noted(old(View()), id, answer)
    {
      notices := notices + [Notice(id, answer)];
      ids := (ids.0, ids.1 + [id], ids.2);
    }

    /** convert_data_from_existing_raw_data. */
    method ConvertExisting(raw: seq<Byte>, route: Route) returns (made: Option<seq<Byte>>)
      modifies this`cachedData, this`history
      ensures made == Converted(system, route, raw)
      ensures View() == (if made.Some? then old(View()).(caches := Stored(old(View()).caches, route, raw, made.value))
                         else old(View()))
    {
      if !system.known(route.src) { return None; }
      made := system.get(route.src, route.dst, raw);
      if made.None? { return; }
      if route.terminated { made := Some(made.value[..Length(made.value)]); }
      cachedData := cachedData[Slot(route.dst) := made.value];
      history := (history.0, history.1[Slot(route.dst) := Origin(route, raw)]);
    }

    /** The data a request can be answered with at once. */
    method Find(q: Query, route: Route, rawTransfer: bool, formatId: Uint32) returns (data: Option<seq<Byte>>)
      requires q.server.Some? && rawTransfer == IsRaw(q) && formatId == FormatId(q)
      requires route == RouteOfTarget(system, q.target)
      modifies this`cachedData, this`history
      ensures var (caches, found) := LookedUp(system, old(View()).caches, q);
              data == found && View() == old(View()).(caches := caches)
    {
      data := None;
      if !rawTransfer {
        if Slot(route.dst) in cachedData { data := Some(cachedData[Slot(route.dst)]); }
      } else {
        if Slot(formatId) in cachedRawData { data := Some(cachedRawData[Slot(formatId)]); }
      }
      if data.None? && !rawTransfer && route.src as int in cachedRawData && |cachedRawData[route.src as int]| != 0 {
        data := ConvertExisting(cachedRawData[route.src as int], route);
      }
    }

    /** Asks the server, without looking at whether that worked, and postpones the answer. */
    method Ask(id: nat, q: Query, formatId: Uint32)
      requires q.server.Some? && formatId == FormatId(q)
      modifies this`respond, this`requestedFormat, this`dataRawFormat, this`wire
      ensures View() == Sent(system, old(View()), id, q)
    {
      respond := Some(Pending(id, q.target, q.property));
      requestedFormat := Some(Requested(RouteOfTarget(system, q.target).dst, formatId, q.target.name));
      dataRawFormat := q.server.value == CF_RAW && q.rawId.Some?;
      wire := wire + [formatId];
    }

    /** The part of xf_cliprdr_process_selection_request that handles targets with data. */
    method ProcessSelectionRequest(id: nat, q: Query) returns (accepted: bool)
      modifies this
      ensures View() == OnRequest(system, old(View()), id, q) && accepted == q.ours
    {
      if !q.ours { return false; }
      ids := (ids.0 + [id], ids.1, ids.2);
      accepted := true;
      if q.server.None? || q.own {
        Notify(id, Refused);
        return;
      }
      var formatId, rawTransfer := q.server.value, false;
      if formatId == CF_RAW && q.rawId.Some? {
        formatId, rawTransfer := q.rawId.value, true;
      }
      var route := RouteOfTarget(system, q.target);
      var data := Find(q, route, rawTransfer, formatId);
      if data.Some? {
        Notify(id, Shown(q.property, Data(data.value)));
      } else if respond.Some? {
        Notify(id, Refused);
      } else {
        Ask(id, q, formatId);
      }
    }

    method DropPending()
      modifies this`respond, this`ids
      ensures View() == Dropped(old(View()))
    {
      if respond.Some? { ids := (ids.0, ids.1, ids.2 + [respond.value.id]); }
      respond := None;
    }

    /** xf_cliprdr_server_format_data_response. */
    method ServerFormatDataResponse(fail: bool, data: seq<Byte>) returns (ok: bool)
      modifies this
      ensures View() == OnReply(system, old(View()), fail, data)
      ensures ok <==> fail || old(respond).None? || old(dataRawFormat) || old(requestedFormat).Some?
    {
      if fail {
        DropPending();
        return true;
      }
      if respond.None? { return true; }
      if !dataRawFormat && requestedFormat.None? { return false; }
      var route := if dataRawFormat then Route(CF_RAW, CF_RAW, false)
                   else RouteOfReply(system, requestedFormat.value, respond.value.target);
      if system.known(route.src) && |data| == 0 {
        DropPending();
        return true;
      }
      var made := ConvertExisting(data, route);
      if route.src != 0 { cachedRawData := cachedRawData[route.src as int := data]; }
      history := (history.0 + [Received(route.src, data)], history.1);
      Notify(respond.value.id, Shown(respond.value.property, Data(if made.Some? then made.value else [])));
      respond := None;
      return true;
    }

    /** xf_cliprdr_clear_cached_data. */
    method ClearCachedData()
      modifies this`cachedData, this`cachedRawData, this`history
      ensures View() == Cleared(old(View()))
    {
      cachedData, cachedRawData := map[], map[];
      history := ([], map[]);
    }

    /** The forgetting done by xf_cliprdr_server_format_list. */
    method ServerFormatList()
      modifies this
      ensures View() == OnFormatList(old(View()))
    {
      DropPending();
      ClearCachedData();
      requestedFormat := None;
    }
  }
}
