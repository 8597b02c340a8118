/**
 Resize throttling of the display control clients, client/X11/xf_disp.c and
 client/Wayland/wlf_disp.c: a new window size is sent to the server at once or
 left to a one-shot timer, so that two sends are at least 200 ms apart.

 All instants are nanoseconds of the one clock that both the clients and the
 timers of libfreerdp/core/timer.c read.
 */
module ResizeThrottle {
  import opened WinprStream

  const RESIZE_MIN_DELAY: nat := 200_000_000

  datatype Client = X11 | Wayland

  datatype Size = Size(width: int, height: int)

  /** The settings that are compared and sent along with the size. */
  datatype Settings = Settings(orientation: nat, desktopScale: nat, deviceScale: nat, fullscreen: bool)

  /** A running timer: when it is due, and the interval it was started with. */
  datatype Timer = Timer(due: nat, interval: nat)

  /** One layout PDU: the instant it was sent, the date recorded for it, and its contents. */
  datatype Send = Send(at: nat, stamp: nat, size: Size, settings: Settings)

  datatype Disp = Disp(
    lastSize: Size, lastSettings: Settings, lastDate: nat, target: Size,
    activated: bool, open: bool, timer: Option<Timer>, sends: seq<Send>)

  /**
   What a handler finds when it runs: the current settings, whether sending works,
   and the clock each time it looks: for the throttle check, for the date of a send
   (or the start of a timer), at the send itself, and when it is done.
   */
  datatype Call = Call(settings: Settings, fullscreenSetting: bool, ok: bool,
                       check: nat, stamp: nat, at: nat, end: nat)

  /** The X11 client records the date before it sends, the Wayland client afterwards. */
  predicate InOrder(c: Client, now: nat, k: Call)
  {
    now <= k.check && match c
      case X11 => k.check <= k.stamp <= k.at <= k.end
      case Wayland => k.check <= k.at <= k.stamp <= k.end
  }

  // ---- One decision ------------------------------------------------------

  datatype Verdict = Skip | Defer(interval: nat) | Transmit

  predicate SettingsChanged(d: Disp, k: Call)
  {
    d.lastSize != d.target || d.lastSettings != k.settings
  }

  predicate Early(d: Disp, k: Call)
  {
    k.check < d.lastDate + RESIZE_MIN_DELAY
  }

  /** What one attempt to send does: nothing, start a timer, or send. */
  function Decide(c: Client, d: Disp, fromTimer: bool, k: Call): (v: Verdict)
    requires d.lastDate <= k.check
  {
    if d.timer.Some? && !fromTimer then Skip
    else if !d.activated || !d.open then Defer(RESIZE_MIN_DELAY)
    else if Early(d, k) then Defer(if c.X11? then d.lastDate + RESIZE_MIN_DELAY - k.check else RESIZE_MIN_DELAY)
    else if SettingsChanged(d, k) then Transmit
    else Skip
  }

  function Started(t: Option<Timer>, now: nat, interval: nat): (r: Option<Timer>)
  {
    if t.None? then Some(Timer(now + interval, interval)) else t
  }

  function Transmitted(c: Client, d: Disp, k: Call): (r: Disp)
  {
    if k.ok then
      d.(lastDate := k.stamp, lastSize := d.target, lastSettings := k.settings,
         sends := d.sends + [Send(k.at, k.stamp, d.target, k.settings)])
    else if c.X11? then d.(lastDate := k.stamp)
    else d
  }

  /** xf_disp_sendResize and wlf_disp_sendResize. */
  function Attempted(c: Client, d: Disp, fromTimer: bool, k: Call): (r: Disp)
    requires d.lastDate <= k.check
  {
    match Decide(c, d, fromTimer, k)
    case Skip => d
    case Defer(interval) => d.(timer := Started(d.timer, k.stamp, interval))
    case Transmit => Transmitted(c, d, k)
  }

  /** It tries to send, and cannot. */
  predicate Fails(c: Client, d: Disp, fromTimer: bool, k: Call)
    requires d.lastDate <= k.check
  {
    Decide(c, d, fromTimer, k).Transmit? && !k.ok
  }

  // ---- Events ------------------------------------------------------------

  /**
   A new window size, another reason to look (activation, graphics reset, window
   state), the timer, the server's capabilities, the channel opening or closing.
   */
  datatype Event =
    | Configure(size: Size, call: Call)
    | Nudge(call: Call)
    | Fire(call: Call)
    | Capabilities
    | Channel(open: bool)

  datatype World = World(disp: Disp, now: nat)

  predicate Rearms(c: Client, d: Disp, k: Call)
  {
    !d.activated || (c.Wayland? && k.fullscreenSetting)
  }

  predicate Enabled(c: Client, w: World, e: Event)
  {
    match e
    case Configure(_, k) => InOrder(c, w.now, k)
    case Nudge(k) => w.disp.activated && InOrder(c, w.now, k)
    case Fire(k) => w.disp.timer.Some? && w.disp.timer.value.due <= k.check && InOrder(c, w.now, k)
    case Capabilities => true
    case Channel(_) => true
  }

  function Configured(c: Client, d: Disp, size: Size, k: Call): (r: Disp)
    requires d.lastDate <= k.check
  {
    if c.X11? && d.target == size then d
    else Attempted(c, d.(target := size), false, k)
  }

  function Fired(c: Client, d: Disp, k: Call): (r: Disp)
    requires d.timer.Some? && d.lastDate <= k.check
  {
    if Rearms(c, d, k) then d.(timer := Some(Timer(k.end + d.timer.value.interval, d.timer.value.interval)))
    else Attempted(c, d, true, k).(timer := None)
  }

  function Step(c: Client, w: World, e: Event): (r: World)
    requires Enabled(c, w, e) && w.disp.lastDate <= w.now
  {
    match e
    case Configure(size, k) => World(Configured(c, w.disp, size, k), k.end)
    case Nudge(k) => World(Attempted(c, w.disp, false, k), k.end)
    case Fire(k) => World(Fired(c, w.disp, k), k.end)
    case Capabilities => w.(disp := w.disp.(activated := true))
    case Channel(open) => w.(disp := w.disp.(open := open))
  }

  // ---- The invariant -----------------------------------------------------

  /** The instant from which a send counts: its date in the X11 client, the send itself in the other. */
  function Start(c: Client, s: Send): (t: nat)
  {
    if c.X11? then s.stamp else s.at
  }

  predicate Spaced(c: Client, sends: seq<Send>)
  {
    && (forall i :: 0 <= i < |sends| ==> Start(c, sends[i]) <= sends[i].stamp)
    && (forall i, j :: 0 <= i < j < |sends| ==> sends[i].stamp + RESIZE_MIN_DELAY <= Start(c, sends[j]))
  }

  predicate Dated(sends: seq<Send>, date: nat)
  {
    forall i :: 0 <= i < |sends| ==> sends[i].stamp <= date
  }

  /** A timer is never due within 200 ms of the last send, nor more than 200 ms from now. */
  predicate TimerFits(t: Option<Timer>, lastDate: nat, now: nat)
  {
    t.Some? ==> lastDate + RESIZE_MIN_DELAY <= t.value.due <= now + RESIZE_MIN_DELAY
                && t.value.interval <= RESIZE_MIN_DELAY
  }

  predicate Inv(c: Client, w: World)
  {
    && w.disp.lastDate <= w.now
    && TimerFits(w.disp.timer, w.disp.lastDate, w.now)
    && Spaced(c, w.disp.sends)
    && Dated(w.disp.sends, w.disp.lastDate)
  }

  lemma SpacedAppend(c: Client, sends: seq<Send>, date: nat, s: Send)
    requires Spaced(c, sends) && Dated(sends, date)
    requires date + RESIZE_MIN_DELAY <= Start(c, s) <= s.stamp
    ensures Spaced(c, sends + [s]) && Dated(sends + [s], s.stamp)
  {
  }

  lemma AttemptKeepsInv(c: Client, w: World, fromTimer: bool, k: Call)
    requires Inv(c, w) && InOrder(c, w.now, k)
    requires fromTimer ==> w.disp.timer.Some?
    ensures var d := Attempted(c, w.disp, fromTimer, k);
            && d.lastDate <= k.end
            && Spaced(c, d.sends) && Dated(d.sends, d.lastDate)
            && (!fromTimer ==> TimerFits(d.timer, d.lastDate, k.end))
  {
    var d := w.disp;
    if Decide(c, d, fromTimer, k).Transmit? && k.ok {
      SpacedAppend(c, d.sends, d.lastDate, Send(k.at, k.stamp, d.target, k.settings));
    }
  }

  /** Every step keeps the spacing of the sends and the timer in its window. */
  lemma StepKeepsInv(c: Client, w: World, e: Event)
    requires Inv(c, w) && Enabled(c, w, e)
    ensures Inv(c, Step(c, w, e)) && w.now <= Step(c, w, e).now
  {
    match e
    case Configure(size, k) =>
      if !(c.X11? && w.disp.target == size) {
        AttemptKeepsInv(c, w.(disp := w.disp.(target := size)), false, k);
      }
    case Nudge(k) => AttemptKeepsInv(c, w, false, k);
    case Fire(k) =>
      if !Rearms(c, w.disp, k) { AttemptKeepsInv(c, w, true, k); }
    case Capabilities =>
    case Channel(_) =>
  }

  // ---- What each event does ----------------------------------------------

  /**
   A timer that fires is past the 200 ms and gone. On an open channel the target is then the
   size sent last: it was sent if it or a setting is new, and the date is that of this send.
   On a closed one, or if the send fails, nothing is sent.
   */
  lemma FireIsNotEarly(c: Client, w: World, k: Call)
    requires Inv(c, w) && Enabled(c, w, Fire(k))
    requires w.disp.activated && !(c.Wayland? && k.fullscreenSetting)
    ensures var d := Step(c, w, Fire(k)).disp;
            var changed := w.disp.lastSize != w.disp.target || w.disp.lastSettings != k.settings;
            && d.timer.None? && d.target == w.disp.target
            && (w.disp.open && k.ok ==>
                  && d.lastSize == w.disp.target && d.lastSettings == k.settings
                  && d.lastDate == (if changed then k.stamp else w.disp.lastDate)
                  && d.sends == w.disp.sends + (if changed then [Send(k.at, k.stamp, d.target, k.settings)] else []))
            && (!w.disp.open || !k.ok ==> d.sends == w.disp.sends && d.lastSize == w.disp.lastSize)
  {
  }

  /** A timer before activation, or of the Wayland client in fullscreen, sends nothing and starts again. */
  lemma FireWaits(c: Client, w: World, k: Call)
    requires Inv(c, w) && Enabled(c, w, Fire(k))
    requires !w.disp.activated || (c.Wayland? && k.fullscreenSetting)
    ensures var t := w.disp.timer.value;
            Step(c, w, Fire(k)).disp == w.disp.(timer := Some(Timer(k.end + t.interval, t.interval)))
  {
  }

  /** The size an event of the window aims at, and whether the client looks at it: the X11 client skips its target. */
  function Aim(w: World, e: Event): (size: Size)
  {
    if e.Configure? then e.size else w.disp.target
  }

  predicate Looks(c: Client, w: World, e: Event)
  {
    e.Nudge? || (e.Configure? && !(c.X11? && e.size == w.disp.target))
  }

  /**
   Besides the timer, a new size or another reason to look sends at once, exactly when no timer
   runs, the client is active, the channel open, the last send 200 ms old, and something new.
   */
  lemma SentAtOnceExactly(c: Client, w: World, e: Event)
    requires Inv(c, w) && Enabled(c, w, e) && (e.Nudge? || e.Configure?)
    ensures var d, k := w.disp, e.call;
            var r := Step(c, w, e).disp;
            var tries := && Looks(c, w, e) && d.timer.None? && d.activated && d.open
                         && d.lastDate + 200_000_000 <= k.check
                         && (d.lastSize != Aim(w, e) || d.lastSettings != k.settings);
            && r.target == Aim(w, e) && r.activated == d.activated && r.open == d.open
            && (tries && k.ok ==>
                  && r.sends == d.sends + [Send(k.at, k.stamp, r.target, k.settings)]
                  && r.lastSize == r.target && r.lastSettings == k.settings && r.lastDate == k.stamp)
            && (!(tries && k.ok) ==>
                  && r.sends == d.sends && r.lastSize == d.lastSize && r.lastSettings == d.lastSettings
                  && r.lastDate == (if tries && c.X11? then k.stamp else d.lastDate))
  {
  }

  /**
   They start a timer exactly when none runs and the client is not active, the channel not
   open, or the last send not 200 ms old; the X11 client then waits for the rest of these
   200 ms, and otherwise both wait for 200 ms. A timer that runs is left alone.
   */
  lemma TimerStartsExactly(c: Client, w: World, e: Event)
    requires Inv(c, w) && Enabled(c, w, e) && (e.Nudge? || e.Configure?)
    ensures var d, k := w.disp, e.call;
            var waits := Looks(c, w, e) && (!d.activated || !d.open || k.check < d.lastDate + 200_000_000);
            var rest := if c.X11? && d.activated && d.open then d.lastDate + 200_000_000 - k.check
                        else 200_000_000;
            Step(c, w, e).disp.timer
            == if d.timer.None? && waits then Some(Timer(k.stamp + rest, rest)) else d.timer
  {
  }

  // ---- No resize is lost -------------------------------------------------

  /** A size that has not been sent yet has a timer to send it. */
  predicate Kept(d: Disp)
  {
    d.lastSize != d.target ==> d.timer.Some?
  }

  /**
   An unsent size is dropped when the send that is due fails, and when its timer fires on a
   closed channel.
   */
  predicate Drops(c: Client, w: World, e: Event)
    requires Enabled(c, w, e)
  {
    match e
    case Fire(k) =>
      && w.disp.activated && !(c.Wayland? && k.fullscreenSetting)
      && w.disp.lastSize != w.disp.target && (!w.disp.open || !k.ok)
    case Capabilities => false
    case Channel(_) => false
    case _ =>
      && Looks(c, w, e) && w.disp.timer.None? && w.disp.activated && w.disp.open
      && w.disp.lastDate + RESIZE_MIN_DELAY <= e.call.check
      && w.disp.lastSize != Aim(w, e) && !e.call.ok
  }

  /** A step loses a resize exactly when it is one of those two. */
  lemma KeptUnlessDropped(c: Client, w: World, e: Event)
    requires Inv(c, w) && Enabled(c, w, e) && Kept(w.disp)
    ensures Kept(Step(c, w, e).disp) <==> !Drops(c, w, e)
  {
    if e.Nudge? || e.Configure? {
      SentAtOnceExactly(c, w, e);
      TimerStartsExactly(c, w, e);
    }
  }

  /**
   A lost size is taken up again exactly by another reason to look, or a window size, whose
   send is not due or does not fail; or if the window gets the size sent last. To the X11
   client, unlike the Wayland client, the same size again is no reason.
   */
  lemma LostUntil(c: Client, w: World, e: Event)
    requires Inv(c, w) && Enabled(c, w, e) && !Kept(w.disp)
    ensures Kept(Step(c, w, e).disp) <==> Looks(c, w, e) && (w.disp.lastSize == Aim(w, e) || !Drops(c, w, e))
  {
  }

  // ---- Whole runs --------------------------------------------------------

  predicate Runs(c: Client, w: World, es: seq<Event>)
    decreases |es|
  {
    es == [] || (w.disp.lastDate <= w.now && Enabled(c, w, es[0]) && Runs(c, Step(c, w, es[0]), es[1..]))
  }

  function After(c: Client, w: World, es: seq<Event>): (r: World)
    requires Runs(c, w, es)
    decreases |es|
  {
    if es == [] then w else After(c, Step(c, w, es[0]), es[1..])
  }

  predicate DropsNothing(c: Client, w: World, es: seq<Event>)
    requires Runs(c, w, es)
    decreases |es|
  {
    es == [] || (!Drops(c, w, es[0]) && DropsNothing(c, Step(c, w, es[0]), es[1..]))
  }

  predicate Initial(w: World)
  {
    && w.disp.lastSize == w.disp.target && w.disp.lastDate == 0
    && !w.disp.activated && w.disp.timer.None? && w.disp.sends == []
  }

  lemma {:induction false} RunKeepsInv(c: Client, w: World, es: seq<Event>)
    requires Inv(c, w) && Runs(c, w, es)
    ensures Inv(c, After(c, w, es))
    decreases |es|
  {
    if es != [] {
      StepKeepsInv(c, w, es[0]);
      RunKeepsInv(c, Step(c, w, es[0]), es[1..]);
    }
  }

  lemma {:induction false} RunKeepsResizes(c: Client, w: World, es: seq<Event>)
    requires Inv(c, w) && Runs(c, w, es) && Kept(w.disp) && DropsNothing(c, w, es)
    ensures Kept(After(c, w, es).disp)
    decreases |es|
  {
    if es != [] {
      StepKeepsInv(c, w, es[0]);
      KeptUnlessDropped(c, w, es[0]);
      RunKeepsResizes(c, Step(c, w, es[0]), es[1..]);
    }
  }

  lemma {:induction false} StartsGrow(c: Client, sends: seq<Send>, i: nat, j: nat)
    requires Spaced(c, sends) && i <= j < |sends|
    ensures Start(c, sends[i]) + (j - i) * RESIZE_MIN_DELAY <= Start(c, sends[j])
    decreases j
  {
    if i < j {
      StartsGrow(c, sends, i, j - 1);
      assert sends[j - 1].stamp + RESIZE_MIN_DELAY <= Start(c, sends[j]);
    }
  }

  /**
   In every run, n sends after a given one at least n times 200 ms have passed, by the dates in
   the X11 client and by the sends themselves in the Wayland client.
   */
  lemma SendsAreSpaced(c: Client, w: World, es: seq<Event>, i: nat, j: nat)
    requires Initial(w) && Runs(c, w, es)
    requires i <= j < |After(c, w, es).disp.sends|
    ensures var sends := After(c, w, es).disp.sends;
            match c
            case X11 => sends[i].stamp + (j - i) * 200_000_000 <= sends[j].stamp
            case Wayland => sends[i].at + (j - i) * 200_000_000 <= sends[j].at
  {
    RunKeepsInv(c, w, es);
    StartsGrow(c, After(c, w, es).disp.sends, i, j);
  }

  /**
   In every run that drops nothing, the size still to be sent has a timer due within
   200 ms, and when that timer runs on an active, open channel the size is sent.
   */
  lemma ResizesAreSent(c: Client, w: World, es: seq<Event>)
    requires Initial(w) && Runs(c, w, es) && DropsNothing(c, w, es)
    ensures Inv(c, After(c, w, es))
    ensures var v := After(c, w, es);
            v.disp.lastSize != v.disp.target ==>
              && v.disp.timer.Some?
              && v.disp.timer.value.due <= v.now + RESIZE_MIN_DELAY
              && forall k :: Enabled(c, v, Fire(k)) && v.disp.activated && v.disp.open
                             && !(c.Wayland? && k.fullscreenSetting) && k.ok ==>
                   var d := Step(c, v, Fire(k)).disp;
                   d.lastSize == v.disp.target && d.timer.None? && |d.sends| == |v.disp.sends| + 1
  {
    RunKeepsInv(c, w, es);
    RunKeepsResizes(c, w, es);
    var v := After(c, w, es);
    if v.disp.lastSize != v.disp.target {
      forall k | Enabled(c, v, Fire(k)) && v.disp.activated && v.disp.open
                 && !(c.Wayland? && k.fullscreenSetting) && k.ok
        ensures var d := Step(c, v, Fire(k)).disp;
                d.lastSize == v.disp.target && d.timer.None? && |d.sends| == |v.disp.sends| + 1
      {
        FireIsNotEarly(c, v, k);
      }
    }
  }

  // ---- The sends of the X11 client themselves ----------------------------

  function Later(a: nat, b: nat): (t: nat)
  {
    if a < b then b else a
  }

  /** Before this instant the client sends nothing. */
  function Earliest(w: World): (t: nat)
  {
    Later(w.now, if w.disp.timer.Some? then w.disp.timer.value.due else w.disp.lastDate + RESIZE_MIN_DELAY)
  }

  lemma AttemptIsNotEarlier(w: World, fromTimer: bool, k: Call)
    requires Inv(X11, w) && InOrder(X11, w.now, k)
    requires fromTimer ==> w.disp.timer.Some? && w.disp.timer.value.due <= k.check
    ensures var d := Attempted(X11, w.disp, fromTimer, k);
            || (d.sends == w.disp.sends + [Send(k.at, k.stamp, w.disp.target, k.settings)] && Earliest(w) <= k.at)
            || (d.sends == w.disp.sends && (!fromTimer ==> Earliest(w) <= Earliest(World(d, k.end))))
  {
  }

  /** A step sends nothing too early, and does not make an earlier send possible. */
  lemma StepIsNotEarlier(w: World, e: Event)
    requires Inv(X11, w) && Enabled(X11, w, e)
    ensures var v := Step(X11, w, e);
            || (v.disp.sends == w.disp.sends && Earliest(w) <= Earliest(v))
            || (|v.disp.sends| == |w.disp.sends| + 1 && w.disp.sends <= v.disp.sends
                && Earliest(w) <= v.disp.sends[|w.disp.sends|].at)
  {
    match e
    case Configure(size, k) =>
      if w.disp.target != size { AttemptIsNotEarlier(w.(disp := w.disp.(target := size)), false, k); }
    case Nudge(k) => AttemptIsNotEarlier(w, false, k);
    case Fire(k) =>
      if !Rearms(X11, w.disp, k) { AttemptIsNotEarlier(w, true, k); }
    case Capabilities =>
    case Channel(_) =>
  }

  lemma {:induction false} SendsOnlyGrow(c: Client, w: World, es: seq<Event>)
    requires Inv(c, w) && Runs(c, w, es)
    ensures w.disp.sends <= After(c, w, es).disp.sends
    decreases |es|
  {
    if es != [] {
      StepKeepsInv(c, w, es[0]);
      SendsOnlyGrow(c, Step(c, w, es[0]), es[1..]);
    }
  }

  lemma {:induction false} NextSendIsNotEarlier(w: World, es: seq<Event>)
    requires Inv(X11, w) && Runs(X11, w, es)
    requires |After(X11, w, es).disp.sends| > |w.disp.sends|
    ensures Earliest(w) <= After(X11, w, es).disp.sends[|w.disp.sends|].at
    decreases |es|
  {
    var v := Step(X11, w, es[0]);
    StepKeepsInv(X11, w, es[0]);
    StepIsNotEarlier(w, es[0]);
    if v.disp.sends == w.disp.sends {
      NextSendIsNotEarlier(v, es[1..]);
    } else {
      SendsOnlyGrow(X11, v, es[1..]);
    }
  }

  /** At this instant an active client on an open channel can send. */
  lemma EarliestSend(w: World) returns (e: Event)
    requires Inv(X11, w) && w.disp.activated && w.disp.open
    ensures Enabled(X11, w, e)
    ensures var v := Step(X11, w, e);
            |v.disp.sends| == |w.disp.sends| + 1 && v.disp.sends[|w.disp.sends|].at == Earliest(w)
  {
    var t := Earliest(w);
    var other := w.disp.lastSettings.(orientation := w.disp.lastSettings.orientation + 1);
    var k := Call(other, false, true, t, t, t, t);
    e := if w.disp.timer.Some? then Fire(k) else Nudge(k);
  }

  /** And any other, if it is activated and the channel opens, which takes no time. */
  lemma EarliestRun(w: World) returns (es: seq<Event>)
    requires Inv(X11, w)
    ensures Runs(X11, w, es) && |After(X11, w, es).disp.sends| > |w.disp.sends|
    ensures After(X11, w, es).disp.sends[|w.disp.sends|].at == Earliest(w)
  {
    var w1 := Step(X11, w, Capabilities);
    var w2 := Step(X11, w1, Channel(true));
    var e := EarliestSend(w2);
    RunFrom(X11, w2, e, []);
    RunFrom(X11, w1, Channel(true), [e] + []);
    RunFrom(X11, w, Capabilities, [Channel(true)] + ([e] + []));
    es := [Capabilities] + ([Channel(true)] + ([e] + []));
    assert After(X11, Step(X11, w2, e), []) == Step(X11, w2, e);
  }

  /**
   From any state of the X11 client, in every continuation the next send is 200 ms after a
   given one, exactly when that is no later than the earliest instant at which the client can
   send: the present, or when its timer is due or the last date is 200 ms old.
   */
  lemma NextSendIsSpacedExactly(w: World, s: Send)
    requires Inv(X11, w)
    ensures (forall es :: Runs(X11, w, es) && |After(X11, w, es).disp.sends| > |w.disp.sends| ==>
                            s.at + RESIZE_MIN_DELAY <= After(X11, w, es).disp.sends[|w.disp.sends|].at)
            <==> s.at + RESIZE_MIN_DELAY <= Earliest(w)
  {
    if s.at + RESIZE_MIN_DELAY <= Earliest(w) {
      forall es | Runs(X11, w, es) && |After(X11, w, es).disp.sends| > |w.disp.sends|
        ensures s.at + RESIZE_MIN_DELAY <= After(X11, w, es).disp.sends[|w.disp.sends|].at
      {
        NextSendIsNotEarlier(w, es);
      }
    } else {
      var es := EarliestRun(w);
    }
  }

  /** Without a timer: the last send went out at its date, or it is 200 ms old already. */
  lemma NextSendIsSpaced(w: World)
    requires Inv(X11, w) && w.disp.timer.None? && w.disp.sends != []
    requires var s := w.disp.sends[|w.disp.sends| - 1];
             w.disp.lastDate == s.stamp <= s.at <= w.now
    ensures var s := w.disp.sends[|w.disp.sends| - 1];
            (forall es :: Runs(X11, w, es) && |After(X11, w, es).disp.sends| > |w.disp.sends| ==>
                            s.at + RESIZE_MIN_DELAY <= After(X11, w, es).disp.sends[|w.disp.sends|].at)
            <==> s.at == s.stamp || s.at + RESIZE_MIN_DELAY <= w.now
  {
    NextSendIsSpacedExactly(w, w.disp.sends[|w.disp.sends| - 1]);
  }

  /** In every run in which each send goes out at its date, the sends themselves are spaced, in both clients. */
  lemma PromptSendsAreSpaced(c: Client, w: World, es: seq<Event>, i: nat, j: nat)
    requires Initial(w) && Runs(c, w, es)
    requires i <= j < |After(c, w, es).disp.sends|
    requires forall n :: 0 <= n < |After(c, w, es).disp.sends| ==>
               After(c, w, es).disp.sends[n].at == After(c, w, es).disp.sends[n].stamp
    ensures var sends := After(c, w, es).disp.sends;
            sends[i].at + (j - i) * RESIZE_MIN_DELAY <= sends[j].at
  {
    SendsAreSpaced(c, w, es, i, j);
  }

  // ---- What the code does not promise ------------------------------------

  const PLAIN := Settings(0, 100, 100, false)

  lemma RunFrom(c: Client, w: World, e: Event, es: seq<Event>)
    requires Enabled(c, w, e) && w.disp.lastDate <= w.now && Runs(c, Step(c, w, e), es)
    ensures Runs(c, w, [e] + es) && After(c, w, [e] + es) == After(c, Step(c, w, e), es)
  {
    assert ([e] + es)[1..] == es;
  }

  /** The X11 client spaces the dates it records; a slow first send can leave the PDUs closer together. */
  lemma X11SendsCanBeClose()
    ensures exists w, es :: Initial(w) && Runs(X11, w, es)
              && var sends := After(X11, w, es).disp.sends;
                 |sends| == 2 && sends[1].at < sends[0].at + RESIZE_MIN_DELAY
  {
    var second := RESIZE_MIN_DELAY;
    var w := World(Disp(Size(1, 1), PLAIN, 0, Size(1, 1), false, true, None, []), 0);
    var e1 := Configure(Size(2, 2), Call(PLAIN, false, true, second, second, 2 * second - 1, 2 * second - 1));
    var e2 := Configure(Size(3, 3), Call(PLAIN, false, true, 2 * second, 2 * second, 2 * second, 2 * second));
    var w1 := Step(X11, w, Capabilities);
    var w2 := Step(X11, w1, e1);
    var w3 := Step(X11, w2, e2);
    RunFrom(X11, w2, e2, []);
    RunFrom(X11, w1, e1, [e2] + []);
    RunFrom(X11, w, Capabilities, [e1] + ([e2] + []));
    assert After(X11, w3, []) == w3;
    assert |w3.disp.sends| == 2;
  }

  /** A size that waits for its timer is lost when the timer fires on a channel that was closed meanwhile. */
  lemma ClosedChannelLosesResize()
    ensures exists w, es :: Initial(w) && Runs(X11, w, es) && !Kept(After(X11, w, es).disp)
    ensures exists w, es :: Initial(w) && Runs(Wayland, w, es) && !Kept(After(Wayland, w, es).disp)
  {
    LosingRun(X11);
    LosingRun(Wayland);
  }

  /** And so is one whose send fails: nothing tries again. */
  lemma FailedSendLosesResize(c: Client)
    ensures exists w, es :: Initial(w) && Runs(c, w, es) && !Kept(After(c, w, es).disp)
                            && After(c, w, es).disp.open
  {
    var delay := RESIZE_MIN_DELAY;
    var w := World(Disp(Size(1, 1), PLAIN, 0, Size(1, 1), false, true, None, []), 0);
    var e := Configure(Size(2, 2), Call(PLAIN, false, false, delay, delay, delay, delay));
    var w1 := Step(c, w, Capabilities);
    var w2 := Step(c, w1, e);
    RunFrom(c, w1, e, []);
    RunFrom(c, w, Capabilities, [e] + []);
    assert After(c, w2, []) == w2;
  }

  lemma LosingRun(c: Client)
    ensures exists w, es :: Initial(w) && Runs(c, w, es) && !Kept(After(c, w, es).disp)
  {
    var delay := RESIZE_MIN_DELAY;
    var w := World(Disp(Size(1, 1), PLAIN, 0, Size(1, 1), false, true, None, []), 0);
    var e1 := Configure(Size(2, 2), Call(PLAIN, false, true, 0, 0, 0, 0));
    var e3 := Fire(Call(PLAIN, false, true, delay, delay, delay, delay));
    var w1 := Step(c, w, Capabilities);
    var w2 := Step(c, w1, e1);
    var w3 := Step(c, w2, Channel(false));
    var w4 := Step(c, w3, e3);
    RunFrom(c, w3, e3, []);
    RunFrom(c, w2, Channel(false), [e3] + []);
    RunFrom(c, w1, e1, [Channel(false)] + ([e3] + []));
    RunFrom(c, w, Capabilities, [e1] + ([Channel(false)] + ([e3] + [])));
    assert After(c, w4, []) == w4;
  }

  // ---- The X11 client ----------------------------------------------------

  class XfDisp {
    var lastSentWidth: int
    var lastSentHeight: int
    var lastSettings: Settings
    var lastSentDate: nat
    var targetWidth: int
    var targetHeight: int
    var activated: bool
    var open: bool
    var timer: Option<Timer>
    var sends: seq<Send>

    ghost function View(): (d: Disp)
      reads this
    {
      Disp(Size(lastSentWidth, lastSentHeight), lastSettings, lastSentDate, Size(targetWidth, targetHeight),
           activated, open, timer, sends)
    }

    method UpdateTimer(interval: nat, now: nat)
      modifies this`timer
      ensures View() == old(View()).(timer := Started(old(timer), now, interval))
    {
      if timer == None { timer := Some(Timer(now + interval, interval)); }
    }

    /** xf_disp_sendResize. */
    method SendResize(fromTimer: bool, k: Call) returns (done: bool)
      requires lastSentDate <= k.check
      modifies this
      ensures View() == Attempted(X11, old(View()), fromTimer, k)
      ensures done <==> !Fails(X11, old(View()), fromTimer, k)
    {
      if timer.Some? && !fromTimer { return true; }
      if !activated || !open {
        UpdateTimer(RESIZE_MIN_DELAY, k.stamp);
        return true;
      }
      var diff := k.check - lastSentDate;
      if diff < RESIZE_MIN_DELAY {
        UpdateTimer(RESIZE_MIN_DELAY - diff, k.stamp);
        return true;
      }
      if lastSentWidth == targetWidth && lastSentHeight == targetHeight && lastSettings == k.settings {
        return true;
      }
      lastSentDate := k.stamp;
      if !k.ok { return false; }
      sends := sends + [Send(k.at, k.stamp, Size(targetWidth, targetHeight), k.settings)];
      lastSentWidth, lastSentHeight, lastSettings := targetWidth, targetHeight, k.settings;
      return true;
    }

    /** xf_disp_queueResize. */
    method QueueResize(width: int, height: int, k: Call) returns (done: bool)
      requires lastSentDate <= k.check
      modifies this
      ensures View() == Configured(X11, old(View()), Size(width, height), k)
      ensures done <==> old(View()).target == Size(width, height)
                        || !Fails(X11, old(View()).(target := Size(width, height)), false, k)
    {
      if targetWidth == width && targetHeight == height { return true; }
      targetWidth, targetHeight := width, height;
      done := SendResize(false, k);
    }

    /** xf_disp_OnTimer, with the rescheduling done by the timer that calls it. */
    method OnTimer(k: Call)
      requires timer.Some? && lastSentDate <= k.check
      modifies this
      ensures View() == Fired(X11, old(View()), k)
    {
      if !activated {
        timer := Some(Timer(k.end + timer.value.interval, timer.value.interval));
        return;
      }
      var _ := SendResize(true, k);
      timer := None;
    }
  }

  // ---- The Wayland client ------------------------------------------------

  class WlfDisp {
    var lastSentWidth: int
    var lastSentHeight: int
    var lastSettings: Settings
    var lastSentDate: nat
    var targetWidth: int
    var targetHeight: int
    var activated: bool
    var open: bool
    var timer: Option<Timer>
    var sends: seq<Send>

    ghost function View(): (d: Disp)
      reads this
    {
      Disp(Size(lastSentWidth, lastSentHeight), lastSettings, lastSentDate, Size(targetWidth, targetHeight),
           activated, open, timer, sends)
    }

    method UpdateTimer(interval: nat, now: nat)
      modifies this`timer
      ensures View() == old(View()).(timer := Started(old(timer), now, interval))
    {
      if timer == None { timer := Some(Timer(now + interval, interval)); }
    }

    /** wlf_disp_sendResize: it looks at the running timer last, and dates the send afterwards. */
    method SendResize(fromTimer: bool, k: Call) returns (done: bool)
      requires lastSentDate <= k.check
      modifies this
      ensures View() == Attempted(Wayland, old(View()), fromTimer, k)
      ensures done <==> !Fails(Wayland, old(View()), fromTimer, k)
    {
      if !activated || !open {
        UpdateTimer(RESIZE_MIN_DELAY, k.stamp);
        return true;
      }
      var diff := k.check - lastSentDate;
      if diff < RESIZE_MIN_DELAY {
        UpdateTimer(RESIZE_MIN_DELAY, k.stamp);
        return true;
      }
      if !fromTimer && timer.Some? { return true; }
      if lastSentWidth == targetWidth && lastSentHeight == targetHeight && lastSettings == k.settings {
        return true;
      }
      if !k.ok { return false; }
      sends := sends + [Send(k.at, k.stamp, Size(targetWidth, targetHeight), k.settings)];
      lastSentDate := k.stamp;
      lastSentWidth, lastSentHeight, lastSettings := targetWidth, targetHeight, k.settings;
      return true;
    }

    /** wlf_disp_handle_configure. */
    method HandleConfigure(width: int, height: int, k: Call) returns (done: bool)
      requires lastSentDate <= k.check
      modifies this
      ensures View() == Configured(Wayland, old(View()), Size(width, height), k)
      ensures done <==> !Fails(Wayland, old(View()).(target := Size(width, height)), false, k)
    {
      targetWidth, targetHeight := width, height;
      done := SendResize(false, k);
    }

    /** wlf_disp_OnTimer, with the rescheduling done by the timer that calls it. */
    method OnTimer(k: Call)
      requires timer.Some? && lastSentDate <= k.check
      modifies this
      ensures View() == Fired(Wayland, old(View()), k)
    {
      if !activated || k.fullscreenSetting {
        timer := Some(Timer(k.end + timer.value.interval, timer.value.interval));
        return;
      }
      var _ := SendResize(true, k);
      timer := None;
    }
  }
}
