/**
 The handler thread of channels/client/addin.c: messages are posted to a queue,
 a worker takes and handles them one by one, and quitting posts a last item and
 waits for the worker to end. Each step of either side is atomic; a run is any
 interleaving of them.
 */
module ChannelWorker {
  import opened WinprStream
  import opened ChannelReassembly
  import opened RingQueue

  datatype Item = Data(message: Message) | Quit

  datatype Worker = Idle | Busy(message: Message) | Exited(failed: bool)

  datatype Closing = Open | Waiting | Returned

  /** `posted` and `handled` are the messages accepted by the queue and given to the handler so far. */
  datatype State = State(
    posted: seq<Message>, queue: seq<Item>, worker: Worker, handled: seq<Message>, closing: Closing)

  /** Whether the handler reports an error, given the messages it has seen before. */
  type Handler = (seq<Message>, Message) -> bool

  datatype Action = Post(message: Message) | Take | Handle | PostQuit | Return

  const INITIAL: State := State([], [], Idle, [], Open)

  /**
   A queue that has been sent WMQ_QUIT is closed and rejects further posts; once
   the quit call has returned the handler object is gone.
   */
  predicate Next(fails: Handler, s: State, a: Action, t: State)
  {
    match a
    case Post(m) =>
      && !s.closing.Returned?
      && t == if s.closing.Open? then s.(posted := s.posted + [m], queue := s.queue + [Data(m)]) else s
    case Take =>
      && s.worker.Idle? && s.queue != []
      && t == s.(queue := s.queue[1..],
                 worker := match s.queue[0] case Quit => Exited(false) case Data(m) => Busy(m))
    case Handle =>
      && s.worker.Busy?
      && t == s.(handled := s.handled + [s.worker.message],
                 worker := if fails(s.handled, s.worker.message) then Exited(true) else Idle)
    case PostQuit =>
      && s.closing.Open?
      && t == s.(queue := s.queue + [Quit], closing := Waiting)
    case Return =>
      && s.closing.Waiting? && s.worker.Exited?
      && t == s.(queue := [], closing := Returned)
  }

  ghost predicate Run(fails: Handler, states: seq<State>, actions: seq<Action>)
  {
    && |states| == |actions| + 1 && states[0] == INITIAL
    && forall i :: 0 <= i < |actions| ==> Next(fails, states[i], actions[i], states[i + 1])
  }

  // ---- The reference: handling without a thread --------------------------

  /** Handling `rest` after `done` in order, stopping behind the first message that fails. */
  function UntilError(fails: Handler, done: seq<Message>, rest: seq<Message>): (handled: seq<Message>)
    decreases |rest|
  {
    if rest == [] then done
    else if fails(done, rest[0]) then done + [rest[0]]
    else UntilError(fails, done + [rest[0]], rest[1..])
  }

  /** None of the messages, handled in order, fails. */
  ghost predicate Clean(fails: Handler, ms: seq<Message>)
  {
    forall k :: 0 <= k < |ms| ==> !fails(ms[..k], ms[k])
  }

  lemma CleanExtend(fails: Handler, ms: seq<Message>, m: Message)
    ensures Clean(fails, ms + [m]) <==> Clean(fails, ms) && !fails(ms, m)
  {
    var all := ms + [m];
    assert forall k :: 0 <= k < |ms| ==> all[..k] == ms[..k] && all[k] == ms[k];
    assert all[..|ms|] == ms && all[|ms|] == m;
    if Clean(fails, all) {
      forall k | 0 <= k < |ms|
        ensures !fails(ms[..k], ms[k])
      {
        assert !fails(all[..k], all[k]);
      }
    }
  }

  /** A clean beginning can be taken as done. */
  lemma {:induction false} SkipClean(fails: Handler, done: seq<Message>, rest: seq<Message>)
    requires Clean(fails, done)
    ensures UntilError(fails, [], done + rest) == UntilError(fails, done, rest)
    decreases |done|
  {
    if done == [] {
      assert done + rest == rest;
    } else {
      var n := |done| - 1;
      var before, m := done[..n], done[n];
      assert done == before + [m];
      CleanExtend(fails, before, m);
      SkipClean(fails, before, [m] + rest);
      assert before + ([m] + rest) == done + rest && ([m] + rest)[1..] == rest;
    }
  }

  /** In direct mode every message reaches the handler; this is the part up to the first error. */
  function Direct(fails: Handler, posted: seq<Message>): (handled: seq<Message>)
  {
    UntilError(fails, [], posted)
  }

  lemma DirectOfClean(fails: Handler, posted: seq<Message>)
    requires Clean(fails, posted)
    ensures Direct(fails, posted) == posted
  {
    SkipClean(fails, posted, []);
    assert posted + [] == posted;
  }

  /** Direct mode handles the messages in order, up to and including the first that fails. */
  lemma {:induction false} UntilErrorExactly(fails: Handler, done: seq<Message>, rest: seq<Message>) returns (n: nat)
    requires Clean(fails, done)
    ensures n <= |rest| && UntilError(fails, done, rest) == done + rest[..n]
    ensures Clean(fails, done + rest[..n]) ==> n == |rest|
    ensures !Clean(fails, done + rest[..n]) ==>
              n > 0 && Clean(fails, done + rest[..n - 1]) && fails(done + rest[..n - 1], rest[n - 1])
    decreases |rest|
  {
    n := 0;
    if rest == [] {
      assert done + rest[..0] == done;
    } else {
      var more := done + [rest[0]];
      CleanExtend(fails, done, rest[0]);
      if fails(done, rest[0]) {
        n := 1;
        assert done + rest[..1] == more && done + rest[..0] == done;
        assert more[..|done|] == done && more[|done|] == rest[0];
      } else {
        var m := UntilErrorExactly(fails, more, rest[1..]);
        n := m + 1;
        assert more + rest[1..][..m] == done + rest[..n];
        assert m > 0 ==> more + rest[1..][..m - 1] == done + rest[..n - 1] && rest[1..][m - 1] == rest[n - 1];
      }
    }
  }

  /** What direct mode handles of the messages posted. */
  lemma DirectExactly(fails: Handler, posted: seq<Message>) returns (n: nat)
    ensures n <= |posted| && Direct(fails, posted) == posted[..n]
    ensures forall k :: 0 <= k < n - 1 ==> !fails(posted[..k], posted[k])
    ensures n < |posted| ==> n > 0 && fails(posted[..n - 1], posted[n - 1])
  {
    n := UntilErrorExactly(fails, [], posted);
    var handled := posted[..n];
    assert [] + handled == handled;
    assert n > 0 ==> [] + posted[..n - 1] == posted[..n - 1];
    forall k | 0 <= k < n - 1 ensures !fails(posted[..k], posted[k]) {
      assert handled[..k] == posted[..k] && posted[..n - 1][..k] == posted[..k];
    }
  }

  lemma {:induction false} UntilErrorExtends(fails: Handler, done: seq<Message>, rest: seq<Message>)
    ensures done <= UntilError(fails, done, rest) <= done + rest
    decreases |rest|
  {
    if rest != [] && !fails(done, rest[0]) {
      UntilErrorExtends(fails, done + [rest[0]], rest[1..]);
      assert done + [rest[0]] + rest[1..] == done + rest;
    }
  }

  // ---- The invariant -----------------------------------------------------

  function Payload(x: Item): (ms: seq<Message>)
  {
    match x case Data(m) => [m] case Quit => []
  }

  function Pending(queue: seq<Item>): (ms: seq<Message>)
  {
    if queue == [] then [] else Payload(queue[0]) + Pending(queue[1..])
  }

  lemma {:induction false} PendingAppend(q: seq<Item>, x: Item)
    ensures Pending(q + [x]) == Pending(q) + Payload(x)
  {
    if q == [] {
      assert q + [x] == [x] && [x][1..] == [];
    } else {
      PendingAppend(q[1..], x);
      assert (q + [x])[0] == q[0] && (q + [x])[1..] == q[1..] + [x];
      assert Payload(q[0]) + (Pending(q[1..]) + Payload(x)) == Payload(q[0]) + Pending(q[1..]) + Payload(x);
    }
  }

  /** Accepted but not yet handled. */
  function Rest(s: State): (ms: seq<Message>)
  {
    (if s.worker.Busy? then [s.worker.message] else []) + Pending(s.queue)
  }

  predicate QuitOnlyLast(s: State)
  {
    && (forall i :: 0 <= i < |s.queue| - 1 ==> s.queue[i].Data?)
    && (s.closing.Open? ==> forall i :: 0 <= i < |s.queue| ==> s.queue[i].Data?)
    && (s.closing.Waiting? && !s.worker.Exited? ==> s.queue != [] && s.queue[|s.queue| - 1].Quit?)
  }

  ghost predicate Inv(fails: Handler, s: State)
  {
    && QuitOnlyLast(s)
    && (!s.closing.Returned? ==> s.posted == s.handled + Rest(s))
    && (s.closing.Returned? ==> s.worker.Exited?)
    && match s.worker
       case Exited(true) =>
         && s.handled != []
         && var n := |s.handled| - 1;
            Clean(fails, s.handled[..n]) && fails(s.handled[..n], s.handled[n]) && s.handled <= s.posted
       case Exited(false) =>
         Clean(fails, s.handled) && s.handled == s.posted && s.queue == [] && !s.closing.Open?
       case _ =>
         Clean(fails, s.handled)
  }

  lemma InvPost(fails: Handler, s: State, m: Message, t: State)
    requires Inv(fails, s) && Next(fails, s, Post(m), t)
    ensures Inv(fails, t)
  {
    if s.closing.Open? {
      PendingAppend(s.queue, Data(m));
      assert t.posted == t.handled + Rest(t);
    }
  }

  lemma InvTake(fails: Handler, s: State, t: State)
    requires Inv(fails, s) && Next(fails, s, Take, t)
    ensures Inv(fails, t)
  {
    if s.queue[0].Quit? {
      assert |s.queue| == 1;
    }
    assert Rest(t) == Rest(s);
  }

  lemma InvHandle(fails: Handler, s: State, t: State)
    requires Inv(fails, s) && Next(fails, s, Handle, t)
    ensures Inv(fails, t)
  {
    CleanExtend(fails, s.handled, s.worker.message);
    assert t.handled[..|s.handled|] == s.handled;
    assert t.handled + Rest(t) == s.handled + Rest(s);
  }

  lemma InvPostQuit(fails: Handler, s: State, t: State)
    requires Inv(fails, s) && Next(fails, s, PostQuit, t)
    ensures Inv(fails, t)
  {
    PendingAppend(s.queue, Quit);
    assert Rest(t) == Rest(s);
  }

  lemma InvReturn(fails: Handler, s: State, t: State)
    requires Inv(fails, s) && Next(fails, s, Return, t)
    ensures Inv(fails, t)
  {
  }

  lemma InvNext(fails: Handler, s: State, a: Action, t: State)
    requires Inv(fails, s) && Next(fails, s, a, t)
    ensures Inv(fails, t)
  {
    match a {
      case Post(m) => InvPost(fails, s, m, t);
      case Take => InvTake(fails, s, t);
      case Handle => InvHandle(fails, s, t);
      case PostQuit => InvPostQuit(fails, s, t);
      case Return => InvReturn(fails, s, t);
    }
  }

  lemma {:induction false} InvRun(fails: Handler, states: seq<State>, actions: seq<Action>, i: nat)
    requires Run(fails, states, actions) && i < |states|
    ensures Inv(fails, states[i])
  {
    if i > 0 {
      InvRun(fails, states, actions, i - 1);
      InvNext(fails, states[i - 1], actions[i - 1], states[i]);
    }
  }

  // ---- Safety over whole runs --------------------------------------------

  /**
   In every state of every run the messages handled are a beginning of those
   posted, and of what direct mode would have handled up to its first error;
   once the worker has ended, they are all of that.
   */
  lemma HandledAsDirect(fails: Handler, states: seq<State>, actions: seq<Action>, i: nat)
    requires Run(fails, states, actions) && i < |states|
    ensures states[i].handled <= states[i].posted
    ensures states[i].handled <= Direct(fails, states[i].posted)
    ensures states[i].worker.Exited? ==> states[i].handled == Direct(fails, states[i].posted)
  {
    InvRun(fails, states, actions, i);
    HandledInState(fails, states[i]);
  }

  lemma HandledInState(fails: Handler, s: State)
    requires Inv(fails, s)
    ensures s.handled <= s.posted && s.handled <= Direct(fails, s.posted)
    ensures s.worker.Exited? ==> s.handled == Direct(fails, s.posted)
  {
    match s.worker {
      case Exited(true) =>
        var n := |s.handled| - 1;
        var rest := s.posted[n..];
        assert s.posted == s.handled[..n] + rest && rest[0] == s.handled[n];
        SkipClean(fails, s.handled[..n], rest);
        assert s.handled == s.handled[..n] + [rest[0]];
      case Exited(false) =>
        DirectOfClean(fails, s.posted);
      case _ =>
        SkipClean(fails, s.handled, Rest(s));
        UntilErrorExtends(fails, s.handled, Rest(s));
    }
  }

  /** The messages posted before the quit, going by the actions of a run. */
  function PostedBy(actions: seq<Action>): (ms: seq<Message>)
  {
    if actions == [] then []
    else
      var before := PostedBy(actions[..|actions| - 1]);
      var a := actions[|actions| - 1];
      if a.Post? && PostQuit !in actions then before + [a.message] else before
  }

  /** A post is accepted exactly while no quit has been posted. */
  lemma PostStep(fails: Handler, s: State, a: Action, t: State)
    requires Next(fails, s, a, t)
    ensures t.posted == if a.Post? && s.closing.Open? then s.posted + [a.message] else s.posted
    ensures t.closing.Open? <==> s.closing.Open? && a != PostQuit
  {
  }

  lemma PostedBySnoc(actions: seq<Action>, a: Action)
    ensures PostedBy(actions + [a])
            == if a.Post? && PostQuit !in actions then PostedBy(actions) + [a.message] else PostedBy(actions)
  {
    var all := actions + [a];
    assert all[..|actions|] == actions && all[|actions|] == a;
    assert PostQuit in all <==> PostQuit in actions || a == PostQuit;
  }

  /** In every run, what counts as posted is what was posted before the quit, and all of that. */
  lemma {:induction false} PostedExactly(fails: Handler, states: seq<State>, actions: seq<Action>, i: nat)
    requires Run(fails, states, actions) && i < |states|
    ensures states[i].posted == PostedBy(actions[..i])
    ensures states[i].closing.Open? <==> PostQuit !in actions[..i]
    decreases i
  {
    if i > 0 {
      PostedExactly(fails, states, actions, i - 1);
      PostStep(fails, states[i - 1], actions[i - 1], states[i]);
      PostedBySnoc(actions[..i - 1], actions[i - 1]);
      assert actions[..i] == actions[..i - 1] + [actions[i - 1]];
    }
  }

  /** When quit returns, the handler has had what was posted before it, as direct mode would have given it. */
  lemma PostedIsHandled(fails: Handler, states: seq<State>, actions: seq<Action>, i: nat)
    requires Run(fails, states, actions) && i < |states| && states[i].closing.Returned?
    ensures states[i].handled == Direct(fails, PostedBy(actions[..i]))
    ensures Clean(fails, PostedBy(actions[..i])) ==> states[i].handled == PostedBy(actions[..i])
  {
    PostedExactly(fails, states, actions, i);
    QuitDrains(fails, states, actions, i);
  }

  /** When quit returns, everything posted has been handled, unless the handler failed before. */
  lemma QuitDrains(fails: Handler, states: seq<State>, actions: seq<Action>, i: nat)
    requires Run(fails, states, actions) && i < |states| && states[i].closing.Returned?
    ensures states[i].handled == Direct(fails, states[i].posted)
    ensures Clean(fails, states[i].posted) ==> states[i].handled == states[i].posted
  {
    InvRun(fails, states, actions, i);
    HandledInState(fails, states[i]);
    if Clean(fails, states[i].posted) {
      DirectOfClean(fails, states[i].posted);
    }
  }

  lemma NoStepAfterReturn(fails: Handler, s: State, a: Action, t: State)
    requires Inv(fails, s) && s.closing.Returned?
    ensures !Next(fails, s, a, t)
  {
  }

  /** And nothing happens afterwards: the run is over. */
  lemma NothingAfterQuit(fails: Handler, states: seq<State>, actions: seq<Action>, i: nat)
    requires Run(fails, states, actions) && i < |states| && states[i].closing.Returned?
    ensures i == |states| - 1
  {
    InvRun(fails, states, actions, i);
    if i < |actions| {
      NoStepAfterReturn(fails, states[i], actions[i], states[i + 1]);
    }
  }

  /** Steps left for the worker before it ends. */
  function Work(s: State): (n: nat)
  {
    2 * |s.queue| + (if s.worker.Busy? then 1 else 0) + (if s.closing.Returned? then 0 else 1)
  }

  /** While quit waits, some step other than a rejected post is possible, and each brings its return nearer. */
  lemma QuitComesBack(fails: Handler, states: seq<State>, actions: seq<Action>, i: nat)
    requires Run(fails, states, actions) && i < |states| && states[i].closing.Waiting?
    ensures exists a: Action, t :: !a.Post? && Next(fails, states[i], a, t)
    ensures forall a, t :: Next(fails, states[i], a, t) ==> t == states[i] || Work(t) < Work(states[i])
  {
    InvRun(fails, states, actions, i);
    var s := states[i];
    match s.worker {
      case Exited(_) => assert Next(fails, s, Return, s.(queue := [], closing := Returned));
      case Busy(m) =>
        assert Next(fails, s, Handle, s.(handled := s.handled + [m],
                    worker := if fails(s.handled, m) then Exited(true) else Idle));
      case Idle =>
        assert Next(fails, s, Take, s.(queue := s.queue[1..],
                    worker := match s.queue[0] case Quit => Exited(false) case Data(m) => Busy(m)));
    }
  }

  /** From chunks on the wire to the handler: what was sent is what is handled. */
  lemma SentIsHandled(fails: Handler, states: seq<State>, actions: seq<Action>, i: nat,
                      cs: seq<Chunk>, cuts: seq<seq<seq<Byte>>>)
    requires Run(fails, states, actions) && i < |states| && states[i].closing.Returned?
    requires forall k :: 0 <= k < |cuts| ==> Concat(cuts[k]) != []
    requires WithoutControl(cs) == ChunksOfAll(cuts) && states[i].posted == Delivered(None, cs)
    ensures states[i].handled == Direct(fails, Messages(cuts))
  {
    MessagesArrive(cs, cuts);
    QuitDrains(fails, states, actions, i);
  }

  // ---- The worker's loop -------------------------------------------------

  /** The messages queued before the first quit item. */
  function BeforeQuit(queue: seq<Item>): (ms: seq<Message>)
  {
    if queue == [] || queue[0].Quit? then [] else [queue[0].message] + BeforeQuit(queue[1..])
  }

  /** How the loop stands: it met its quit item, a message failed, or it waits for the queue to fill. */
  datatype Status = Ended | Failed | WaitsForMore

  /** A stretch of a run. */
  ghost predicate Path(fails: Handler, states: seq<State>, actions: seq<Action>)
  {
    && |states| == |actions| + 1
    && forall i :: 0 <= i < |actions| ==> Next(fails, states[i], actions[i], states[i + 1])
  }

  lemma PathExtend(fails: Handler, states: seq<State>, actions: seq<Action>, a: Action, t: State)
    requires Path(fails, states, actions) && Next(fails, states[|actions|], a, t)
    ensures Path(fails, states + [t], actions + [a])
  {
  }

  function WorkerAt(status: Status): (w: Worker)
  {
    match status case Ended => Exited(false) case Failed => Exited(true) case WaitsForMore => Idle
  }

  /**
   channel_client_thread_proc on the queue as it is; without a quit item it goes on waiting.
   What it does is a stretch of a run of the worker, from any state with this queue.
   */
  method ThreadProc(q: Queue<Item>, fails: Handler, ghost s: State)
    returns (handled: seq<Message>, status: Status, ghost states: seq<State>, ghost actions: seq<Action>)
    requires q.Valid() && s.queue == q.Contents() && s.worker == Idle && s.handled == []
    modifies q, q.items
    ensures handled == Direct(fails, BeforeQuit(old(q.Contents())))
    ensures status.Failed? <==> !Clean(fails, BeforeQuit(old(q.Contents())))
    ensures !status.Failed? ==> (status.Ended? <==> Quit in old(q.Contents()))
    ensures q.Valid() && (status.WaitsForMore? ==> q.Contents() == [])
    ensures Path(fails, states, actions) && states[0] == s
    ensures states[|actions|] == s.(queue := q.Contents(), handled := handled, worker := WorkerAt(status))
  {
    handled, status := [], WaitsForMore;
    states, actions := [s], [];
    ghost var all, items := BeforeQuit(q.Contents()), q.items;
    while q.size > 0
      invariant q.Valid() && q.items == items && (Quit in q.Contents() <==> Quit in old(q.Contents()))
      invariant all == handled + BeforeQuit(q.Contents()) && Clean(fails, handled) && status == WaitsForMore
      invariant Path(fails, states, actions) && states[0] == s
      invariant states[|actions|] == s.(queue := q.Contents(), handled := handled, worker := Idle)
      decreases |q.Contents()|
    {
      ghost var queued := q.Contents();
      var next := q.Dequeue(Quit);
      var message := next.value;
      states, actions := TakeStep(fails, states, actions);
      if message.Quit? {
        AllHandled(fails, all, handled);
        status := Ended;
        return;
      }
      OneHandled(fails, all, handled, queued);
      var failed := fails(handled, message.message);
      states, actions := HandleStep(fails, states, actions);
      handled := handled + [message.message];
      if failed {
        status := Failed;
        return;
      }
    }
    AllHandled(fails, all, handled);
  }

  lemma TakeStep(fails: Handler, states: seq<State>, actions: seq<Action>)
    returns (states': seq<State>, actions': seq<Action>)
    requires Path(fails, states, actions)
    requires var s := states[|actions|]; s.worker.Idle? && s.queue != []
    ensures Path(fails, states', actions') && states'[0] == states[0]
    ensures var s := states[|actions|];
            states'[|actions'|] == s.(queue := s.queue[1..],
                                      worker := match s.queue[0] case Quit => Exited(false) case Data(m) => Busy(m))
  {
    var s := states[|actions|];
    var t := s.(queue := s.queue[1..],
                worker := match s.queue[0] case Quit => Exited(false) case Data(m) => Busy(m));
    PathExtend(fails, states, actions, Take, t);
    states', actions' := states + [t], actions + [Take];
  }

  lemma HandleStep(fails: Handler, states: seq<State>, actions: seq<Action>)
    returns (states': seq<State>, actions': seq<Action>)
    requires Path(fails, states, actions) && states[|actions|].worker.Busy?
    ensures Path(fails, states', actions') && states'[0] == states[0]
    ensures var s := states[|actions|];
            var m := s.worker.message;
            states'[|actions'|] == s.(handled := s.handled + [m],
                                      worker := if fails(s.handled, m) then Exited(true) else Idle)
  {
    var s := states[|actions|];
    var m := s.worker.message;
    var t := s.(handled := s.handled + [m], worker := if fails(s.handled, m) then Exited(true) else Idle);
    PathExtend(fails, states, actions, Handle, t);
    states', actions' := states + [t], actions + [Handle];
  }

  lemma AllHandled(fails: Handler, all: seq<Message>, handled: seq<Message>)
    requires Clean(fails, handled) && all == handled + []
    ensures handled == Direct(fails, all) && Clean(fails, all)
  {
    DirectOfClean(fails, handled);
    assert all == handled;
  }

  lemma OneHandled(fails: Handler, all: seq<Message>, handled: seq<Message>, queued: seq<Item>)
    requires Clean(fails, handled) && all == handled + BeforeQuit(queued)
    requires queued != [] && queued[0].Data?
    ensures (Quit in queued[1..] <==> Quit in queued) && all == handled + [queued[0].message] + BeforeQuit(queued[1..])
    ensures fails(handled, queued[0].message) ==>
              handled + [queued[0].message] == Direct(fails, all) && !Clean(fails, all)
    ensures !fails(handled, queued[0].message) ==> Clean(fails, handled + [queued[0].message])
  {
    var m, more := queued[0].message, BeforeQuit(queued[1..]);
    assert queued == [queued[0]] + queued[1..];
    assert handled + ([m] + more) == handled + [m] + more;
    CleanExtend(fails, handled, m);
    if fails(handled, m) {
      SkipClean(fails, handled, [m] + more);
      assert all[..|handled|] == handled && all[|handled|] == m;
    }
  }
}
