/**
The router of the Go bindings: a worker writes requests to a message pipe, keeps a response channel per request id,
and hands every response to the channel of its id.  Callers, the peer and the asynchronous waiter are interleaved
with the worker, which takes a step per received event and per message read.  The peer may send anything at any time.
*/
module GoRouter {
  import opened Collections

  /** What a caller reads from its response channel: the response with its request id, or an error. */
  datatype Reply = Response(id: nat) | Failure

  /** What lies in the pipe: a response with a request id, or bytes that do not parse. */
  datatype Incoming = Message(id: nat) | Garbage

  /** A queued message with its request id; one-way messages have no response channel. */
  datatype Request = Request(id: nat, chan: Option<nat>)

  /**
  The worker is at its `select`, reading messages, out of its loop, answering what is registered, or answering what is
  queued.  It is blocked when it sends to the nil channel of an unknown id, and jammed when the drain meets a one-way
  message.
  */
  datatype Phase = Selecting | Dispatching | Stopping | Failing | Draining | Blocked | Jammed

  /**
  Response channels are numbered by the calls that made them; `ids[c]` is the request id of channel `c`.  `lost` are
  the channels of requests whose write failed.
  */
  datatype State = State(
    phase: Phase,
    closed: bool,                     // the handle is closed: callers are turned away
    queue: seq<Request>,              // requestChan
    responders: map<nat, nat>,
    waitId: nat,
    armed: bool,                      // the waiter has accepted a wait and not answered it
    arrived: Option<bool>,            // waitChan: the waiter's answer, true for OK
    waits: nat,                       // how many waits there have been
    incoming: seq<Incoming>,
    peerClosed: bool,
    ids: seq<nat>,
    replies: seq<(nat, Reply)>,       // everything sent to response channels
    lost: set<nat>,
    cancelled: seq<nat>)              // the waits that were cancelled

  const Init := State(Selecting, false, [], map[], 0, false, None, 0, [], false, [], [], {}, [])

  // ---------------------------------------------------------------- the worker

  /** One round of the loop of `readAndDispatchOutstandingMessages`. */
  function ReadOne(s: State): State {
    if s.waitId != 0 || s.responders == map[] then s.(phase := Selecting)
    else if s.incoming == [] then
      if s.peerClosed then s.(phase := Stopping)
      else s.(phase := Selecting, waitId := s.waits + 1, waits := s.waits + 1, armed := true)
    else
      var rest := s.(incoming := s.incoming[1..]);
      match s.incoming[0]
      case Garbage => rest.(phase := Stopping)
      case Message(id) => if id in s.responders then Answer(rest, id, Response(id)) else rest.(phase := Blocked)
  }

  /** A registered channel gets its reply. */
  function Answer(s: State, id: nat, reply: Reply): State
    requires id in s.responders
  {
    s.(replies := s.replies + [(s.responders[id], reply)], responders := s.responders - {id})
  }

  /** The whole loop, if nothing happens in between. */
  function Dispatch(s: State): State
    decreases |s.incoming|, if s.phase == Dispatching then 1 else 0
  {
    if s.phase != Dispatching then s else Dispatch(ReadOne(s))
  }

  datatype Step =
    | Accept(message: nat)               // a one-way message
    | AcceptWithResponse(id: nat)
    | PeerSends(incoming: Incoming)
    | PeerCloses
    | WaiterAnswers(ok: bool)
    | TakeWait                           // the worker receives from waitChan
    | TakeRequest(written: bool)         // the worker receives a request and tries to write it
    | TakeDone                           // Close has been called
    | Read                               // one round of the loop that reads messages
    | Cancel                             // cancelIfWaiting
    | FailOne(id: nat)                   // one registered channel gets the error
    | FailedAll                          // all of them have it
    | DrainOne                           // one queued request gets the error
    | CloseHandle

  predicate Enabled(s: State, step: Step) {
    match step
    case Accept(_) => true
    case AcceptWithResponse(id) => id == 0 || id !in s.ids  // callers issue unique ids
    case PeerSends(_) => true
    case PeerCloses => true
    case WaiterAnswers(_) => s.armed
    case TakeWait => s.phase == Selecting && s.arrived.Some?
    case TakeRequest(_) => s.phase == Selecting && s.queue != []
    case TakeDone => s.phase == Selecting
    case Read => s.phase == Dispatching
    case Cancel => s.phase == Stopping
    case FailOne(id) => s.phase == Failing && id in s.responders
    case FailedAll => s.phase == Failing && s.responders == map[]
    case DrainOne => s.phase == Draining && s.queue != []
    case CloseHandle => s.phase == Draining || s.phase == Jammed
  }

  function Next(s: State, step: Step): State
    requires Enabled(s, step)
  {
    match step
    case Accept(_) => if s.closed then s else s.(queue := s.queue + [Request(0, None)])
    case AcceptWithResponse(id) =>
      var chan := |s.ids|;
      var s1 := s.(ids := s.ids + [id]);
      if id == 0 || s.closed then s1.(replies := s.replies + [(chan, Failure)])
      else s1.(queue := s.queue + [Request(id, Some(chan))])
    case PeerSends(m) => if s.peerClosed then s else s.(incoming := s.incoming + [m])
    case PeerCloses => s.(peerClosed := true)
    case WaiterAnswers(ok) => s.(armed := false, arrived := Some(ok))
    case TakeWait => s.(waitId := 0, arrived := None, phase := if s.arrived.value then Dispatching else Stopping)
    case TakeRequest(written) =>
      if written then TakeHead(s, Register).(phase := Dispatching) else TakeHead(s, Lose).(phase := Stopping)
    case TakeDone => s.(phase := Stopping)
    case Read => ReadOne(s)
    case Cancel =>
      s.(phase := Failing, waitId := 0, cancelled := s.cancelled + if s.waitId != 0 then [s.waitId] else [])
    case FailOne(id) => Answer(s, id, Failure)
    case FailedAll => s.(phase := Draining)
    case DrainOne => TakeHead(s, Reply).(phase := if s.queue[0].chan.Some? then Draining else Jammed)
    case CloseHandle => s.(closed := true)
  }

  /** What becomes of the channel of the request at the head of the queue. */
  datatype Fate = Register | Reply | Lose

  function TakeHead(s: State, fate: Fate): State
    requires s.queue != []
  {
    var r, s1 := s.queue[0], s.(queue := s.queue[1..]);
    if r.chan.None? then s1
    else
      match fate
      case Register => s1.(responders := s.responders[r.id := r.chan.value])
      case Reply => s1.(replies := s.replies + [(r.chan.value, Failure)])
      case Lose => s1.(lost := s.lost + {r.chan.value})
  }

  // ---------------------------------------------------------------- where a channel is

  predicate Queued(s: State, c: nat) {
    exists i | 0 <= i < |s.queue| :: s.queue[i].chan == Some(c)
  }

  predicate Registered(s: State, c: nat) {
    exists id | id in s.responders :: s.responders[id] == c
  }

  predicate Replied(s: State, c: nat) {
    exists i | 0 <= i < |s.replies| :: s.replies[i].0 == c
  }

  /** Request ids are unique, and everything that belongs to a channel carries the channel's id. */
  ghost predicate Labelled(s: State) {
    && (forall c, d | 0 <= c < d < |s.ids| :: s.ids[c] == s.ids[d] ==> s.ids[c] == 0)
    && (forall i | 0 <= i < |s.queue| && s.queue[i].chan.Some? ::
          s.queue[i].chan.value < |s.ids| && s.ids[s.queue[i].chan.value] == s.queue[i].id != 0)
    && (forall id | id in s.responders :: s.responders[id] < |s.ids| && s.ids[s.responders[id]] == id != 0)
    && (forall i | 0 <= i < |s.replies| :: s.replies[i].0 < |s.ids| &&
          (s.replies[i].1.Response? ==> s.replies[i].1.id == s.ids[s.replies[i].0]))
    && (forall c | c in s.lost :: c < |s.ids|)
  }

  /** A channel is in at most one place, at most once. */
  ghost predicate Exclusive(s: State) {
    && (forall i, k | 0 <= i < k < |s.queue| && s.queue[i].chan.Some? :: s.queue[i].chan != s.queue[k].chan)
    && (forall i, k | 0 <= i < k < |s.replies| :: s.replies[i].0 != s.replies[k].0)
    && (forall c | Queued(s, c) :: !Registered(s, c) && !Replied(s, c) && c !in s.lost)
    && (forall c | Registered(s, c) :: !Replied(s, c) && c !in s.lost)
    && (forall c | Replied(s, c) :: c !in s.lost)
  }

  ghost predicate Located(s: State) {
    forall c | 0 <= c < |s.ids| :: Queued(s, c) || Registered(s, c) || Replied(s, c) || c in s.lost
  }

  predicate Running(s: State) {
    s.phase == Selecting || s.phase == Dispatching
  }

  /** The wait id is zero exactly when no wait is outstanding, and at `select` one is while channels are registered. */
  ghost predicate Waits(s: State) {
    && !(s.armed && s.arrived.Some?)
    && (Running(s) ==> (s.waitId != 0 <==> s.armed || s.arrived.Some?) && s.lost == {} && s.cancelled == [])
    && (s.phase == Selecting ==> s.responders == map[] || s.waitId != 0)
    && (s.phase == Failing || s.phase == Draining || s.phase == Jammed ==> s.waitId == 0)
    && |s.lost| <= 1 && |s.cancelled| <= 1
    && (s.cancelled != [] ==> s.phase == Failing || s.phase == Draining || s.phase == Jammed)
  }

  ghost predicate Inv(s: State) {
    Core(s) && Waits(s)
  }

  // ---------------------------------------------------------------- channels move one at a time

  lemma QueueGrows(s: State, r: Request, c: nat)
    ensures Queued(s.(queue := s.queue + [r]), c) == (Queued(s, c) || r.chan == Some(c))
  {
    var q := s.queue + [r];
    if Queued(s, c) { var i :| 0 <= i < |s.queue| && s.queue[i].chan == Some(c); assert q[i].chan == Some(c); }
    if r.chan == Some(c) { assert q[|s.queue|].chan == Some(c); }
  }

  lemma QueueShrinks(s: State, c: nat)
    requires s.queue != []
    ensures Queued(s, c) == (Queued(s.(queue := s.queue[1..]), c) || s.queue[0].chan == Some(c))
  {
    var q := s.queue[1..];
    if Queued(s, c) {
      var i :| 0 <= i < |s.queue| && s.queue[i].chan == Some(c);
      if i > 0 { assert q[i - 1].chan == Some(c); }
    }
    if Queued(s.(queue := q), c) {
      var i :| 0 <= i < |q| && q[i].chan == Some(c);
      assert s.queue[i + 1].chan == Some(c);
    }
  }

  lemma RepliesGrow(s: State, p: (nat, Reply), c: nat)
    ensures Replied(s.(replies := s.replies + [p]), c) == (Replied(s, c) || p.0 == c)
  {
    var q := s.replies + [p];
    if Replied(s, c) { var i :| 0 <= i < |s.replies| && s.replies[i].0 == c; assert q[i].0 == c; }
    if p.0 == c { assert q[|s.replies|].0 == c; }
  }

  lemma RegistersOne(s: State, id: nat, chan: nat, c: nat)
    requires id !in s.responders
    ensures Registered(s.(responders := s.responders[id := chan]), c) == (Registered(s, c) || chan == c)
  {
    var m := s.responders[id := chan];
    if Registered(s, c) { var k :| k in s.responders && s.responders[k] == c; assert m[k] == c; }
    if chan == c { assert m[id] == c; }
  }

  lemma UnregistersOne(s: State, id: nat, c: nat)
    requires Labelled(s) && id in s.responders
    ensures Registered(s.(responders := s.responders - {id}), c) == (Registered(s, c) && s.responders[id] != c)
  {
    var m := s.responders - {id};
    if Registered(s, c) && s.responders[id] != c {
      var k :| k in s.responders && s.responders[k] == c;
      assert k in m && m[k] == c;
    }
    if Registered(s.(responders := m), c) {
      var k :| k in m && m[k] == c;
      assert s.responders[k] == c && s.ids[c] == k;
    }
  }

  /** Labels, exclusiveness and location: what every move of a channel keeps. */
  ghost predicate Core(s: State) {
    Labelled(s) && Exclusive(s) && Located(s)
  }

  /** Where the channels are after one of them got its reply. */
  ghost predicate Answered(s: State, id: nat, s': State) {
    && id in s.responders
    && forall c: nat ::
      && Registered(s', c) == (Registered(s, c) && c != s.responders[id])
      && Replied(s', c) == (Replied(s, c) || c == s.responders[id])
      && Queued(s', c) == Queued(s, c)
  }

  lemma AnswerMoves(s: State, id: nat, reply: Reply, c: nat)
    requires Labelled(s) && id in s.responders
    ensures var s', c0 := Answer(s, id, reply), s.responders[id];
      && Registered(s', c) == (Registered(s, c) && c != c0)
      && Replied(s', c) == (Replied(s, c) || c == c0)
      && Queued(s', c) == Queued(s, c)
  {
    hide Queued, Registered, Replied, Labelled;
    var c0 := s.responders[id];
    SameQueue(s, Answer(s, id, reply), c);
    UnregistersOne(s, id, c);
    SameResponders(s.(responders := s.responders - {id}), Answer(s, id, reply), c);
    RepliesGrow(s, (c0, reply), c);
    SameReplies(s.(replies := s.replies + [(c0, reply)]), Answer(s, id, reply), c);
  }

  lemma AnswerLabels(s: State, id: nat, reply: Reply)
    requires Labelled(s) && id in s.responders && (reply.Response? ==> reply.id == id)
    ensures Labelled(Answer(s, id, reply))
  {
  }

  lemma AnswerExcludes(s: State, id: nat, reply: Reply)
    requires Exclusive(s) && id in s.responders && Answered(s, id, Answer(s, id, reply))
    ensures Exclusive(Answer(s, id, reply))
  {
    hide Queued, Registered, Replied;
    RegisteredIs(s, id);
    NotRepliedYet(s, s.responders[id]);
  }

  lemma AnswerLocates(s: State, id: nat, s': State)
    requires Located(s) && Answered(s, id, s') && s'.ids == s.ids && s'.lost == s.lost
    ensures Located(s')
  {
    hide Queued, Registered, Replied;
  }

  lemma AnswerKeeps(s: State, id: nat, reply: Reply)
    requires Core(s) && id in s.responders && (reply.Response? ==> reply.id == id)
    ensures Core(Answer(s, id, reply))
  {
    hide Queued, Registered, Replied, Labelled, Exclusive, Located;
    forall c: nat { AnswerMoves(s, id, reply, c); }
    AnswerLabels(s, id, reply);
    AnswerExcludes(s, id, reply);
    AnswerLocates(s, id, Answer(s, id, reply));
  }

  lemma RegisteredIs(s: State, id: nat)
    requires id in s.responders
    ensures Registered(s, s.responders[id])
  {
  }

  lemma NotRepliedYet(s: State, c: nat)
    requires !Replied(s, c)
    ensures forall i | 0 <= i < |s.replies| :: s.replies[i].0 != c
  {
  }

  lemma SameQueue(s: State, s': State, c: nat)
    requires s.queue == s'.queue
    ensures Queued(s, c) == Queued(s', c)
  {
  }

  lemma SameResponders(s: State, s': State, c: nat)
    requires s.responders == s'.responders
    ensures Registered(s, c) == Registered(s', c)
  {
  }

  lemma SameReplies(s: State, s': State, c: nat)
    requires s.replies == s'.replies
    ensures Replied(s, c) == Replied(s', c)
  {
  }

  /** States that differ only in what is not about channels. */
  predicate SameChannels(s: State, s': State) {
    s.queue == s'.queue && s.responders == s'.responders && s.replies == s'.replies && s.lost == s'.lost &&
      s.ids == s'.ids
  }

  lemma SameCore(s: State, s': State)
    requires Core(s) && SameChannels(s, s')
    ensures Core(s')
  {
    hide Queued, Registered, Replied;
    forall c: nat
      ensures Queued(s, c) == Queued(s', c) && Registered(s, c) == Registered(s', c) && Replied(s, c) == Replied(s', c)
    {
      SameQueue(s, s', c);
      SameResponders(s, s', c);
      SameReplies(s, s', c);
    }
  }

  // ---------------------------------------------------------------- every step

  lemma ReadKeeps(s: State)
    requires Inv(s) && s.phase == Dispatching
    ensures Inv(ReadOne(s)) && s.replies <= ReadOne(s).replies
  {
    hide Core;
    if s.waitId == 0 && s.responders != map[] && s.incoming != [] && s.incoming[0].Message? &&
      s.incoming[0].id in s.responders {
      var rest := s.(incoming := s.incoming[1..]);
      SameCore(s, rest);
      AnswerKeeps(rest, s.incoming[0].id, Response(s.incoming[0].id));
    } else {
      SameCore(s, ReadOne(s));
    }
  }

  lemma CallKeeps(s: State, id: nat)
    requires Core(s) && (id == 0 || id !in s.ids)
    ensures Core(Next(s, AcceptWithResponse(id)))
  {
    hide Queued, Registered, Replied;
    var chan, s' := |s.ids|, Next(s, AcceptWithResponse(id));
    FreshChannel(s, chan);
    forall c: nat
      ensures Registered(s', c) == Registered(s, c)
      ensures id == 0 || s.closed ==> Queued(s', c) == Queued(s, c) && Replied(s', c) == (Replied(s, c) || c == chan)
      ensures id != 0 && !s.closed ==> Queued(s', c) == (Queued(s, c) || c == chan) && Replied(s', c) == Replied(s, c)
    {
      SameResponders(s, s', c);
      if id == 0 || s.closed {
        SameQueue(s, s', c);
        RepliesGrow(s, (chan, Failure), c);
        SameReplies(s.(replies := s.replies + [(chan, Failure)]), s', c);
      } else {
        SameReplies(s, s', c);
        QueueGrows(s, Request(id, Some(chan)), c);
        SameQueue(s.(queue := s.queue + [Request(id, Some(chan))]), s', c);
      }
    }
    NotRepliedYet(s, chan);
    NotQueuedYet(s, chan);
  }

  lemma NotQueuedYet(s: State, c: nat)
    requires !Queued(s, c)
    ensures forall i | 0 <= i < |s.queue| :: s.queue[i].chan != Some(c)
  {
  }

  lemma FreshChannel(s: State, c: nat)
    requires Labelled(s) && c >= |s.ids|
    ensures !Queued(s, c) && !Registered(s, c) && !Replied(s, c) && c !in s.lost
  {
  }

  lemma OneWayKeeps(s: State)
    requires Core(s)
    ensures Core(s.(queue := s.queue + [Request(0, None)]))
  {
    hide Queued, Registered, Replied;
    var s' := s.(queue := s.queue + [Request(0, None)]);
    forall c: nat
      ensures Queued(s', c) == Queued(s, c) && Registered(s', c) == Registered(s, c) && Replied(s', c) == Replied(s, c)
    {
      QueueGrows(s, Request(0, None), c);
      SameResponders(s, s', c);
      SameReplies(s, s', c);
    }
  }

  lemma HeadIsNew(s: State)
    requires Core(s) && s.queue != [] && s.queue[0].chan.Some?
    ensures var c := s.queue[0].chan.value;
      && Queued(s, c) && !Registered(s, c) && !Replied(s, c) && c !in s.lost
      && !Queued(s.(queue := s.queue[1..]), c)
      && s.queue[0].id !in s.responders
  {
    var c := s.queue[0].chan.value;
    assert Queued(s, c);
    forall id | id in s.responders ensures id != s.queue[0].id {
      assert Registered(s, s.responders[id]);
    }
  }

  lemma TakeHeadMoves(s: State, fate: Fate, c: nat)
    requires Core(s) && s.queue != []
    ensures var s', r := TakeHead(s, fate), s.queue[0];
      && Queued(s', c) == (Queued(s, c) && r.chan != Some(c))
      && Registered(s', c) == (Registered(s, c) || (fate == Register && r.chan == Some(c)))
      && Replied(s', c) == (Replied(s, c) || (fate == Reply && r.chan == Some(c)))
      && (c in s'.lost) == (c in s.lost || (fate == Lose && r.chan == Some(c)))
  {
    hide Queued, Registered, Replied, Core;
    var s', r := TakeHead(s, fate), s.queue[0];
    QueueShrinks(s, c);
    SameQueue(s.(queue := s.queue[1..]), s', c);
    if r.chan.Some? {
      HeadIsNew(s);
      match fate
      case Register =>
        RegistersOne(s, r.id, r.chan.value, c);
        SameResponders(s.(responders := s.responders[r.id := r.chan.value]), s', c);
        SameReplies(s, s', c);
      case Reply =>
        RepliesGrow(s, (r.chan.value, Failure), c);
        SameReplies(s.(replies := s.replies + [(r.chan.value, Failure)]), s', c);
        SameResponders(s, s', c);
      case Lose =>
        SameReplies(s, s', c);
        SameResponders(s, s', c);
    } else {
      SameReplies(s, s', c);
      SameResponders(s, s', c);
    }
  }

  /** Where the channels are after the head of the queue has been taken. */
  ghost predicate HeadMoved(s: State, fate: Fate, s': State) {
    && s.queue != []
    && forall c: nat ::
      && Queued(s', c) == (Queued(s, c) && s.queue[0].chan != Some(c))
      && Registered(s', c) == (Registered(s, c) || (fate == Register && s.queue[0].chan == Some(c)))
      && Replied(s', c) == (Replied(s, c) || (fate == Reply && s.queue[0].chan == Some(c)))
      && (c in s'.lost) == (c in s.lost || (fate == Lose && s.queue[0].chan == Some(c)))
  }

  lemma TakeHeadKeeps(s: State, fate: Fate)
    requires Core(s) && s.queue != []
    ensures Core(TakeHead(s, fate))
  {
    hide Queued, Registered, Replied, Labelled, Exclusive, Located, TakeHead;
    forall c: nat { TakeHeadMoves(s, fate, c); }
    TakeHeadLabels(s, fate);
    TakeHeadExcludes(s, fate);
    TakeHeadLocates(s, fate, TakeHead(s, fate));
  }

  lemma TakeHeadLabels(s: State, fate: Fate)
    requires Core(s) && s.queue != []
    ensures Labelled(TakeHead(s, fate)) && TakeHead(s, fate).ids == s.ids
  {
    hide Exclusive, Located;
  }

  lemma TakeHeadExcludes(s: State, fate: Fate)
    requires Core(s) && s.queue != [] && HeadMoved(s, fate, TakeHead(s, fate))
    ensures Exclusive(TakeHead(s, fate))
  {
    hide Queued, Registered, Replied, Labelled, Located;
    if s.queue[0].chan.Some? {
      HeadIsNew(s);
      NotRepliedYet(s, s.queue[0].chan.value);
    }
  }

  lemma TakeHeadLocates(s: State, fate: Fate, s': State)
    requires Located(s) && HeadMoved(s, fate, s') && s'.ids == s.ids
    ensures Located(s')
  {
    hide Queued, Registered, Replied;
  }

  predicate Outside(step: Step) {
    step.Accept? || step.AcceptWithResponse? || step.PeerSends? || step.PeerCloses? || step.WaiterAnswers?
  }

  predicate AtSelect(step: Step) {
    step.TakeWait? || step.TakeRequest? || step.TakeDone?
  }

  lemma OutsideKeepsCore(s: State, step: Step)
    requires Core(s) && Enabled(s, step) && Outside(step)
    ensures Core(Next(s, step))
  {
    hide Core;
    match step
    case Accept(_) => if !s.closed { OneWayKeeps(s); }
    case AcceptWithResponse(id) => CallKeeps(s, id);
    case PeerSends(_) => SameCore(s, Next(s, step));
    case PeerCloses => SameCore(s, Next(s, step));
    case WaiterAnswers(_) => SameCore(s, Next(s, step));
  }

  lemma OutsideKeeps(s: State, step: Step)
    requires Inv(s) && Enabled(s, step) && Outside(step)
    ensures Inv(Next(s, step)) && s.replies <= Next(s, step).replies
  {
    hide Core;
    OutsideKeepsCore(s, step);
  }

  lemma TakeRequestKeeps(s: State, fate: Fate, phase: Phase)
    requires Inv(s) && s.phase == Selecting && s.queue != []
    requires (fate == Register && phase == Dispatching) || (fate == Lose && phase == Stopping)
    ensures Inv(TakeHead(s, fate).(phase := phase)) && s.replies <= TakeHead(s, fate).replies
  {
    hide Core;
    TakeHeadKeeps(s, fate);
    SameCore(TakeHead(s, fate), TakeHead(s, fate).(phase := phase));
  }

  lemma SelectKeeps(s: State, step: Step)
    requires Inv(s) && Enabled(s, step) && AtSelect(step)
    ensures Inv(Next(s, step)) && s.replies <= Next(s, step).replies
  {
    hide Core, TakeHead;
    match step
    case TakeRequest(written) =>
      if written {
        TakeRequestKeeps(s, Register, Dispatching);
      } else {
        TakeRequestKeeps(s, Lose, Stopping);
      }
    case TakeWait => SameCore(s, Next(s, step));
    case TakeDone => SameCore(s, Next(s, step));
  }

  lemma StopKeeps(s: State, step: Step)
    requires Inv(s) && Enabled(s, step) && !Outside(step) && !AtSelect(step)
    ensures Inv(Next(s, step)) && s.replies <= Next(s, step).replies
  {
    hide Core, ReadOne;
    match step
    case Read => ReadKeeps(s);
    case FailOne(id) => AnswerKeeps(s, id, Failure);
    case DrainOne =>
      TakeHeadKeeps(s, Reply);
      SameCore(TakeHead(s, Reply), Next(s, step));
    case Cancel => SameCore(s, Next(s, step));
    case FailedAll => SameCore(s, Next(s, step));
    case CloseHandle => SameCore(s, Next(s, step));
  }

  /** Every step keeps the invariant and takes no reply back. */
  lemma StepKeepsInv(s: State, step: Step)
    requires Inv(s) && Enabled(s, step)
    ensures Inv(Next(s, step)) && s.replies <= Next(s, step).replies
  {
    hide Inv, Next, Enabled;
    if Outside(step) {
      OutsideKeeps(s, step);
    } else if AtSelect(step) {
      SelectKeeps(s, step);
    } else {
      StopKeeps(s, step);
    }
  }

  // ---------------------------------------------------------------- runs

  predicate CanRun(s: State, steps: seq<Step>)
    decreases |steps|
  {
    steps == [] || (Enabled(s, steps[0]) && CanRun(Next(s, steps[0]), steps[1..]))
  }

  function Run(s: State, steps: seq<Step>): State
    requires CanRun(s, steps)
    decreases |steps|
  {
    if steps == [] then s else Run(Next(s, steps[0]), steps[1..])
  }

  lemma {:induction false} RunKeepsInv(s: State, steps: seq<Step>)
    requires Inv(s) && CanRun(s, steps)
    ensures Inv(Run(s, steps))
    decreases |steps|
  {
    hide Inv, Next, Enabled;
    if steps != [] {
      StepKeepsInv(s, steps[0]);
      RunKeepsInv(Next(s, steps[0]), steps[1..]);
    }
  }

  lemma InitInv()
    ensures Inv(Init)
  {
  }

  /** Every response channel gets at most one reply, and a response only if it carries the channel's own id. */
  lemma AtMostOneReply(steps: seq<Step>)
    requires CanRun(Init, steps)
    ensures var s := Run(Init, steps);
      && (forall i, k | 0 <= i < k < |s.replies| :: s.replies[i].0 != s.replies[k].0)
      && (forall i | 0 <= i < |s.replies| && s.replies[i].1.Response? ::
            s.replies[i].0 < |s.ids| && s.replies[i].1.id == s.ids[s.replies[i].0] != 0)
  {
    hide Next, Enabled, Queued, Registered, Replied;
    InitInv();
    RunKeepsInv(Init, steps);
    ResponsesHaveIds(Init, steps);
  }

  /** A response is always for a request id, never for 0. */
  ghost predicate NonZero(s: State) {
    forall i | 0 <= i < |s.replies| && s.replies[i].1.Response? :: s.replies[i].1.id != 0
  }

  lemma StepNonZero(s: State, step: Step)
    requires Inv(s) && NonZero(s) && Enabled(s, step)
    ensures NonZero(Next(s, step))
  {
    hide Exclusive, Located, Waits, ReadOne, TakeHead;
    match step
    case Read => ReadNonZero(s);
    case TakeRequest(written) => TakeNonZero(s, if written then Register else Lose);
    case DrainOne => TakeNonZero(s, Reply);
    case _ =>
  }

  lemma ReadNonZero(s: State)
    requires Labelled(s) && NonZero(s)
    ensures NonZero(ReadOne(s))
  {
  }

  lemma TakeNonZero(s: State, fate: Fate)
    requires NonZero(s) && s.queue != []
    ensures NonZero(TakeHead(s, fate))
  {
  }

  lemma {:induction false} ResponsesHaveIds(s: State, steps: seq<Step>)
    requires Inv(s) && NonZero(s) && CanRun(s, steps)
    ensures NonZero(Run(s, steps))
    decreases |steps|
  {
    hide Inv, NonZero, Next, Enabled;
    if steps != [] {
      StepKeepsInv(s, steps[0]);
      StepNonZero(s, steps[0]);
      ResponsesHaveIds(Next(s, steps[0]), steps[1..]);
    }
  }

  /**
  No request is dropped: the channel of every call is queued, registered or replied to, except for at most one, whose
  pipe write failed and stopped the worker.
  */
  lemma NoRequestDropped(steps: seq<Step>, c: nat)
    requires CanRun(Init, steps) && c < |Run(Init, steps).ids|
    ensures var s := Run(Init, steps);
      && (Queued(s, c) || Registered(s, c) || Replied(s, c) || c in s.lost)
      && |s.lost| <= 1 && (s.lost != {} ==> !Running(s))
      && (c in s.lost ==> !Queued(s, c) && !Registered(s, c) && !Replied(s, c))
  {
    hide Next, Enabled, Queued, Registered, Replied;
    InitInv();
    RunKeepsInv(Init, steps);
  }

  /**
  While the worker runs, its wait id is zero exactly when no wait is outstanding, and whenever it is back at its
  `select` with channels registered, a wait is outstanding: no response is left unread.
  */
  lemma WaitsWhileRegistered(steps: seq<Step>)
    requires CanRun(Init, steps)
    ensures var s := Run(Init, steps);
      && (Running(s) ==> (s.waitId == 0 <==> !s.armed && s.arrived.None?))
      && (s.phase == Selecting && s.responders != map[] ==> s.armed || s.arrived.Some?)
  {
    hide Next, Enabled, Core;
    InitInv();
    RunKeepsInv(Init, steps);
  }

  /** The worker cancels at most one wait, only after it has left its loop, and before it answers anybody. */
  lemma CancelsOnce(steps: seq<Step>)
    requires CanRun(Init, steps)
    ensures var s := Run(Init, steps);
      && |s.cancelled| <= 1 && (Running(s) || s.phase == Stopping ==> s.cancelled == [])
      && (s.phase == Failing || s.phase == Draining ==> s.waitId == 0)
  {
    hide Next, Enabled, Core;
    InitInv();
    RunKeepsInv(Init, steps);
  }

  /** The loop as a whole is a run of its rounds. */
  lemma {:induction false} DispatchIsReads(s: State) returns (steps: seq<Step>)
    ensures CanRun(s, steps) && Run(s, steps) == Dispatch(s) && forall i | 0 <= i < |steps| :: steps[i] == Read
    decreases |s.incoming|, if s.phase == Dispatching then 1 else 0
  {
    if s.phase != Dispatching {
      steps := [];
    } else {
      var rest := DispatchIsReads(ReadOne(s));
      steps := [Read] + rest;
      assert steps[1..] == rest;
    }
  }

  /** An answer that arrives between the write of a request and the next read is handed over by that read. */
  lemma AnswerRightAfterWrite(id: nat)
    requires id != 0
    ensures var steps := [AcceptWithResponse(id), TakeRequest(true), PeerSends(Message(id)), Read];
      CanRun(Init, steps) && HonestRun(Init, steps) && Run(Init, steps).replies == [(0, Response(id))]
  {
    var steps := [AcceptWithResponse(id), TakeRequest(true), PeerSends(Message(id)), Read];
    var s1 := Next(Init, steps[0]);
    var s2 := Next(s1, steps[1]);
    var s3 := Next(s2, steps[2]);
    assert s2.responders == map[id := 0] && s3.incoming == [Message(id)];
    var s4 := Next(s3, Read);
    assert steps[1..] == [TakeRequest(true), PeerSends(Message(id)), Read];
    assert steps[1..][1..] == [PeerSends(Message(id)), Read] && steps[1..][1..][1..] == [Read] &&
      steps[1..][1..][1..][1..] == [];
    assert CanRun(s4, []) && CanRun(s3, [Read]) && CanRun(s2, steps[1..][1..]) && CanRun(s1, steps[1..]);
    assert HonestRun(s3, [Read]) && HonestRun(s2, steps[1..][1..]) && HonestRun(s1, steps[1..]);
    assert Run(s3, [Read]) == s4 && Run(s2, steps[1..][1..]) == s4 && Run(s1, steps[1..]) == s4;
  }

  // ---------------------------------------------------------------- when the worker blocks

  /** The first `k` messages are responses for registered channels, one each. */
  ghost predicate Answers(s: State, k: nat) {
    && k <= |s.incoming|
    && (forall i | 0 <= i < k :: s.incoming[i].Message? && s.incoming[i].id in s.responders)
    && (forall i, l | 0 <= i < l < k :: s.incoming[i] != s.incoming[l])
  }

  /** Message `k` is for an id that is not registered, or no longer. */
  ghost predicate Stray(s: State, k: nat) {
    && k < |s.incoming| && s.incoming[k].Message?
    && (s.incoming[k].id !in s.responders || exists i | 0 <= i < k :: s.incoming[i] == s.incoming[k])
  }

  /** The worker reaches a stray message while channels are still registered. */
  ghost predicate Jams(s: State) {
    s.waitId == 0 && exists k: nat | k < |s.incoming| :: Answers(s, k) && k < |s.responders| && Stray(s, k)
  }

  lemma JamsRest(s: State)
    requires s.waitId == 0 && s.incoming != [] && s.incoming[0].Message? && s.incoming[0].id in s.responders
    ensures Jams(s) <==> Jams(ReadOne(s))
  {
    var id, t := s.incoming[0].id, ReadOne(s);
    assert |t.responders| == |s.responders| - 1 by { assert t.responders.Keys == s.responders.Keys - {id}; }
    if Jams(s) {
      var k: nat :| k < |s.incoming| && Answers(s, k) && k < |s.responders| && Stray(s, k);
      assert k > 0;
      JamsShift(s, t, k);
    }
    if Jams(t) {
      var k: nat :| k < |t.incoming| && Answers(t, k) && k < |t.responders| && Stray(t, k);
      JamsBack(s, t, k + 1);
    }
  }

  lemma JamsShift(s: State, t: State, k: nat)
    requires s.incoming != [] && s.incoming[0].Message? && s.incoming[0].id in s.responders
    requires t.incoming == s.incoming[1..] && t.responders == s.responders - {s.incoming[0].id}
    requires k > 0 && Answers(s, k) && Stray(s, k)
    ensures Answers(t, k - 1) && Stray(t, k - 1)
  {
    forall i | 0 <= i < k - 1 ensures t.incoming[i].Message? && t.incoming[i].id in t.responders {
      assert t.incoming[i] == s.incoming[i + 1] && s.incoming[0] != s.incoming[i + 1];
    }
    assert t.incoming[k - 1] == s.incoming[k];
    if s.incoming[k].id in t.responders {
      var i :| 0 <= i < k && s.incoming[i] == s.incoming[k];
      assert i > 0 && t.incoming[i - 1] == t.incoming[k - 1];
    }
  }

  lemma JamsBack(s: State, t: State, k: nat)
    requires s.incoming != [] && s.incoming[0].Message? && s.incoming[0].id in s.responders
    requires t.incoming == s.incoming[1..] && t.responders == s.responders - {s.incoming[0].id}
    requires k > 0 && Answers(t, k - 1) && Stray(t, k - 1)
    ensures Answers(s, k) && Stray(s, k)
  {
    forall i | 0 <= i < k ensures s.incoming[i].Message? && s.incoming[i].id in s.responders {
      if i > 0 { assert s.incoming[i] == t.incoming[i - 1]; }
    }
    forall i, l | 0 <= i < l < k ensures s.incoming[i] != s.incoming[l] {
      assert s.incoming[l] == t.incoming[l - 1];
      if i > 0 { assert s.incoming[i] == t.incoming[i - 1]; }
    }
    assert s.incoming[k] == t.incoming[k - 1];
    if s.incoming[k].id in s.responders {
      if s.incoming[k].id == s.incoming[0].id {
        assert s.incoming[0] == s.incoming[k];
      } else {
        var i :| 0 <= i < k - 1 && t.incoming[i] == t.incoming[k - 1];
        assert s.incoming[i + 1] == s.incoming[k];
      }
    }
  }

  /** Reading messages blocks the worker if and only if it reaches a stray message while channels are registered. */
  lemma {:induction false} BlocksExactly(s: State)
    requires s.phase == Dispatching
    ensures Dispatch(s).phase == Blocked <==> Jams(s)
    decreases |s.incoming|
  {
    hide Jams;
    var t := ReadOne(s);
    if s.waitId == 0 && s.incoming != [] && s.incoming[0].Message? && s.incoming[0].id in s.responders {
      JamsRest(s);
      BlocksExactly(t);
    } else {
      assert Dispatch(s) == t;
      JamsAtOnce(s);
    }
  }

  lemma JamsAtOnce(s: State)
    requires !(s.waitId == 0 && s.incoming != [] && s.incoming[0].Message? && s.incoming[0].id in s.responders)
    ensures Jams(s) <==> s.waitId == 0 && s.responders != map[] && s.incoming != [] && s.incoming[0].Message?
  {
    if s.waitId == 0 && s.responders != map[] && s.incoming != [] && s.incoming[0].Message? {
      assert Answers(s, 0) && Stray(s, 0) && |s.responders| > 0;
    }
  }

  /** A peer that answers only what is pending, and once. */
  predicate Honest(s: State, step: Step) {
    step.PeerSends? && step.incoming.Message? ==> step.incoming.id in s.responders && step.incoming !in s.incoming
  }

  predicate HonestRun(s: State, steps: seq<Step>)
    requires CanRun(s, steps)
    decreases |steps|
  {
    steps == [] || (Honest(s, steps[0]) && HonestRun(Next(s, steps[0]), steps[1..]))
  }

  /** The responses in the pipe are for registered channels, one each. */
  ghost predicate Answerable(s: State) {
    && s.phase != Blocked
    && (Running(s) ==>
      && (forall i | 0 <= i < |s.incoming| && s.incoming[i].Message? :: s.incoming[i].id in s.responders)
      && (forall i, k | 0 <= i < k < |s.incoming| && s.incoming[i].Message? :: s.incoming[i] != s.incoming[k]))
  }

  lemma HonestRead(s: State)
    requires Answerable(s) && s.phase == Dispatching
    ensures Answerable(ReadOne(s))
  {
    if s.incoming != [] {
      var q := s.incoming[1..];
      assert forall i | 0 <= i < |q| :: q[i] == s.incoming[i + 1];
      assert forall i | 0 <= i < |q| && s.incoming[0].Message? :: s.incoming[0] != q[i];
    }
  }

  lemma HonestTake(s: State, fate: Fate)
    requires Answerable(s) && s.queue != []
    ensures Answerable(TakeHead(s, fate)) && TakeHead(s, fate).phase == s.phase
  {
  }

  lemma HonestStep(s: State, step: Step)
    requires Answerable(s) && Enabled(s, step) && Honest(s, step)
    ensures Answerable(Next(s, step))
  {
    hide ReadOne, TakeHead;
    match step
    case Read => HonestRead(s);
    case TakeRequest(written) => HonestTake(s, if written then Register else Lose);
    case DrainOne => HonestTake(s, Reply);
    case PeerSends(_) =>
    case _ =>
  }

  /** With an honest peer, whose answers may arrive at any time after the write, the worker never blocks. */
  lemma {:induction false} HonestNeverBlocks(s: State, steps: seq<Step>)
    requires Answerable(s) && CanRun(s, steps) && HonestRun(s, steps)
    ensures Run(s, steps).phase != Blocked
    decreases |steps|
  {
    hide Next, Enabled, Honest;
    if steps != [] {
      HonestStep(s, steps[0]);
      HonestNeverBlocks(Next(s, steps[0]), steps[1..]);
    }
  }

  /** The loop, one round at a time. */
  lemma DispatchStep(s: State)
    requires s.phase == Dispatching
    ensures Dispatch(s) == if ReadOne(s).phase == Dispatching then Dispatch(ReadOne(s)) else ReadOne(s)
    ensures s.waitId != 0 || |s.responders| == 0 ==> ReadOne(s) == s.(phase := Selecting)
  {
    hide Dispatch;
    assert |s.responders| == 0 <==> s.responders == map[];
    DispatchOnce(s);
  }

  lemma DispatchOnce(s: State)
    requires s.phase == Dispatching
    ensures Dispatch(s) == if ReadOne(s).phase == Dispatching then Dispatch(ReadOne(s)) else ReadOne(s)
  {
    hide ReadOne;
  }

  // ---------------------------------------------------------------- the worker as an object

  /** `routerWorker`, with the pipe it reads from and the log of what it sent. */
  class RouterWorker {
    var responders: map<nat, nat>
    var waitId: nat
    var waits: nat
    var armed: bool
    var incoming: seq<Incoming>
    var peerClosed: bool
    var replies: seq<(nat, Reply)>
    var cancelled: seq<nat>

    /** This worker inside a state of the whole system. */
    ghost function In(s: State): State
      reads this
    {
      s.(responders := responders, waitId := waitId, waits := waits, armed := armed, incoming := incoming,
         peerClosed := peerClosed, replies := replies, cancelled := cancelled)
    }

    constructor (peerClosed: bool)
      ensures In(Init) == Init.(peerClosed := peerClosed)
    {
      responders, waitId, waits, armed, incoming, replies, cancelled := map[], 0, 0, false, [], [], [];
      this.peerClosed := peerClosed;
    }

    /** One round of the loop: a message is read and delivered, or the phase says why not. */
    method ReadAndDispatch(ghost s: State) returns (phase: Phase)
      requires s.phase == Dispatching && waitId == 0 && |responders| > 0
      modifies this
      ensures In(s).(phase := phase) == ReadOne(old(In(s)))
      ensures phase == Dispatching ==> waitId == 0 && |incoming| < |old(incoming)|
    {
      if incoming == [] {
        if peerClosed { return Stopping; }
        waits := waits + 1;
        waitId, armed := waits, true;
        return Selecting;
      }
      var message := incoming[0];
      incoming := incoming[1..];
      if message.Garbage? { return Stopping; }
      if message.id !in responders { return Blocked; }
      replies := replies + [(responders[message.id], Response(message.id))];
      responders := responders - {message.id};
      return Dispatching;
    }

    /** Returns the phase that the loop leaves the worker in. */
    method ReadAndDispatchOutstandingMessages(ghost s: State) returns (phase: Phase)
      requires s.phase == Dispatching
      modifies this
      ensures In(s).(phase := phase) == Dispatch(old(In(s)))
    {
      hide Dispatch, ReadOne;
      DispatchStep(In(s));
      if waitId != 0 { return Selecting; }
      while |responders| > 0
        invariant waitId == 0
        invariant Dispatch(old(In(s))) == Dispatch(In(s))
        decreases |incoming|
      {
        DispatchStep(In(s));
        phase := ReadAndDispatch(s);
        if phase != Dispatching { return; }
        assert In(s).(phase := Dispatching) == In(s);
      }
      DispatchStep(In(s));
      return Selecting;
    }

    method CancelIfWaiting(ghost s: State)
      requires s.phase == Stopping
      modifies `waitId, `cancelled
      ensures In(s).(phase := Failing) == Next(old(In(s)), Cancel)
    {
      if waitId != 0 {
        cancelled := cancelled + [waitId];
        waitId := 0;
      }
    }
  }
}
