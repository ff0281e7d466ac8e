/**
The worker of the asynchronous waiter: four parallel slices with the waking handle at index 0, requests appended and
answered ones removed by swapping with the last.  The worker is a class; its runs are described by steps on `Table`.
*/
module AsyncWaiter {
  import opened Collections

  // ---------------------------------------------------------------- values

  datatype Entry = Entry(handle: nat, signals: bv32, id: nat, response: nat)

  /** `MojoHandleSignalsState` */
  datatype Signals = Signals(satisfied: bv32, satisfiable: bv32)

  const NoSignals := Signals(0, 0)

  const OK := 0
  const ABORTED := 10
  const READABLE: bv32 := 1

  /** A `WaitResponse` sent for the wait with number `id` over channel `response`. */
  datatype Answer = Answer(id: nat, response: nat, result: nat, state: Signals)

  datatype Request = Request(handle: nat, signals: bv32, response: nat)

  /** The waiting entries, the number of waits so far, and the answers so far. */
  datatype Table = Table(entries: seq<Entry>, ids: nat, answers: seq<Answer>)

  const TWO_64 := 0x1_0000_0000_0000_0000

  predicate Common(a: bv32, b: bv32) {
    a & b != 0
  }

  predicate Hit(e: Entry, state: Signals) {
    Common(state.satisfied, e.signals)
  }

  lemma UpdateCounts<T>(s: seq<T>, i: nat, x: T)
    requires i < |s|
    ensures multiset(s[i := x]) + multiset{s[i]} == multiset(s) + multiset{x}
  {
    assert s == s[..i] + [s[i]] + s[i + 1..];
    assert s[i := x] == s[..i] + [x] + s[i + 1..];
  }

  lemma SwapRemoveKeepsRest<T>(s: seq<T>, i: nat)
    requires 0 < i < |s|
    ensures SwapRemove(s, i)[0] == s[0]
    ensures multiset(s[1..]) == multiset(SwapRemove(s, i)[1..]) + multiset{s[i]}
  {
    var last := s[|s| - 1];
    var mid := s[1..|s| - 1];
    assert s[1..] == mid + [last];
    if i == |s| - 1 {
      assert SwapRemove(s, i)[1..] == mid;
    } else {
      assert SwapRemove(s, i)[1..] == mid[i - 1 := last];
      assert mid[i - 1] == s[i];
      UpdateCounts(mid, i - 1, last);
    }
  }

  // ---------------------------------------------------------------- the worker

  class Worker {
    var handles: seq<nat>
    var signals: seq<bv32>
    var asyncWaitIds: seq<nat>
    var responses: seq<nat>
    var ids: nat
    var answers: seq<Answer>  // everything sent to response channels

    ghost predicate Valid()
      reads this
    {
      && |handles| == |signals| == |asyncWaitIds| == |responses| >= 1
      && ids < TWO_64
    }

    ghost function Entries(): seq<Entry>
      requires Valid()
      reads this
    {
      seq(|handles|, i requires 0 <= i < |handles| && Valid() reads this =>
        Entry(handles[i], signals[i], asyncWaitIds[i], responses[i]))
    }

    ghost function View(): Table
      requires Valid()
      reads this
    {
      Table(Entries(), ids, answers)
    }

    constructor (waking: nat, unused: nat)
      ensures Valid() && View() == Table([Entry(waking, READABLE, 0, unused)], 0, [])
    {
      handles, signals, asyncWaitIds, responses := [waking], [READABLE], [0], [unused];
      ids, answers := 0, [];
    }

    method RemoveHandle(index: nat)
      requires Valid() && 0 < index < |handles|
      modifies this
      ensures Valid() && View() == old(View()).(entries := SwapRemove(old(Entries()), index))
    {
      var l := |handles| - 1;
      handles := handles[index := handles[l]];
      handles := handles[0..l];
      signals := signals[index := signals[l]];
      signals := signals[0..l];
      asyncWaitIds := asyncWaitIds[index := asyncWaitIds[l]];
      asyncWaitIds := asyncWaitIds[0..l];
      responses := responses[index := responses[l]];
      responses := responses[0..l];
    }

    method SendWaitResponseAndRemove(index: nat, result: nat, state: Signals)
      requires Valid() && 0 < index < |handles|
      modifies this
      ensures Valid() && View() == Answered(old(View()), index, result, state)
    {
      answers := answers + [Answer(asyncWaitIds[index], responses[index], result, state)];
      RemoveHandle(index);
    }

    /** Answers exactly the waits that are hit, each with its own state, and keeps the others. */
    method RespondToSatisfiedWaits(states0: seq<Signals>)
      requires Valid() && |states0| == |handles|
      modifies this
      ensures Valid() && Responds(old(View()), states0, View())
    {
      hide Common, SwapRemove, Zip, Split, Responds, Answered;
      var states := states0;
      ghost var t0, ps := View(), Zip(Entries(), states0);
      ghost var answered: seq<(Entry, Signals)> := [];
      SplitStart(t0, states0);
      var i := 1;
      while i < |states|
        invariant Valid() && 1 <= i <= |states| == |handles|
        invariant Pairs(ps, Entries(), states)
        invariant Split(t0, states0, View(), ps, answered)
        invariant forall k | 1 <= k < i :: !Hit(ps[k].0, ps[k].1)
        decreases |states| - i
      {
        if Common(states[i].satisfied, signals[i]) {
          ghost var t := View();
          SplitStep(t0, states0, t, ps, answered, i);
          PairsStep(ps, Entries(), states, i);
          AnsweredIs(t, i, OK, states[i]);
          SendWaitResponseAndRemove(i, OK, states[i]);
          states := states[i := states[|states| - 1]];
          states := states[..|states| - 1];
          ps, answered := SwapRemove(ps, i), answered + [ps[i]];
        } else {
          i := i + 1;
        }
      }
      SplitDone(t0, states0, View(), ps, answered);
    }

    /** One request from `waitChan`; the number goes back over `idChan`. */
    method AddWait(request: Request) returns (id: nat)
      requires Valid()
      modifies this
      ensures Valid() && View() == Added(old(View()), request) && id == ids
    {
      handles := handles + [request.handle];
      signals := signals + [request.signals];
      responses := responses + [request.response];
      ids := (ids + 1) % TWO_64;
      id := ids;
      asyncWaitIds := asyncWaitIds + [id];
    }

    /** One id from `cancelChan`. */
    method Cancel(id: nat)
      requires Valid()
      modifies this
      ensures Valid() && View() == Cancelled(old(View()), id)
    {
      var index, i := 0, 1;
      while i < |asyncWaitIds|
        invariant 1 <= i <= |asyncWaitIds|
        invariant index == 0 && forall k | 1 <= k < i :: asyncWaitIds[k] != id
        decreases |asyncWaitIds| - i
      {
        if asyncWaitIds[i] == id {
          index := i;
          break;
        }
        i := i + 1;
      }
      FindIs(Entries(), id, 1, if index > 0 then index else |handles|);
      if index > 0 {
        SendWaitResponseAndRemove(index, ABORTED, NoSignals);
      }
    }

    /**
    Receives until both channels are empty.  `select` may take either channel first; each is taken in order, every
    request is answered with its number over its own channel, and nothing is left over.
    */
    method ProcessIncomingRequests(waitChan: seq<Request>, cancelChan: seq<nat>)
      returns (idChans: seq<nat>, ghost events: seq<Event>)
      requires Valid() && ids + |waitChan| < TWO_64
      modifies this
      ensures Valid() && Reaches(old(View()), events, View())
      ensures Requests(events) == waitChan && Cancels(events) == cancelChan
      ensures idChans == Numbers(old(ids), |waitChan|)
    {
      hide Added, Cancelled, Step, Reaches, Requests, Cancels, Numbers;
      var waits, cancels := waitChan, cancelChan;
      idChans, events := [], [];
      ReachesNothing(View());
      NoNumbers(ids);
      while waits != [] || cancels != []
        invariant Valid() && Reaches(old(View()), events, View())
        invariant Requests(events) + waits == waitChan && Cancels(events) + cancels == cancelChan
        invariant ids == old(ids) + |idChans| && |idChans| + |waits| == |waitChan|
        invariant idChans == Numbers(old(ids), |idChans|)
        decreases |waits| + |cancels|
      {
        ghost var t := View();
        var takeWait := *;
        if waits != [] && (takeWait || cancels == []) {
          AddIs(t, waits[0]);
          ReachesOne(old(View()), events, t, Add(waits[0]), Added(t, waits[0]));
          Moved(Requests(events), waits);
          NextNumber(old(ids), |idChans|);
          var id := AddWait(waits[0]);
          idChans := idChans + [id];
          events := events + [Add(waits[0])];
          waits := waits[1..];
        } else {
          CancelIs(t, cancels[0]);
          ReachesOne(old(View()), events, t, Event.Cancel(cancels[0]), Cancelled(t, cancels[0]));
          Moved(Cancels(events), cancels);
          Cancel(cancels[0]);
          events := events + [Event.Cancel(cancels[0])];
          cancels := cancels[1..];
        }
      }
    }
  }

  /** The `n` numbers that follow `last`. */
  function Numbers(last: nat, n: nat): seq<nat> {
    seq(n, i => last + 1 + i)
  }

  lemma NoNumbers(last: nat)
    ensures Numbers(last, 0) == []
  {
  }

  lemma NextNumber(last: nat, n: nat)
    ensures Numbers(last, n) + [last + n + 1] == Numbers(last, n + 1)
  {
  }

  lemma Moved<T>(taken: seq<T>, left: seq<T>)
    requires left != []
    ensures taken + [left[0]] + left[1..] == taken + left
  {
  }

  // ---------------------------------------------------------------- what the methods do, as values

  function Answered(t: Table, index: nat, result: nat, state: Signals): Table
    requires index < |t.entries|
  {
    var e := t.entries[index];
    t.(entries := SwapRemove(t.entries, index), answers := t.answers + [Answer(e.id, e.response, result, state)])
  }

  function Added(t: Table, r: Request): Table {
    var id := (t.ids + 1) % TWO_64;
    Table(t.entries + [Entry(r.handle, r.signals, id, r.response)], id, t.answers)
  }

  /** The first index from `from` on with the given id, or the length. */
  function Find(es: seq<Entry>, id: nat, from: nat): (i: nat)
    requires from <= |es|
    ensures from <= i <= |es| && (i < |es| ==> es[i].id == id) && forall k | from <= k < i :: es[k].id != id
    decreases |es| - from
  {
    if from == |es| || es[from].id == id then from else Find(es, id, from + 1)
  }

  lemma {:induction false} FindIs(es: seq<Entry>, id: nat, from: nat, i: nat)
    requires from <= i <= |es| && (i < |es| ==> es[i].id == id) && forall k | from <= k < i :: es[k].id != id
    ensures Find(es, id, from) == i
    decreases i - from
  {
    if from < i { FindIs(es, id, from + 1, i); }
  }

  /** An unknown id is ignored: its wait has been answered already. */
  function Cancelled(t: Table, id: nat): Table
    requires t.entries != []
  {
    var i := Find(t.entries, id, 1);
    if i < |t.entries| then Answered(t, i, ABORTED, NoSignals) else t
  }

  function Zip(es: seq<Entry>, states: seq<Signals>): seq<(Entry, Signals)>
    requires |es| == |states|
  {
    seq(|es|, i requires 0 <= i < |es| => (es[i], states[i]))
  }

  function OkAnswers(ps: seq<(Entry, Signals)>): seq<Answer> {
    seq(|ps|, i requires 0 <= i < |ps| => Answer(ps[i].0.id, ps[i].0.response, OK, ps[i].1))
  }

  /** `answered` and the entries left, together, are the entries there were, each still with its own state. */
  ghost predicate Split(t0: Table, states0: seq<Signals>, t: Table, ps: seq<(Entry, Signals)>,
                        answered: seq<(Entry, Signals)>) {
    && 1 <= |t0.entries| == |states0|
    && |ps| == |t.entries| >= 1
    && (forall k | 0 <= k < |ps| :: ps[k].0 == t.entries[k])
    && ps[0] == (t0.entries[0], states0[0])
    && multiset(Zip(t0.entries, states0)[1..]) == multiset(ps[1..]) + multiset(answered)
    && (forall p | p in answered :: Hit(p.0, p.1))
    && t.ids == t0.ids
    && t.answers == t0.answers + OkAnswers(answered)
  }

  lemma SplitStart(t0: Table, states0: seq<Signals>)
    requires 1 <= |t0.entries| == |states0|
    ensures Split(t0, states0, t0, Zip(t0.entries, states0), []) && Pairs(Zip(t0.entries, states0), t0.entries, states0)
  {
    assert t0.answers + OkAnswers([]) == t0.answers;
  }

  lemma SplitStep(t0: Table, states0: seq<Signals>, t: Table, ps: seq<(Entry, Signals)>,
                  answered: seq<(Entry, Signals)>, i: nat)
    requires Split(t0, states0, t, ps, answered) && 1 <= i < |ps| && Hit(ps[i].0, ps[i].1)
    ensures i < |t.entries| && Split(t0, states0, Answered(t, i, OK, ps[i].1), SwapRemove(ps, i), answered + [ps[i]])
  {
    hide Common, Hit, OkAnswers, Zip;
    SwapRemoveKeepsRest(ps, i);
    OneMoreAnswer(answered, ps[i]);
    assert t.entries[i] == ps[i].0;
  }

  lemma OneMoreAnswer(answered: seq<(Entry, Signals)>, p: (Entry, Signals))
    ensures OkAnswers(answered + [p]) == OkAnswers(answered) + [Answer(p.0.id, p.0.response, OK, p.1)]
  {
  }

  predicate Pairs(ps: seq<(Entry, Signals)>, es: seq<Entry>, states: seq<Signals>) {
    |ps| == |es| == |states| && forall k | 0 <= k < |ps| :: ps[k] == (es[k], states[k])
  }

  lemma PairsStep(ps: seq<(Entry, Signals)>, es: seq<Entry>, states: seq<Signals>, i: nat)
    requires Pairs(ps, es, states) && 1 <= i < |ps|
    ensures Pairs(SwapRemove(ps, i), SwapRemove(es, i), states[i := states[|states| - 1]][..|states| - 1])
    ensures |SwapRemove(ps, i)| == |ps| - 1
    ensures forall k | 0 <= k < i :: SwapRemove(ps, i)[k] == ps[k]
  {
  }

  lemma AnsweredIs(t: Table, index: nat, result: nat, state: Signals)
    requires index < |t.entries|
    ensures Answered(t, index, result, state).entries == SwapRemove(t.entries, index)
  {
  }

  /**
  One round of answers: the entries behind the waking one fall into those that are hit and those that are not.  The
  former are answered, each with its own state; the latter stay.
  */
  ghost predicate Responds(t0: Table, states0: seq<Signals>, t: Table) {
    && 1 <= |t0.entries| == |states0|
    && exists ps: seq<(Entry, Signals)>, answered ::
      && Split(t0, states0, t, ps, answered)
      && forall k | 1 <= k < |ps| :: !Hit(ps[k].0, ps[k].1)
  }

  lemma SplitDone(t0: Table, states0: seq<Signals>, t: Table, ps: seq<(Entry, Signals)>,
                  answered: seq<(Entry, Signals)>)
    requires Split(t0, states0, t, ps, answered) && forall k | 1 <= k < |ps| :: !Hit(ps[k].0, ps[k].1)
    ensures Responds(t0, states0, t)
  {
  }

  /** An entry is answered if and only if it is hit; otherwise it stays. */
  lemma HitIsAnswered(t0: Table, states: seq<Signals>, t: Table, k: nat)
    requires Responds(t0, states, t) && 1 <= k < |t0.entries|
    ensures var e := t0.entries[k];
      if Hit(e, states[k]) then
        t0.answers <= t.answers && Answer(e.id, e.response, OK, states[k]) in t.answers[|t0.answers|..]
      else t.entries != [] && e in t.entries[1..]
    ensures |t.entries| + |t.answers| == |t0.entries| + |t0.answers|
  {
    hide Common;
    var ps: seq<(Entry, Signals)>, answered :|
      Split(t0, states, t, ps, answered) && forall k | 1 <= k < |ps| :: !Hit(ps[k].0, ps[k].1);
    var zip := Zip(t0.entries, states)[1..];
    assert |multiset(zip)| == |zip| && |multiset(ps[1..])| == |ps| - 1 && |multiset(answered)| == |answered|;
    var p := (t0.entries[k], states[k]);
    assert zip[k - 1] == p && p in multiset(zip);
    if Hit(p.0, p.1) {
      assert p !in ps[1..];
      assert p in multiset(answered);
      var j :| 0 <= j < |answered| && answered[j] == p;
      assert t.answers[|t0.answers|..] == OkAnswers(answered);
      assert OkAnswers(answered)[j] == Answer(p.0.id, p.0.response, OK, p.1);
    } else {
      assert p !in answered;
      assert p in multiset(ps[1..]);
      var j :| 0 <= j < |ps[1..]| && ps[1..][j] == p;
      assert t.entries[1..][j] == p.0;
    }
  }

  // ---------------------------------------------------------------- runs

  datatype Event =
    | Add(request: Request)
    | Cancel(id: nat)
    | Fail(index: nat, result: nat)  // WaitMany reports an error for one handle
    | Ready(states: seq<Signals>)    // WaitMany reports the states of all handles

  ghost predicate Step(t: Table, event: Event, t': Table) {
    match event
    case Add(r) => t.ids + 1 < TWO_64 && t' == Added(t, r)
    case Cancel(id) => t.entries != [] && t' == Cancelled(t, id)
    case Fail(index, result) => 0 < index < |t.entries| && t' == Answered(t, index, result, NoSignals)
    case Ready(states) => Responds(t, states, t')
  }

  ghost predicate Reaches(t: Table, events: seq<Event>, t': Table)
    decreases |events|, 0
  {
    if events == [] then t' == t else ReachesLast(t, events[..|events| - 1], events[|events| - 1], t')
  }

  ghost predicate ReachesLast(t: Table, events: seq<Event>, last: Event, t': Table)
    decreases |events|, 1
  {
    exists m :: Reaches(t, events, m) && Step(m, last, t')
  }

  function Requests(events: seq<Event>): seq<Request> {
    if events == [] then []
    else
      var last := events[|events| - 1];
      Requests(events[..|events| - 1]) + (if last.Add? then [last.request] else [])
  }

  function Cancels(events: seq<Event>): seq<nat> {
    if events == [] then []
    else
      var last := events[|events| - 1];
      Cancels(events[..|events| - 1]) + (if last.Cancel? then [last.id] else [])
  }

  lemma ReachesNothing(t: Table)
    ensures Reaches(t, [], t) && Requests([]) == [] && Cancels([]) == []
  {
  }

  lemma ReachesOne(t: Table, events: seq<Event>, m: Table, event: Event, t': Table)
    requires Reaches(t, events, m) && Step(m, event, t')
    ensures Reaches(t, events + [event], t')
    ensures Requests(events + [event]) == Requests(events) + (if event.Add? then [event.request] else [])
    ensures Cancels(events + [event]) == Cancels(events) + (if event.Cancel? then [event.id] else [])
  {
    assert (events + [event])[..|events|] == events;
  }

  lemma AddIs(t: Table, r: Request)
    requires t.ids + 1 < TWO_64
    ensures Step(t, Add(r), Added(t, r)) && Added(t, r).ids == t.ids + 1
  {
  }

  lemma CancelIs(t: Table, id: nat)
    requires t.entries != []
    ensures Step(t, Cancel(id), Cancelled(t, id)) && Cancelled(t, id).ids == t.ids
  {
  }

  /** A run from a fresh worker; it sees fewer than 2^64 waits. */
  ghost predicate IsRun(ts: seq<Table>, events: seq<Event>) {
    && |ts| == |events| + 1
    && |ts[0].entries| == 1 && ts[0].ids == 0 && ts[0].answers == []
    && forall i | 0 <= i < |events| :: Step(ts[i], events[i], ts[i + 1])
  }

  function EntryIds(es: seq<Entry>): seq<nat> {
    seq(|es|, i requires 0 <= i < |es| => es[i].id)
  }

  function AnswerIds(answers: seq<Answer>): seq<nat> {
    seq(|answers|, i requires 0 <= i < |answers| => answers[i].id)
  }

  /** Every number from 1 to n once. */
  function Upto(n: nat): multiset<nat> {
    if n == 0 then multiset{} else Upto(n - 1) + multiset{n}
  }

  lemma {:induction false} UptoCounts(n: nat, x: nat)
    ensures Upto(n)[x] == if 1 <= x <= n then 1 else 0
  {
    if n > 0 { UptoCounts(n - 1, x); }
  }

  /** Nothing is lost and nothing is answered twice: every wait so far is waiting or answered, once. */
  ghost predicate Conserved(t: Table) {
    && t.entries != []
    && multiset(EntryIds(t.entries[1..])) + multiset(AnswerIds(t.answers)) == Upto(t.ids)
  }

  lemma AddConserves(t: Table, r: Request)
    requires Conserved(t) && t.ids + 1 < TWO_64
    ensures Conserved(Added(t, r))
  {
    var t' := Added(t, r);
    assert EntryIds(t'.entries[1..]) == EntryIds(t.entries[1..]) + [t.ids + 1];
  }

  lemma AnsweredConserves(t: Table, index: nat, result: nat, state: Signals)
    requires Conserved(t) && 0 < index < |t.entries|
    ensures Conserved(Answered(t, index, result, state))
  {
    var t', ids := Answered(t, index, result, state), EntryIds(t.entries);
    SwapRemoveKeepsRest(ids, index);
    assert EntryIds(t'.entries) == SwapRemove(ids, index);
    assert EntryIds(t'.entries[1..]) == SwapRemove(ids, index)[1..] && EntryIds(t.entries[1..]) == ids[1..];
    assert AnswerIds(t'.answers) == AnswerIds(t.answers) + [ids[index]];
  }

  function PairIds(ps: seq<(Entry, Signals)>): seq<nat> {
    seq(|ps|, i requires 0 <= i < |ps| => ps[i].0.id)
  }

  function Without<T>(s: seq<T>, j: nat): seq<T>
    requires j < |s|
  {
    s[..j] + s[j + 1..]
  }

  lemma WithoutOne(ps: seq<(Entry, Signals)>, j: nat)
    requires j < |ps|
    ensures multiset(Without(ps, j)) == multiset(ps) - multiset{ps[j]}
    ensures multiset(PairIds(ps)) == multiset(PairIds(Without(ps, j))) + multiset{ps[j].0.id}
  {
    assert ps == ps[..j] + [ps[j]] + ps[j + 1..];
    assert PairIds(Without(ps, j)) == PairIds(ps[..j]) + PairIds(ps[j + 1..]);
    assert PairIds(ps) == PairIds(ps[..j]) + [ps[j].0.id] + PairIds(ps[j + 1..]);
  }

  lemma {:induction false} SamePairsSameIds(a: seq<(Entry, Signals)>, b: seq<(Entry, Signals)>)
    requires multiset(a) == multiset(b)
    ensures multiset(PairIds(a)) == multiset(PairIds(b))
    decreases |a|
  {
    hide Without, PairIds;
    if a == [] {
      assert |multiset(b)| == |b|;
    } else {
      assert a[0] in multiset(b);
      var j :| 0 <= j < |b| && b[j] == a[0];
      WithoutOne(a, 0);
      WithoutOne(b, j);
      WithoutLess(a, 0);
      SamePairsSameIds(Without(a, 0), Without(b, j));
    }
  }

  lemma WithoutLess<T>(s: seq<T>, j: nat)
    requires j < |s|
    ensures |Without(s, j)| < |s|
  {
  }

  lemma RespondsConserves(t: Table, states: seq<Signals>, t': Table)
    requires Conserved(t) && Responds(t, states, t')
    ensures Conserved(t')
  {
    hide Hit;
    var ps, answered :| Split(t, states, t', ps, answered);
    SplitIds(t, states, t', ps, answered);
  }

  lemma SplitIds(t: Table, states: seq<Signals>, t': Table, ps: seq<(Entry, Signals)>, answered: seq<(Entry, Signals)>)
    requires Split(t, states, t', ps, answered)
    ensures multiset(EntryIds(t.entries[1..])) == multiset(EntryIds(t'.entries[1..])) + multiset(PairIds(answered))
    ensures AnswerIds(t'.answers) == AnswerIds(t.answers) + PairIds(answered)
  {
    hide Hit;
    var zip := Zip(t.entries, states)[1..];
    SamePairsSameIds(zip, ps[1..] + answered);
    assert PairIds(ps[1..] + answered) == PairIds(ps[1..]) + PairIds(answered);
    assert PairIds(zip) == EntryIds(t.entries[1..]);
    assert PairIds(ps[1..]) == EntryIds(t'.entries[1..]);
  }

  lemma StepConserves(t: Table, event: Event, t': Table)
    requires Conserved(t) && Step(t, event, t')
    ensures Conserved(t')
    ensures t'.entries[0] == t.entries[0] && t.answers <= t'.answers && t.ids <= t'.ids
  {
    match event
    case Add(r) => AddConserves(t, r);
    case Cancel(id) =>
      if Find(t.entries, id, 1) < |t.entries| {
        AnsweredConserves(t, Find(t.entries, id, 1), ABORTED, NoSignals);
      }
    case Fail(index, result) => AnsweredConserves(t, index, result, NoSignals);
    case Ready(states) =>
      RespondsConserves(t, states, t');
      var ps, answered :| Split(t, states, t', ps, answered);
  }

  lemma {:induction false} RunConserves(ts: seq<Table>, events: seq<Event>, n: nat)
    requires IsRun(ts, events) && n <= |events|
    ensures Conserved(ts[n]) && ts[n].entries[0] == ts[0].entries[0]
  {
    if n > 0 {
      RunConserves(ts, events, n - 1);
      StepConserves(ts[n - 1], events[n - 1], ts[n]);
    }
  }

  lemma TwiceCounts(s: seq<nat>, i: nat, k: nat)
    requires i < k < |s| && s[i] == s[k]
    ensures multiset(s)[s[i]] >= 2
  {
    assert s == s[..k] + s[k..];
    assert s[..k][i] == s[i] && s[k..][0] == s[k];
  }

  /**
  Over every run: numbers of waiting and of answered waits are between 1 and the number of waits, no wait is answered
  twice, no answered wait is still waiting, and every wait is one or the other.
  */
  lemma AtMostOneAnswer(ts: seq<Table>, events: seq<Event>, n: nat)
    requires IsRun(ts, events) && n <= |events|
    ensures ts[n].entries != []
    ensures var t := ts[n]; var waiting, answered := EntryIds(t.entries[1..]), AnswerIds(t.answers);
      && (forall i, k | 0 <= i < k < |answered| :: answered[i] != answered[k])
      && (forall i, k | 0 <= i < k < |waiting| :: waiting[i] != waiting[k])
      && (forall id :: id in waiting && id in answered ==> false)
      && (forall id :: 1 <= id <= t.ids <==> id in waiting || id in answered)
      && t.entries[0] == ts[0].entries[0]
  {
    RunConserves(ts, events, n);
    var t := ts[n];
    var waiting, answered := EntryIds(t.entries[1..]), AnswerIds(t.answers);
    forall i, k | 0 <= i < k < |answered| ensures answered[i] != answered[k] {
      if answered[i] == answered[k] { TwiceCounts(answered, i, k); UptoCounts(t.ids, answered[i]); }
    }
    forall i, k | 0 <= i < k < |waiting| ensures waiting[i] != waiting[k] {
      if waiting[i] == waiting[k] { TwiceCounts(waiting, i, k); UptoCounts(t.ids, waiting[i]); }
    }
    forall id: int
      ensures !(id in waiting && id in answered) && (1 <= id <= t.ids <==> id in waiting || id in answered)
    {
      if id >= 0 {
        UptoCounts(t.ids, id);
        assert id in waiting <==> multiset(waiting)[id] > 0;
        assert id in answered <==> multiset(answered)[id] > 0;
      }
    }
  }

  /** Cancelling a wait that has been answered changes nothing. */
  lemma CancelAfterAnswer(ts: seq<Table>, events: seq<Event>, n: nat, id: nat)
    requires IsRun(ts, events) && n <= |events| && id in AnswerIds(ts[n].answers)
    ensures ts[n].entries != [] && Cancelled(ts[n], id) == ts[n]
  {
    RunConserves(ts, events, n);
    AtMostOneAnswer(ts, events, n);
    var t := ts[n];
    var waiting := EntryIds(t.entries[1..]);
    forall k | 1 <= k < |t.entries| ensures t.entries[k].id != id {
      assert waiting[k - 1] == t.entries[k].id;
    }
    FindIs(t.entries, id, 1, |t.entries|);
  }
}
