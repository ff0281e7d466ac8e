/**
The handle watcher thread of the Dart platform: four parallel vectors with the control handle at index 0, the inverse
map from handles to indices, and a set of timers ordered by deadline.
*/
module DartWatcher {
  import opened Collections

  const ILLEGAL_PORT := 0
  const PEER_CLOSED: bv32 := 4
  const READABLE: bv32 := 1

  /** What a handle is watched for, what WaitMany last said about it, and whom to tell. */
  datatype Watch = Watch(signals: bv32, state: bv32, port: int)

  datatype Post = Signal(port: int, signals: bv32) | Null(port: int)

  datatype Timer = Timer(deadline: int, port: int)

  function And(a: bv32, b: bv32): bv32 { a & b }

  function Or(a: bv32, b: bv32): bv32 { a | b }

  /** `PostSignal` and `PostNull` say nothing to the illegal port. */
  function Posted(p: Post): seq<Post> {
    if p.port == ILLEGAL_PORT then [] else [p]
  }

  predicate Hit(w: Watch) {
    And(w.state, w.signals) != 0
  }

  // ---------------------------------------------------------------- what the commands do to the watched handles

  function Added(ws: map<nat, Watch>, h: nat, signals: bv32, port: int): map<nat, Watch> {
    if h !in ws then ws[h := Watch(signals, 0, port)]
    else if ws[h].port != port then ws
    else ws[h := ws[h].(signals := Or(ws[h].signals, signals))]
  }

  /** A handle that already belongs to another port is refused by telling the new port that the peer is closed. */
  function AddedPosts(ws: map<nat, Watch>, h: nat, port: int): seq<Post> {
    if h in ws && ws[h].port != port then Posted(Signal(port, PEER_CLOSED)) else []
  }

  // ---------------------------------------------------------------- timers

  /** Deadlines strictly increase, and no port has two timers. */
  predicate TimersOk(ts: seq<Timer>) {
    && (forall i, k | 0 <= i < k < |ts| :: ts[i].deadline < ts[k].deadline)
    && (forall i, k | 0 <= i < k < |ts| :: ts[i].port != ts[k].port)
  }

  /** How many timers have a deadline before the given one. */
  function Before(ts: seq<Timer>, deadline: int): (n: nat)
    ensures n <= |ts|
    ensures forall i | 0 <= i < n :: ts[i].deadline < deadline
    ensures n < |ts| ==> deadline <= ts[n].deadline
  {
    if ts == [] || deadline <= ts[0].deadline then 0 else 1 + Before(ts[1..], deadline)
  }

  /** Inserting into a set that compares deadlines only: a second timer with the same deadline is dropped. */
  function Inserted(ts: seq<Timer>, t: Timer): seq<Timer> {
    var n := Before(ts, t.deadline);
    if n < |ts| && ts[n].deadline == t.deadline then ts else ts[..n] + [t] + ts[n..]
  }

  /** The index of the timer of a port, or the length. */
  function TimerOf(ts: seq<Timer>, port: int): (n: nat)
    ensures n <= |ts| && (n < |ts| ==> ts[n].port == port) && forall i | 0 <= i < n :: ts[i].port != port
  {
    if ts == [] || ts[0].port == port then 0 else 1 + TimerOf(ts[1..], port)
  }

  lemma {:induction false} TimerOfIs(ts: seq<Timer>, port: int, n: nat)
    requires n <= |ts| && (n < |ts| ==> ts[n].port == port) && forall i | 0 <= i < n :: ts[i].port != port
    ensures TimerOf(ts, port) == n
    decreases n
  {
    if n > 0 {
      assert forall i | 0 <= i < n - 1 :: ts[1..][i].port != port by {
        forall i | 0 <= i < n - 1 ensures ts[1..][i].port != port { assert ts[1..][i] == ts[i + 1]; }
      }
      TimerOfIs(ts[1..], port, n - 1);
    }
  }

  function Erased(ts: seq<Timer>, port: int): seq<Timer> {
    var n := TimerOf(ts, port);
    if n < |ts| then ts[..n] + ts[n + 1..] else ts
  }

  function Updated(ts: seq<Timer>, deadline: int, port: int): seq<Timer> {
    if deadline < 0 then Erased(ts, port) else Inserted(Erased(ts, port), Timer(deadline, port))
  }

  lemma ErasedHolds(ts: seq<Timer>, port: int, t: Timer)
    requires TimersOk(ts)
    ensures t in Erased(ts, port) <==> t in ts && t.port != port
  {
    var n, es := TimerOf(ts, port), Erased(ts, port);
    if n < |ts| {
      if t in es {
        var i :| 0 <= i < |es| && es[i] == t;
        assert t == ts[if i < n then i else i + 1];
      }
      if t in ts && t.port != port {
        var i :| 0 <= i < |ts| && ts[i] == t;
        assert es[if i < n then i else i - 1] == t;
      }
    }
  }

  lemma ErasedOk(ts: seq<Timer>, port: int)
    requires TimersOk(ts)
    ensures TimersOk(Erased(ts, port)) && forall i | 0 <= i < |Erased(ts, port)| :: Erased(ts, port)[i].port != port
  {
    hide TimerOf;
    var n, es := TimerOf(ts, port), Erased(ts, port);
    if n < |ts| {
      assert forall i | 0 <= i < |es| :: es[i] == ts[if i < n then i else i + 1];
      assert TimersOk(es);
    }
  }

  lemma InsertedOk(ts: seq<Timer>, t: Timer)
    requires TimersOk(ts) && forall i | 0 <= i < |ts| :: ts[i].port != t.port
    ensures TimersOk(Inserted(ts, t))
  {
    hide Before;
    var n, es := Before(ts, t.deadline), Inserted(ts, t);
    if |es| > |ts| {
      forall i, k | 0 <= i < k < |es|
        ensures es[i].deadline < es[k].deadline && es[i].port != es[k].port
      {
        InsertedAt(ts, t, i);
        InsertedAt(ts, t, k);
      }
    }
  }

  lemma InsertedAt(ts: seq<Timer>, t: Timer, i: nat)
    requires |Inserted(ts, t)| > |ts| && i <= |ts|
    ensures var n := Before(ts, t.deadline);
      Inserted(ts, t)[i] == if i < n then ts[i] else if i == n then t else ts[i - 1]
  {
  }

  lemma InsertedHolds(ts: seq<Timer>, t: Timer, x: Timer)
    ensures var n := Before(ts, t.deadline);
      x in Inserted(ts, t) <==> x in ts || (x == t && !(n < |ts| && ts[n].deadline == t.deadline))
  {
    var n := Before(ts, t.deadline);
    assert ts == ts[..n] + ts[n..];
  }

  /** Updating keeps the set well-formed, whatever the deadlines. */
  lemma UpdatedOk(ts: seq<Timer>, deadline: int, port: int)
    requires TimersOk(ts)
    ensures TimersOk(Updated(ts, deadline, port))
  {
    hide TimersOk, Erased, Inserted;
    ErasedOk(ts, port);
    if deadline >= 0 {
      InsertedOk(Erased(ts, port), Timer(deadline, port));
    }
  }

  predicate Taken(ts: seq<Timer>, deadline: int, port: int) {
    exists i | 0 <= i < |ts| :: ts[i].deadline == deadline && ts[i].port != port
  }

  /**
  What an update leaves: all timers of other ports, and the new timer if and only if its deadline is not negative and
  no other port has the same deadline.
  */
  lemma UpdatedHolds(ts: seq<Timer>, deadline: int, port: int, t: Timer)
    requires TimersOk(ts)
    ensures t in Updated(ts, deadline, port) <==>
      if t.port != port then t in ts else t.deadline == deadline >= 0 && !Taken(ts, deadline, port)
  {
    hide TimersOk, Erased, Inserted, Before, Taken;
    ErasedHolds(ts, port, t);
    if deadline >= 0 {
      InsertedHolds(Erased(ts, port), Timer(deadline, port), t);
      DeadlineTaken(ts, deadline, port);
    }
  }

  lemma DeadlineTaken(ts: seq<Timer>, deadline: int, port: int)
    requires TimersOk(ts)
    ensures var es := Erased(ts, port); var n := Before(es, deadline);
      (n < |es| && es[n].deadline == deadline) <==> Taken(ts, deadline, port)
  {
    hide Erased, Before;
    ErasedOk(ts, port);
    var es := Erased(ts, port);
    var n := Before(es, deadline);
    if n < |es| && es[n].deadline == deadline {
      ErasedHolds(ts, port, es[n]);
      var i :| 0 <= i < |ts| && ts[i] == es[n];
    }
    if Taken(ts, deadline, port) {
      var i :| 0 <= i < |ts| && ts[i].deadline == deadline && ts[i].port != port;
      ErasedHolds(ts, port, ts[i]);
      var k :| 0 <= k < |es| && es[k] == ts[i];
    }
  }

  /** A timer for the deadline of another port's timer is lost. */
  lemma EqualDeadlineIsLost()
    ensures Updated([Timer(5, 1)], 5, 2) == [Timer(5, 1)]
  {
    assert TimerOf([Timer(5, 1)], 2) == 1;
    assert Erased([Timer(5, 1)], 2) == [Timer(5, 1)];
    assert Before([Timer(5, 1)], 5) == 0;
  }

  // ---------------------------------------------------------------- the inverse map

  /** The map sends every handle of the vector to its index, and nothing else. */
  predicate Inverse(handles: seq<nat>, index: map<nat, nat>) {
    && (forall i | 0 <= i < |handles| :: handles[i] in index && index[handles[i]] == i)
    && (forall h | h in index :: index[h] < |handles| && handles[index[h]] == h)
  }

  function Reindexed(handles: seq<nat>, index: map<nat, nat>, i: nat): map<nat, nat>
    requires i < |handles|
  {
    var last := |handles| - 1;
    if i == last then index - {handles[i]} else (index - {handles[i]})[handles[last] := i]
  }

  lemma SwapKeepsInverse(handles: seq<nat>, index: map<nat, nat>, i: nat)
    requires Inverse(handles, index) && i < |handles|
    ensures Inverse(SwapRemove(handles, i), Reindexed(handles, index, i))
    ensures Reindexed(handles, index, i).Keys == index.Keys - {handles[i]}
    ensures forall h | h in index && h != handles[i] ::
      Reindexed(handles, index, i)[h] == if index[h] == |handles| - 1 then i else index[h]
  {
  }

  lemma AppendKeepsInverse(handles: seq<nat>, index: map<nat, nat>, h: nat)
    requires Inverse(handles, index) && h !in index
    ensures Inverse(handles + [h], index[h := |handles|])
  {
  }

  function Zip(signals: seq<bv32>, states: seq<bv32>, ports: seq<int>): (ws: seq<Watch>)
    requires |signals| == |states| == |ports|
    ensures |ws| == |signals| && forall i | 0 <= i < |ws| :: ws[i] == Watch(signals[i], states[i], ports[i])
  {
    seq(|signals|, i requires 0 <= i < |signals| => Watch(signals[i], states[i], ports[i]))
  }

  lemma ZipSwap(signals: seq<bv32>, states: seq<bv32>, ports: seq<int>, i: nat)
    requires i < |signals| == |states| == |ports|
    ensures Zip(SwapRemove(signals, i), SwapRemove(states, i), SwapRemove(ports, i)) ==
      SwapRemove(Zip(signals, states, ports), i)
  {
  }

  /** What is watched, by handle. */
  function Meaning(index: map<nat, nat>, ws: seq<Watch>): map<nat, Watch> {
    map h | h in index && index[h] < |ws| :: ws[index[h]]
  }

  lemma MeaningOf(handles: seq<nat>, index: map<nat, nat>, ws: seq<Watch>, h: nat)
    requires Inverse(handles, index) && |handles| == |ws|
    ensures h in Meaning(index, ws) <==> h in index
    ensures h in index ==> index[h] < |ws| && Meaning(index, ws)[h] == ws[index[h]]
  {
  }

  lemma SwapMeans(handles: seq<nat>, index: map<nat, nat>, ws: seq<Watch>, i: nat)
    requires Inverse(handles, index) && |handles| == |ws| && i < |handles|
    ensures Meaning(Reindexed(handles, index, i), SwapRemove(ws, i)) == Meaning(index, ws) - {handles[i]}
  {
    hide Inverse, Reindexed;
    SwapKeepsInverse(handles, index, i);
    var index', ws' := Reindexed(handles, index, i), SwapRemove(ws, i);
    forall h: nat
      ensures h in Meaning(index', ws') <==> h in index && h != handles[i]
      ensures h in index && h != handles[i] ==> Meaning(index', ws')[h] == ws[index[h]]
    {
      if h in index && h != handles[i] { IndexOther(handles, index, i, h); }
    }
    forall h: nat ensures h in Meaning(index, ws) <==> h in index { MeaningOf(handles, index, ws, h); }
  }

  lemma IndexOther(handles: seq<nat>, index: map<nat, nat>, i: nat, h: nat)
    requires Inverse(handles, index) && i < |handles| && h in index && h != handles[i]
    ensures index[h] != i && index[h] < |handles|
  {
  }

  lemma AppendMeans(handles: seq<nat>, index: map<nat, nat>, ws: seq<Watch>, h: nat, w: Watch)
    requires Inverse(handles, index) && |handles| == |ws| && h !in index
    ensures Meaning(index[h := |ws|], ws + [w]) == Meaning(index, ws)[h := w]
  {
  }

  lemma UpdateMeans(handles: seq<nat>, index: map<nat, nat>, ws: seq<Watch>, h: nat, w: Watch)
    requires Inverse(handles, index) && |handles| == |ws| && h in index
    ensures index[h] < |ws| && Meaning(index, ws[index[h] := w]) == Meaning(index, ws)[h := w]
  {
  }

  // ---------------------------------------------------------------- the thread's state

  class HandleWatcher {
    const control: nat
    var handles: seq<nat>
    var signals: seq<bv32>
    var states: seq<bv32>
    var ports: seq<int>
    var index: map<nat, nat>
    var timers: seq<Timer>
    var shutdown: bool
    var posts: seq<Post>    // everything posted to Dart
    var closed: seq<nat>    // every handle closed

    /** The vectors are parallel, the map is the exact inverse of the handles, and index 0 is the control handle. */
    ghost predicate Valid()
      reads this
    {
      && |handles| == |signals| == |states| == |ports| >= 1
      && handles[0] == control
      && Inverse(handles, index)
      && TimersOk(timers)
    }

    ghost function Watches(): seq<Watch>
      requires Valid()
      reads this
    {
      Zip(signals, states, ports)
    }

    ghost function Watching(): map<nat, Watch>
      requires Valid()
      reads this
    {
      Meaning(index, Watches())
    }

    constructor (control: nat)
      ensures Valid() && this.control == control && posts == [] && timers == [] && !shutdown && closed == []
      ensures Watching() == map[control := Watch(READABLE, 0, ILLEGAL_PORT)]
    {
      this.control := control;
      handles, signals, states, ports := [control], [READABLE], [0], [ILLEGAL_PORT];
      index := map[control := 0];
      timers, shutdown, posts, closed := [], false, [], [];
    }

    method AddHandle(handle: nat, sigs: bv32, port: int)
      requires Valid()
      modifies `handles, `signals, `states, `ports, `index, `posts
      ensures Valid()
      ensures Watching() == Added(old(Watching()), handle, sigs, port)
      ensures posts == old(posts) + AddedPosts(old(Watching()), handle, port)
    {
      hide Or, Posted, Inverse, TimersOk, Meaning;
      ghost var ws := Watches();
      MeaningOf(handles, index, ws, handle);
      if handle in index {
        var i := index[handle];
        if ports[i] != port {
          posts := posts + Posted(Signal(port, PEER_CLOSED));
          return;
        }
        UpdateMeans(handles, index, ws, handle, ws[i].(signals := Or(ws[i].signals, sigs)));
        signals := signals[i := Or(signals[i], sigs)];
        assert Watches() == ws[i := ws[i].(signals := Or(ws[i].signals, sigs))];
      } else {
        AppendKeepsInverse(handles, index, handle);
        AppendMeans(handles, index, ws, handle, Watch(sigs, 0, port));
        index := index[handle := |handles|];
        handles, signals, states, ports := handles + [handle], signals + [sigs], states + [0], ports + [port];
        assert Watches() == ws + [Watch(sigs, 0, port)];
      }
    }

    /** The last entry takes the removed one's place; what is watched otherwise stays. */
    method RemoveHandleAtIndex(i: nat)
      requires Valid() && 0 < i < |handles|
      modifies `handles, `signals, `states, `ports, `index
      ensures Valid()
      ensures Watching() == old(Watching()) - {old(handles[i])}
      ensures handles == SwapRemove(old(handles), i) && Watches() == SwapRemove(old(Watches()), i)
    {
      hide TimersOk, Inverse, Meaning, Zip;
      var last := |handles| - 1;
      ZipSwap(signals, states, ports, i);
      SwapKeepsInverse(handles, index, i);
      SwapMeans(handles, index, Watches(), i);
      var hs, sigs, sts, ps, inverse := handles, signals, states, ports, index - {handles[i]};
      if i != last {
        hs, sigs, sts, ps := hs[i := hs[last]], sigs[i := sigs[last]], sts[i := sts[last]], ps[i := ps[last]];
        inverse := inverse[handles[last] := i];
      } else {
        assert hs[i := hs[last]] == hs && sigs[i := sigs[last]] == sigs && sts[i := sts[last]] == sts &&
          ps[i := ps[last]] == ps;
      }
      handles, signals, states, ports, index := hs[..last], sigs[..last], sts[..last], ps[..last], inverse;
    }

    lemma Known(h: nat)
      requires Valid()
      ensures h in Watching() <==> h in index
      ensures h in index ==> index[h] < |handles| && handles[index[h]] == h && Watching()[h] == Watches()[index[h]]
      ensures h !in index ==> Watching() - {h} == Watching()
      ensures h in index && h != control ==> index[h] != 0
    {
      MeaningOf(handles, index, Watches(), h);
    }

    /** Removing a handle that is not watched is not an error; removing the control handle is. */
    method RemoveHandle(handle: nat)
      requires Valid() && handle != control
      modifies `handles, `signals, `states, `ports, `index
      ensures Valid() && Watching() == old(Watching()) - {handle}
    {
      hide TimersOk, Inverse, Meaning;
      Known(handle);
      if handle !in index { return; }
      RemoveHandleAtIndex(index[handle]);
    }

    /** Closes a handle, watched or not, and tells whoever asked or, when pruning, whoever watched it. */
    method CloseHandle(handle: nat, port: int, pruning: bool)
      requires Valid() && handle != control && (pruning ==> port == ILLEGAL_PORT)
      modifies `handles, `signals, `states, `ports, `index, `posts, `closed
      ensures Valid() && Watching() == old(Watching()) - {handle}
      ensures closed == old(closed) + [handle]
      ensures posts == old(posts) + Posted(Null(port)) +
        (if pruning && handle in old(Watching()) then Posted(Signal(old(Watching())[handle].port, PEER_CLOSED)) else [])
    {
      hide TimersOk, Inverse, Meaning;
      Known(handle);
      closed := closed + [handle];
      if port != ILLEGAL_PORT {
        posts := posts + [Null(port)];
      }
      if handle !in index { return; }
      var i := index[handle];
      if pruning {
        posts := posts + Posted(Signal(ports[i], PEER_CLOSED));
      }
      RemoveHandle(handle);
    }

    /** Cancels the port's timer and, unless the deadline is negative, sets a new one. */
    method UpdateTimer(deadline: int, port: int)
      requires Valid()
      modifies `timers
      ensures Valid() && timers == Updated(old(timers), deadline, port)
    {
      hide TimersOk, Inverse, Inserted, TimerOf;
      UpdatedOk(timers, deadline, port);
      ghost var ts := timers;
      var n := 0;
      while n < |timers| && timers[n].port != port
        invariant 0 <= n <= |timers|
        invariant forall i | 0 <= i < n :: timers[i].port != port
      {
        n := n + 1;
      }
      TimerOfIs(timers, port, n);
      if n < |timers| {
        timers := timers[..n] + timers[n + 1..];
      }
      if deadline < 0 { return; }
      timers := Inserted(timers, Timer(deadline, port));
    }

    /**
    Completes the timers that are due, reading the clock again after each.  `done` timers complete, in the order of
    their deadlines and none before its deadline; what is left lies behind the last reading, and what is done does not.
    */
    method ProcessTimers(clock: nat -> int, first: nat) returns (done: nat, now: int)
      requires Valid() && forall i, k | first <= i <= k :: clock(i) <= clock(k)
      modifies `timers, `posts
      ensures Valid() && done <= |old(timers)| && timers == old(timers)[done..]
      ensures posts == old(posts) + Completed(old(timers)[..done])
      ensures now == clock(first + done)
      ensures forall i | 0 <= i < done :: old(timers)[i].deadline <= clock(first + i)
      ensures forall i | 0 <= i < done :: old(timers)[i].deadline <= now
      ensures forall i | 0 <= i < |timers| :: now < timers[i].deadline
    {
      hide Inverse, Completed, Posted;
      done, now := 0, clock(first);
      ghost var ts := timers;
      NothingCompleted();
      assert ts[..0] == [];
      while timers != [] && now >= timers[0].deadline
        invariant 0 <= done <= |ts| && timers == ts[done..] && now == clock(first + done)
        invariant posts == old(posts) + Completed(ts[..done])
        invariant forall i | 0 <= i < done :: ts[i].deadline <= clock(first + i) && ts[i].deadline <= now
        decreases |timers|
      {
        CompletedOne(ts, done);
        posts := posts + Posted(Null(timers[0].port));
        timers := timers[1..];
        done := done + 1;
        assert now <= clock(first + done);
        now := clock(first + done);
      }
    }

    /** The indices to remove, highest first, after posting to the ports of all handles that are hit. */
    method NotifyHits() returns (toRemove: seq<nat>)
      requires Valid()
      modifies `posts
      ensures Valid()
      ensures posts == old(posts) + HitPosts(Watches(), |handles|)
      ensures IsHits(toRemove, Watches(), 1)
    {
      hide And, Posted, Inverse, TimersOk, Meaning, HitPosts, IsHits;
      ghost var ws := Watches();
      var i := |handles| - 1;
      toRemove := [];
      HitsStart(ws);
      while i > 0
        invariant 0 <= i < |handles|
        invariant posts + HitPosts(ws, i + 1) == old(posts) + HitPosts(ws, |handles|)
        invariant IsHits(toRemove, ws, i + 1)
      {
        HitsStep(toRemove, ws, i);
        var satisfied := And(states[i], signals[i]);
        if satisfied != 0 {
          posts := posts + Posted(Signal(ports[i], satisfied));
          toRemove := toRemove + [i];
        }
        i := i - 1;
      }
      HitsStep([], ws, 0);
    }

    /** Removing from high to low, no index that is still to be removed ever moves. */
    method RemoveAll(toRemove: seq<nat>)
      requires Valid() && IsHits(toRemove, Watches(), 1)
      modifies `handles, `signals, `states, `ports, `index
      ensures Valid() && Watching() == old(Watching()) - HandlesAt(old(handles), toRemove)
      ensures states[0] == old(states[0]) && signals[0] == old(signals[0])
    {
      hide Hit, Inverse, TimersOk, Meaning, HandlesAt;
      ghost var hs, ws := handles, Watches();
      var k := 0;
      HandlesAtStart(hs, toRemove);
      assert Watching() - {} == Watching();
      while k < |toRemove|
        invariant 0 <= k <= |toRemove| && Valid() && |handles| == |hs| - k
        invariant Watching() == old(Watching()) - HandlesAt(hs, toRemove[..k])
        invariant forall j | 0 <= j < if k == 0 then |hs| else toRemove[k - 1] ::
          handles[j] == hs[j] && Watches()[j] == ws[j]
        invariant states[0] == old(states[0]) && signals[0] == old(signals[0])
      {
        var i := toRemove[k];
        HandlesAtOne(hs, toRemove, k);
        ghost var w := Watching();
        RemoveHandleAtIndex(i);
        assert Watching() == old(Watching()) - (HandlesAt(hs, toRemove[..k]) + {hs[i]});
        k := k + 1;
      }
      assert toRemove[..k] == toRemove;
    }

    /** WaitMany succeeded: everybody who is hit is told once and no longer watched; everybody else stays. */
    method ProcessReady(satisfied: seq<bv32>) returns (control: bool)
      requires Valid() && |satisfied| == |handles|
      modifies `handles, `signals, `states, `ports, `index, `posts
      ensures Valid()
      ensures var ws := Zip(old(signals), satisfied, old(ports));
        && Watching() == Unhit(this.control, Meaning(old(index), ws))
        && posts == old(posts) + HitPosts(ws, |ws|)
        && control == Hit(ws[0])
    {
      hide And, Inverse, TimersOk, Meaning, HitPosts, HandlesAt, IsHits;
      states := satisfied;
      var toRemove := NotifyHits();
      UnhitIs(this.control, handles, index, Watches(), toRemove);
      RemoveAll(toRemove);
      control := And(states[0], signals[0]) != 0;
    }

    /**
    WaitMany failed: every handle whose peer is gone is closed, its port told, and no longer watched.  Whether a
    handle is gone is read from its state, or if the states are not valid asked of each handle.
    */
    method PruneClosedHandles(satisfied: seq<bv32>, valid: bool, asked: seq<bool>)
      requires Valid() && |satisfied| == |asked| == |handles| && !GoneFlags(satisfied, valid, asked)[0]
      modifies `handles, `signals, `states, `ports, `index, `posts, `closed
      ensures Valid()
      ensures var list := Gone(old(handles), GoneFlags(satisfied, valid, asked));
        var w := Meaning(old(index), Zip(old(signals), satisfied, old(ports)));
        && Watching() == w - Members(list)
        && closed == old(closed) + list
        && posts == old(posts) + GonePosts(w, list)
    {
      hide And, Posted, Inverse, TimersOk, Meaning, Gone, GonePosts;
      states := satisfied;
      var list := CollectGone(valid, asked);
      GoneIs(handles, index, Watches(), GoneFlags(satisfied, valid, asked));
      CloseAll(list);
    }

    method CloseAll(list: seq<nat>)
      requires Valid() && (forall i | 0 <= i < |list| :: list[i] in Watching() && list[i] != control)
      requires forall i, k | 0 <= i < k < |list| :: list[i] != list[k]
      modifies `handles, `signals, `states, `ports, `index, `posts, `closed
      ensures Valid() && Watching() == old(Watching()) - Members(list)
      ensures closed == old(closed) + list && posts == old(posts) + GonePosts(old(Watching()), list)
    {
      hide Posted, Inverse, TimersOk, Meaning;
      ghost var w0 := Watching();
      var k := 0;
      assert Watching() - {} == Watching();
      while k < |list|
        invariant 0 <= k <= |list| && Valid()
        invariant Watching() == w0 - Members(list[..k])
        invariant closed == old(closed) + list[..k]
        invariant posts == old(posts) + GonePosts(w0, list[..k])
      {
        assert list[k] !in list[..k];
        assert list[..k + 1] == list[..k] + [list[k]];
        ghost var w := Watching();
        assert list[k] in w && w[list[k]] == w0[list[k]];
        CloseHandle(list[k], ILLEGAL_PORT, true);
        assert Watching() == w0 - Members(list[..k + 1]);
        NothingPosted();
        k := k + 1;
      }
      assert list[..k] == list;
    }

    method CollectGone(valid: bool, asked: seq<bool>) returns (list: seq<nat>)
      requires Valid() && |asked| == |handles|
      ensures list == Gone(handles, GoneFlags(states, valid, asked))
    {
      hide And;
      list := [];
      ghost var gone := GoneFlags(states, valid, asked);
      var i := 0;
      while i < |handles|
        invariant 0 <= i <= |handles|
        invariant list == Gone(handles[..i], gone[..i])
      {
        assert handles[..i + 1][..i] == handles[..i] && gone[..i + 1][..i] == gone[..i];
        if if valid then And(states[i], PEER_CLOSED) != 0 else asked[i] {
          list := list + [handles[i]];
        }
        i := i + 1;
      }
      assert handles[..i] == handles && gone[..i] == gone;
    }

    /** Commands that remove or close never name the control handle: the source checks that and aborts. */
    method ProcessControlMessage(command: Command)
      requires Valid() && !Removes(command, control)
      modifies this
      ensures Valid() && View() == Commanded(old(View()), command)
    {
      hide Inverse, TimersOk, Meaning, Updated, Added, AddedPosts;
      match command
      case AddHandle(h, signals, port) => AddHandle(h, signals, port);
      case RemoveHandle(h) => RemoveHandle(h);
      case CloseHandle(h, port) => CloseHandle(h, port, false);
      case AddTimer(deadline, port) => UpdateTimer(deadline, port);
      case Shutdown => shutdown := true;
    }

    ghost function View(): State
      requires Valid()
      reads this
    {
      State(Watching(), timers, posts, closed, shutdown)
    }
  }

  // ---------------------------------------------------------------- results of WaitMany

  /** What is posted for indices 1 to n - 1, highest first. */
  function HitPosts(ws: seq<Watch>, n: nat): seq<Post>
    requires n <= |ws|
  {
    if n <= 1 then []
    else PostsOf(ws[n - 1]) + HitPosts(ws, n - 1)
  }

  predicate Tells(w: Watch, p: Post) {
    Hit(w) && p == Signal(w.port, And(w.state, w.signals)) && p.port != ILLEGAL_PORT
  }

  /** The indices from 1 to n - 1 whose handle is hit and makes this post. */
  function Told(ws: seq<Watch>, n: nat, p: Post): set<nat>
    requires n <= |ws|
  {
    set i | 1 <= i < n && Tells(ws[i], p)
  }

  function PostsOf(w: Watch): seq<Post> {
    if Hit(w) then Posted(Signal(w.port, And(w.state, w.signals))) else []
  }

  lemma ToldOnce(w: Watch, p: Post)
    ensures multiset(PostsOf(w))[p] == if Tells(w, p) then 1 else 0
  {
    hide And;
  }

  lemma OneMoreTold(ws: seq<Watch>, n: nat, p: Post)
    requires 1 <= n < |ws|
    ensures |Told(ws, n + 1, p)| ==
      |Told(ws, n, p)| + if Tells(ws[n], p) then 1 else 0
  {
    hide Tells;
    assert Told(ws, n + 1, p) == if Tells(ws[n], p) then Told(ws, n, p) + {n} else Told(ws, n, p);
  }

  /** Every post is made once for each handle that is hit and told so, and for no other. */
  lemma {:induction false} HitPostsExact(ws: seq<Watch>, n: nat, p: Post)
    requires n <= |ws|
    ensures multiset(HitPosts(ws, n))[p] == |Told(ws, n, p)|
  {
    hide Tells, PostsOf;
    if n <= 1 {
      assert Told(ws, n, p) == {};
    } else {
      HitPostsExact(ws, n - 1, p);
      OneMoreTold(ws, n - 1, p);
      ToldOnce(ws[n - 1], p);
    }
  }

  /** The indices from `low` on that are hit, in descending order. */
  ghost predicate IsHits(indices: seq<nat>, ws: seq<Watch>, low: nat) {
    && (forall k | 0 <= k < |indices| :: low <= indices[k] < |ws| - k && Hit(ws[indices[k]]))
    && (forall k, l | 0 <= k < l < |indices| :: indices[l] < indices[k])
    && (forall i | low <= i < |ws| && Hit(ws[i]) :: i in indices)
    && (low <= |ws| ==> |indices| <= |ws| - low)
  }

  lemma HitsStart(ws: seq<Watch>)
    ensures IsHits([], ws, |ws|)
  {
  }

  lemma HitsStep(indices: seq<nat>, ws: seq<Watch>, i: nat)
    requires i < |ws|
    ensures i == 0 ==> HitPosts(ws, 1) == []
    ensures i > 0 ==>
      HitPosts(ws, i + 1) == PostsOf(ws[i]) + HitPosts(ws, i)
    ensures IsHits(indices, ws, i + 1) ==> IsHits(if Hit(ws[i]) then indices + [i] else indices, ws, i)
  {
    hide Hit, PostsOf;
    if IsHits(indices, ws, i + 1) && Hit(ws[i]) {
      var js := indices + [i];
      assert forall k | 0 <= k < |js| :: js[k] == if k < |indices| then indices[k] else i;
    }
  }

  function HandlesAt(handles: seq<nat>, indices: seq<nat>): set<nat> {
    set k | 0 <= k < |indices| && indices[k] < |handles| :: handles[indices[k]]
  }

  lemma HandlesAtStart(handles: seq<nat>, indices: seq<nat>)
    ensures HandlesAt(handles, indices[..0]) == {}
  {
  }

  lemma HandlesAtOne(handles: seq<nat>, indices: seq<nat>, k: nat)
    requires k < |indices| && indices[k] < |handles|
    ensures HandlesAt(handles, indices[..k + 1]) == HandlesAt(handles, indices[..k]) + {handles[indices[k]]}
  {
    var a, b := HandlesAt(handles, indices[..k + 1]), HandlesAt(handles, indices[..k]) + {handles[indices[k]]};
    forall h ensures h in a <==> h in b {
      if h in a {
        var m :| 0 <= m < k + 1 && indices[..k + 1][m] < |handles| && handles[indices[..k + 1][m]] == h;
        if m < k { assert indices[..k][m] == indices[m]; }
      }
      if h in HandlesAt(handles, indices[..k]) {
        var m :| 0 <= m < k && indices[..k][m] < |handles| && handles[indices[..k][m]] == h;
        assert indices[..k + 1][m] == indices[m];
      }
      if h == handles[indices[k]] { assert indices[..k + 1][k] == indices[k]; }
    }
  }

  /** What is still watched after a round: the control handle and whatever was not hit. */
  function Unhit(control: nat, w: map<nat, Watch>): map<nat, Watch> {
    map h | h in w && (h == control || !Hit(w[h])) :: w[h]
  }

  lemma UnhitIs(control: nat, handles: seq<nat>, index: map<nat, nat>, ws: seq<Watch>, indices: seq<nat>)
    requires Inverse(handles, index) && |handles| == |ws| >= 1 && handles[0] == control && IsHits(indices, ws, 1)
    ensures Meaning(index, ws) - HandlesAt(handles, indices) == Unhit(control, Meaning(index, ws))
  {
    hide Hit, Meaning, Inverse;
    var w := Meaning(index, ws);
    forall h: nat
      ensures h in w ==> (h in HandlesAt(handles, indices) <==> h != control && Hit(w[h]))
    {
      MeaningOf(handles, index, ws, h);
      if h in w { HitHandle(control, handles, index, ws, indices, h); }
    }
  }

  lemma HitHandle(control: nat, handles: seq<nat>, index: map<nat, nat>, ws: seq<Watch>, indices: seq<nat>, h: nat)
    requires Inverse(handles, index) && |handles| == |ws| >= 1 && handles[0] == control && IsHits(indices, ws, 1) &&
      h in index
    ensures index[h] < |ws| && (h in HandlesAt(handles, indices) <==> h != control && Hit(ws[index[h]]))
  {
    hide Hit;
    if h in HandlesAt(handles, indices) {
      var k :| 0 <= k < |indices| && indices[k] < |handles| && handles[indices[k]] == h;
      assert index[h] == indices[k];
    }
    if h != control && Hit(ws[index[h]]) {
      assert index[h] in indices;
      var k :| 0 <= k < |indices| && indices[k] == index[h];
      assert handles[indices[k]] == h;
    }
  }

  // ---------------------------------------------------------------- pruning

  /** Which handles are gone. */
  function GoneFlags(states: seq<bv32>, valid: bool, asked: seq<bool>): seq<bool>
    requires |states| == |asked|
  {
    seq(|states|, i requires 0 <= i < |states| => if valid then And(states[i], PEER_CLOSED) != 0 else asked[i])
  }

  function Gone(handles: seq<nat>, gone: seq<bool>): seq<nat>
    requires |handles| == |gone|
  {
    if handles == [] then []
    else
      var n := |handles| - 1;
      Gone(handles[..n], gone[..n]) + (if gone[n] then [handles[n]] else [])
  }

  function Members(list: seq<nat>): set<nat> {
    set h | h in list
  }

  function GonePosts(w: map<nat, Watch>, list: seq<nat>): seq<Post> {
    if list == [] then []
    else
      var h := list[|list| - 1];
      GonePosts(w, list[..|list| - 1]) + (if h in w then Posted(Signal(w[h].port, PEER_CLOSED)) else [])
  }

  lemma {:induction false} GoneHolds(handles: seq<nat>, gone: seq<bool>, h: nat)
    requires |handles| == |gone|
    ensures h in Gone(handles, gone) <==> exists i | 0 <= i < |handles| :: handles[i] == h && gone[i]
    decreases |handles|
  {
    if handles != [] {
      var n := |handles| - 1;
      GoneHolds(handles[..n], gone[..n], h);
      if i :| 0 <= i < |handles| && handles[i] == h && gone[i] {
        if i < n { assert handles[..n][i] == h && gone[..n][i]; }
      }
      if i :| 0 <= i < n && handles[..n][i] == h && gone[..n][i] {
        assert handles[i] == h && gone[i];
      }
    }
  }

  lemma {:induction false} GoneDistinct(handles: seq<nat>, gone: seq<bool>)
    requires |handles| == |gone| && forall i, k | 0 <= i < k < |handles| :: handles[i] != handles[k]
    ensures forall i, k | 0 <= i < k < |Gone(handles, gone)| :: Gone(handles, gone)[i] != Gone(handles, gone)[k]
    decreases |handles|
  {
    if handles != [] {
      var n := |handles| - 1;
      GoneDistinct(handles[..n], gone[..n]);
      GoneHolds(handles[..n], gone[..n], handles[n]);
    }
  }

  lemma GoneIs(handles: seq<nat>, index: map<nat, nat>, ws: seq<Watch>, gone: seq<bool>)
    requires Inverse(handles, index) && |handles| == |ws| == |gone| >= 1 && !gone[0]
    ensures var list := Gone(handles, gone);
      && (forall i, k | 0 <= i < k < |list| :: list[i] != list[k])
      && (forall i | 0 <= i < |list| :: list[i] in Meaning(index, ws) && list[i] != handles[0])
  {
    var list := Gone(handles, gone);
    GoneDistinct(handles, gone);
    forall i | 0 <= i < |list| ensures list[i] in Meaning(index, ws) && list[i] != handles[0] {
      GoneHolds(handles, gone, list[i]);
      MeaningOf(handles, index, ws, list[i]);
    }
  }

  lemma NothingPosted()
    ensures Posted(Null(ILLEGAL_PORT)) == []
  {
  }

  // ---------------------------------------------------------------- commands

  datatype Command =
    | AddHandle(handle: nat, signals: bv32, port: int)
    | RemoveHandle(handle: nat)
    | CloseHandle(handle: nat, port: int)
    | AddTimer(deadline: int, port: int)
    | Shutdown

  datatype State =
    State(watching: map<nat, Watch>, timers: seq<Timer>, posts: seq<Post>, closed: seq<nat>, shutdown: bool)

  predicate Removes(c: Command, h: nat) {
    (c.RemoveHandle? || c.CloseHandle?) && c.handle == h
  }

  function Commanded(s: State, c: Command): State {
    match c
    case AddHandle(h, signals, port) =>
      s.(watching := Added(s.watching, h, signals, port), posts := s.posts + AddedPosts(s.watching, h, port))
    case RemoveHandle(h) => s.(watching := s.watching - {h})
    case CloseHandle(h, port) =>
      s.(watching := s.watching - {h}, posts := s.posts + Posted(Null(port)), closed := s.closed + [h])
    case AddTimer(deadline, port) => s.(timers := Updated(s.timers, deadline, port))
    case Shutdown => s.(shutdown := true)
  }

  function Completed(ts: seq<Timer>): seq<Post> {
    if ts == [] then [] else Completed(ts[..|ts| - 1]) + Posted(Null(ts[|ts| - 1].port))
  }

  lemma NothingCompleted()
    ensures Completed([]) == []
  {
  }

  lemma CompletedOne(ts: seq<Timer>, n: nat)
    requires n < |ts|
    ensures Completed(ts[..n + 1]) == Completed(ts[..n]) + Posted(Null(ts[n].port))
  {
    assert ts[..n + 1][..n] == ts[..n];
  }
}
