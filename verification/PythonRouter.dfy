/**
The router of the Python bindings: request ids come from a cursor that wraps modulo 2^64 and skips 0 and every id
whose responder is still pending.
*/
module PythonRouter {
  import opened Collections
  const TWO_64 := 0x1_0000_0000_0000_0000


  // ---------------------------------------------------------------- the next id

  predicate Free(id: nat, used: set<nat>) {
    id != 0 && id !in used
  }

  /** The id `k` places behind the cursor. */
  function Ahead(cursor: nat, k: nat): nat {
    (cursor + k) % TWO_64
  }

  /** `id` is the first free id at or cyclically behind the cursor. */
  ghost predicate FirstFree(id: nat, cursor: nat, used: set<nat>) {
    exists k: nat ::
      && k < TWO_64
      && id == Ahead(cursor, k)
      && Free(id, used)
      && forall i: nat | i < k :: !Free(Ahead(cursor, i), used)
  }

  ghost predicate SomeFree(used: set<nat>) {
    exists id: nat :: id < TWO_64 && Free(id, used)
  }

  /** How far ahead a free id is. */
  lemma FreeAhead(cursor: nat, used: set<nat>) returns (k: nat)
    requires cursor < TWO_64 && SomeFree(used)
    ensures k < TWO_64 && Free(Ahead(cursor, k), used)
  {
    var id: nat :| id < TWO_64 && Free(id, used);
    k := if id >= cursor then id - cursor else id + TWO_64 - cursor;
    assert Ahead(cursor, k) == id;
  }

  lemma AheadNext(cursor: nat, k: nat)
    ensures (Ahead(cursor, k) + 1) % TWO_64 == Ahead(cursor, k + 1)
  {
  }

  /** There is only one first free id. */
  lemma FirstFreeUnique(a: nat, b: nat, cursor: nat, used: set<nat>)
    requires FirstFree(a, cursor, used) && FirstFree(b, cursor, used)
    ensures a == b
  {
    var k: nat :|
      k < TWO_64 && a == Ahead(cursor, k) && Free(a, used) && forall i: nat | i < k :: !Free(Ahead(cursor, i), used);
    var l: nat :|
      l < TWO_64 && b == Ahead(cursor, l) && Free(b, used) && forall i: nat | i < l :: !Free(Ahead(cursor, i), used);
    assert k <= l && l <= k;
  }

  // ---------------------------------------------------------------- the router

  /** `sent` is the log of (request id, responder) of accepted requests; `delivered` of the responses handed over. */
  class Router {
    var nextRequestId: nat
    var responders: map<nat, nat>
    var sent: seq<(nat, nat)>
    var delivered: seq<(nat, nat)>

    ghost predicate Valid()
      reads this
    {
      && nextRequestId < TWO_64
      && (forall id | id in responders :: 0 < id < TWO_64)
    }

    ghost function View(): State
      reads this
    {
      State(nextRequestId, responders, sent, delivered)
    }

    constructor ()
      ensures Valid() && View() == State(1, map[], [], [])
    {
      nextRequestId, responders, sent, delivered := 1, map[], [], [];
    }

    /** Terminates whenever some id is free, and finds the first one. */
    method NextRequestId() returns (id: nat)
      requires Valid() && SomeFree(responders.Keys)
      modifies `nextRequestId
      ensures Valid() && 0 < id < TWO_64 && id !in responders
      ensures FirstFree(id, old(nextRequestId), responders.Keys)
      ensures nextRequestId == (id + 1) % TWO_64
    {
      ghost var cursor := nextRequestId;
      ghost var bound := FreeAhead(cursor, responders.Keys);
      ghost var k := 0;
      id := nextRequestId;
      while id == 0 || id in responders
        invariant k <= bound && id == Ahead(cursor, k)
        invariant forall i: nat | i < k :: !Free(Ahead(cursor, i), responders.Keys)
        decreases bound - k
      {
        AheadNext(cursor, k);
        id := (id + 1) % TWO_64;
        k := k + 1;
      }
      nextRequestId := (id + 1) % TWO_64;
    }

    /** `accepted` is what the connector answers. */
    method AcceptWithResponder(responder: nat, accepted: bool) returns (ok: bool, id: nat)
      requires Valid() && SomeFree(responders.Keys)
      modifies this
      ensures Valid() && ok == accepted
      ensures old(View()).Sends(id, responder, accepted, View())
    {
      id := NextRequestId();
      if !accepted { return false, id; }
      responders := responders[id := responder];
      sent := sent + [(id, responder)];
      return true, id;
    }

    /** The responder of a response, popped from the table; a response nobody waits for is refused. */
    method HandleResponse(id: nat) returns (responder: Option<nat>)
      requires Valid()
      modifies this
      ensures Valid() && View() == old(View()).Receives(id)
      ensures responder == if id in old(responders) then Some(old(responders)[id]) else None
    {
      if id !in responders { return None; }
      responder := Some(responders[id]);
      delivered := delivered + [(id, responders[id])];
      responders := responders - {id};
    }
  }

  // ---------------------------------------------------------------- runs

  datatype State = State(next: nat, responders: map<nat, nat>, sent: seq<(nat, nat)>, delivered: seq<(nat, nat)>) {
    ghost predicate Sends(id: nat, responder: nat, accepted: bool, s: State) {
      && FirstFree(id, next, responders.Keys)
      && s == State((id + 1) % TWO_64,
                    if accepted then responders[id := responder] else responders,
                    if accepted then sent + [(id, responder)] else sent, delivered)
    }

    function Receives(id: nat): State {
      if id in responders then State(next, responders - {id}, sent, delivered + [(id, responders[id])]) else this
    }
  }

  datatype Event = Send(id: nat, responder: nat, accepted: bool) | Receive(id: nat)

  ghost predicate Step(s: State, e: Event, s': State) {
    match e
    case Send(id, responder, accepted) => s.Sends(id, responder, accepted, s')
    case Receive(id) => s' == s.Receives(id)
  }

  ghost predicate IsRun(ss: seq<State>, es: seq<Event>) {
    && |ss| == |es| + 1
    && ss[0] == State(1, map[], [], [])
    && forall i | 0 <= i < |es| :: Step(ss[i], es[i], ss[i + 1])
  }

  /** The pending requests as pairs, in a bag. */
  function Pending(m: map<nat, nat>): multiset<(nat, nat)> {
    multiset(Pairs(m))
  }

  function Pairs(m: map<nat, nat>): set<(nat, nat)> {
    set id | id in m :: (id, m[id])
  }

  /** Everything sent is pending or has been delivered to its own responder, once. */
  ghost predicate Conserved(s: State) {
    && multiset(s.sent) == multiset(s.delivered) + Pending(s.responders)
    && 0 !in s.responders
  }

  lemma PendingAdds(m: map<nat, nat>, id: nat, r: nat)
    requires id !in m
    ensures Pending(m[id := r]) == Pending(m) + multiset{(id, r)}
  {
    var a, b := Pairs(m), Pairs(m[id := r]);
    assert b == a + {(id, r)} && (id, r) !in a by {
      forall p ensures p in b <==> p in a + {(id, r)} {
        if p in a { assert p == (p.0, m[id := r][p.0]); }
        if p == (id, r) { assert p == (id, m[id := r][id]); }
      }
    }
    assert multiset(b) == multiset(a) + multiset{(id, r)};
  }

  lemma PendingDrops(m: map<nat, nat>, id: nat)
    requires id in m
    ensures Pending(m) == Pending(m - {id}) + multiset{(id, m[id])}
  {
    PendingAdds(m - {id}, id, m[id]);
    assert (m - {id})[id := m[id]] == m;
  }

  lemma StepConserves(s: State, e: Event, s': State)
    requires Conserved(s) && Step(s, e, s')
    ensures Conserved(s')
    ensures forall id | id in s.responders && e != Receive(id) ::
      id in s'.responders && s'.responders[id] == s.responders[id]
  {
    hide Pending;
    match e
    case Send(id, r, accepted) =>
      if accepted { PendingAdds(s.responders, id, r); }
    case Receive(id) =>
      if id in s.responders { PendingDrops(s.responders, id); }
  }

  lemma {:induction false} RunConserves(ss: seq<State>, es: seq<Event>, n: nat)
    requires IsRun(ss, es) && n <= |es|
    ensures Conserved(ss[n])
  {
    if n == 0 {
      assert Pending(map[]) == multiset{};
    } else {
      RunConserves(ss, es, n - 1);
      StepConserves(ss[n - 1], es[n - 1], ss[n]);
    }
  }

  /** No send over a whole run overwrites a pending responder, and none uses id 0. */
  lemma NeverOverwrites(ss: seq<State>, es: seq<Event>, n: nat, id: nat)
    requires IsRun(ss, es) && n < |es| && id in ss[n].responders && es[n] != Receive(id)
    ensures id != 0 && id in ss[n + 1].responders && ss[n + 1].responders[id] == ss[n].responders[id]
  {
    RunConserves(ss, es, n);
    StepConserves(ss[n], es[n], ss[n + 1]);
  }

  /** Over a whole run, every accepted request is still pending or was delivered to its own responder. */
  lemma EveryRequestAccounted(ss: seq<State>, es: seq<Event>, n: nat, p: (nat, nat))
    requires IsRun(ss, es) && n <= |es|
    ensures var s := ss[n];
      multiset(s.sent)[p] == multiset(s.delivered)[p] + if p.0 in s.responders && s.responders[p.0] == p.1 then 1 else 0
  {
    RunConserves(ss, es, n);
    var s := ss[n];
    PendingCounts(s.responders, p);
  }

  lemma PendingCounts(m: map<nat, nat>, p: (nat, nat))
    ensures Pending(m)[p] == if p.0 in m && m[p.0] == p.1 then 1 else 0
  {
    var a := Pairs(m);
    assert p in a <==> p.0 in m && m[p.0] == p.1 by {
      if p.0 in m && m[p.0] == p.1 { assert p == (p.0, m[p.0]); }
    }
  }
}
