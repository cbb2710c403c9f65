/** Responses to different requests can be read in any order. */
module Reordering {
  import opened Requests
  import opened RequestRuns
  import opened Completion
  import opened Outbound
  import opened RequestTable
  import opened Wrappers

  datatype Reading = Reading(id: MsgId, outcome: PeerOutcome)

  /** A response is read and dealt with, before anything else happens. */
  function Delivery(r: Reading): seq<Event> {
    [Arrive(Response(r.id, r.outcome)), MainStep, MainStep]
  }

  function Deliveries(rs: seq<Reading>): seq<Event> {
    if rs == [] then [] else Delivery(rs[0]) + Deliveries(rs[1..])
  }

  /** What that does. */
  function Delivered(s: State, r: Reading): State {
    if r.id in s.table && s.table[r.id] < |s.futures| then
      var f := s.table[r.id];
      s.(futures := s.futures[f := Fut(Outbound, Done(Ended(r.outcome)), User)], table := s.table - {r.id}, taken := s.taken + {f})
    else s
  }

  function AllDelivered(s: State, rs: seq<Reading>): State
    decreases |rs|
  {
    if rs == [] then s else AllDelivered(Delivered(s, rs[0]), rs[1..])
  }

  /** The reading thread is free, and these responses are to requests that were sent, or to nothing. */
  ghost predicate Ready(s: State, rs: seq<Reading>) {
    && s.main.Idle? && !s.shutdown && Apart(s)
    && (forall i :: 0 <= i < |rs| && rs[i].id in s.table ==> OutboundEntry(s, s.table[rs[i].id]))
    && (forall i, j :: 0 <= i < j < |rs| ==> rs[i].id != rs[j].id)
  }

  lemma {:induction false} DeliveryRun(s: State, r: Reading)
    requires s.main.Idle? && !s.shutdown && (r.id in s.table ==> OutboundEntry(s, s.table[r.id]))
    ensures Run(s, Delivery(r)) == Delivered(s, r)
  {
    var e := Delivery(r);
    assert e[..0] == [] && Run(s, []) == s;
    assert e[..2][..1] == e[..1] && e[..1][..0] == [] && e[..3] == e;
    assert Run(s, e[..1]) == Next(s, e[0]);
    assert Run(s, e[..2]) == Next(Run(s, e[..1]), MainStep);
    assert Run(s, e) == Next(Run(s, e[..2]), MainStep);
    hide Run;
    DeliverySteps(s, r);
  }

  lemma {:induction false} DeliverySteps(s: State, r: Reading)
    requires s.main.Idle? && !s.shutdown && (r.id in s.table ==> OutboundEntry(s, s.table[r.id]))
    ensures Next(Next(Next(s, Arrive(Response(r.id, r.outcome))), MainStep), MainStep) == Delivered(s, r)
  {}

  lemma {:induction false} DeliveredReady(s: State, rs: seq<Reading>)
    requires Ready(s, rs) && rs != []
    ensures Ready(Delivered(s, rs[0]), rs[1..])
  {
    var s1, rest := Delivered(s, rs[0]), rs[1..];
    forall i | 0 <= i < |rest| && rest[i].id in s1.table ensures OutboundEntry(s1, s1.table[rest[i].id]) {
      assert rest[i] == rs[i + 1] && rs[0].id != rs[i + 1].id;
    }
  }

  lemma {:induction false} DeliveriesRun(s: State, rs: seq<Reading>)
    requires Ready(s, rs)
    ensures Run(s, Deliveries(rs)) == AllDelivered(s, rs)
    decreases |rs|
  {
    if rs != [] {
      DeliveryRun(s, rs[0]);
      DeliveredReady(s, rs);
      DeliveriesRun(Delivered(s, rs[0]), rs[1..]);
      RunAppend(s, Delivery(rs[0]), Deliveries(rs[1..]));
    }
  }

  lemma {:induction false} Commute(s: State, q: Reading, r: Reading)
    requires Apart(s) && q.id != r.id
    ensures Delivered(Delivered(s, q), r) == Delivered(Delivered(s, r), q)
  {
    if q.id in s.table && s.table[q.id] < |s.futures| && r.id in s.table && s.table[r.id] < |s.futures| {
      assert s.table - {q.id} - {r.id} == s.table - {r.id} - {q.id};
      assert s.table[q.id] != s.table[r.id];
    }
  }

  /** Any one of them can come first. */
  lemma {:induction false} AnyFirst(s: State, rs: seq<Reading>, i: nat)
    requires Ready(s, rs) && i < |rs|
    ensures AllDelivered(s, rs) == AllDelivered(Delivered(s, rs[i]), rs[..i] + rs[i + 1..])
    decreases |rs|
  {
    if i == 0 {
      assert rs[..0] + rs[1..] == rs[1..];
    } else {
      var rest := rs[1..];
      DeliveredReady(s, rs);
      AnyFirst(Delivered(s, rs[0]), rest, i - 1);
      Commute(s, rs[0], rs[i]);
      assert (rs[..i] + rs[i + 1..])[1..] == rest[..i - 1] + rest[i..];
      assert (rs[..i] + rs[i + 1..])[0] == rs[0] && rest[i - 1] == rs[i];
    }
  }

  lemma {:induction false} Permuted(s: State, these: seq<Reading>, those: seq<Reading>)
    requires Ready(s, these) && Ready(s, those) && multiset(these) == multiset(those)
    ensures AllDelivered(s, these) == AllDelivered(s, those)
    decreases |these|
  {
    assert |these| == |multiset(these)| == |multiset(those)| == |those|;
    if these != [] {
      assert these[0] in multiset(those);
      var i :| 0 <= i < |those| && those[i] == these[0];
      var rest := those[..i] + those[i + 1..];
      AnyFirst(s, those, i);
      DeliveredReady(s, these);
      RestReady(s, those, i);
      Removed(these, those, i);
      Permuted(Delivered(s, these[0]), these[1..], rest);
    }
  }

  lemma {:induction false} RestReady(s: State, rs: seq<Reading>, i: nat)
    requires Ready(s, rs) && i < |rs|
    ensures Ready(Delivered(s, rs[i]), rs[..i] + rs[i + 1..])
  {
    var moved := [rs[i]] + (rs[..i] + rs[i + 1..]);
    assert moved[1..] == rs[..i] + rs[i + 1..];
    assert Ready(s, moved);
    DeliveredReady(s, moved);
  }

  lemma {:induction false} Removed(these: seq<Reading>, those: seq<Reading>, i: nat)
    requires these != [] && i < |those| && those[i] == these[0] && multiset(these) == multiset(those)
    ensures multiset(these[1..]) == multiset(those[..i] + those[i + 1..])
  {
    assert these == [these[0]] + these[1..];
    assert those == those[..i] + [those[i]] + those[i + 1..];
    assert multiset(those) == multiset(those[..i] + those[i + 1..]) + multiset{those[i]};
    assert multiset(these) == multiset(these[1..]) + multiset{these[0]};
    assert multiset(these[1..]) == multiset(these) - multiset{these[0]};
    assert multiset(those[..i] + those[i + 1..]) == multiset(those) - multiset{those[i]};
  }

  /** In a run, a list of responses that are read one after the other can be read in any other order: the state is
      the same after them, and so is everything that follows. */
  lemma {:induction false} ReorderedRun(before: seq<Event>, these: seq<Reading>, those: seq<Reading>, after: seq<Event>)
    requires var s := Run(START, before);
             && s.main.Idle? && !s.shutdown
             && (forall i :: 0 <= i < |these| && these[i].id in s.table ==> OutboundEntry(s, s.table[these[i].id]))
    requires (forall i, j :: 0 <= i < j < |these| ==> these[i].id != these[j].id) && multiset(these) == multiset(those)
    ensures Run(START, before + Deliveries(these) + after) == Run(START, before + Deliveries(those) + after)
  {
    var s := Run(START, before);
    RunApart(before);
    PermutedReady(s, these, those);
    DeliveriesRun(s, these);
    DeliveriesRun(s, those);
    Permuted(s, these, those);
    RunAppend(START, before + Deliveries(these), after);
    RunAppend(START, before, Deliveries(these));
    RunAppend(START, before + Deliveries(those), after);
    RunAppend(START, before, Deliveries(those));
  }

  lemma {:induction false} PermutedReady(s: State, these: seq<Reading>, those: seq<Reading>)
    requires Ready(s, these) && multiset(these) == multiset(those)
    ensures Ready(s, those)
  {
    forall i | 0 <= i < |those| && those[i].id in s.table ensures OutboundEntry(s, s.table[those[i].id]) {
      assert those[i] in multiset(these);
      var k :| 0 <= k < |these| && these[k] == those[i];
    }
    forall i, j | 0 <= i < j < |those| ensures those[i].id != those[j].id {
      DistinctIds(these, those, i, j);
    }
  }

  lemma {:induction false} DistinctIds(these: seq<Reading>, those: seq<Reading>, i: nat, j: nat)
    requires (forall k, l :: 0 <= k < l < |these| ==> these[k].id != these[l].id) && multiset(these) == multiset(those)
    requires i < j < |those|
    ensures those[i].id != those[j].id
  {
    assert those[i] in multiset(these) && those[j] in multiset(these);
    var k :| 0 <= k < |these| && these[k] == those[i];
    var l :| 0 <= l < |these| && these[l] == those[j];
    if k == l {
      var rest := those[..i] + those[i + 1..];
      assert those == those[..i] + [those[i]] + those[i + 1..];
      assert rest[j - 1] == those[j] && those[j] in multiset(rest);
      assert multiset(those) == multiset(rest) + multiset{those[i]};
      OnceOnly(these, k);
      assert false;
    }
  }

  lemma {:induction false} OnceOnly(rs: seq<Reading>, k: nat)
    requires k < |rs| && forall i, j :: 0 <= i < j < |rs| ==> rs[i].id != rs[j].id
    ensures multiset(rs)[rs[k]] == 1
  {
    var rest := rs[..k] + rs[k + 1..];
    assert rs == rs[..k] + [rs[k]] + rs[k + 1..];
    assert multiset(rs) == multiset(rest) + multiset{rs[k]};
    assert rs[k] !in rest;
  }
}
