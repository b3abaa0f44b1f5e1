/**
 The session driver: four all-to-all broadcast rounds, each with a barrier over buffered messages.
 A node buffers what arrives, at any time and in any order; it moves on when the current round is
 complete and drops its buffer when it has finished.  Delivery is reliable and each message arrives
 once; payloads are whatever the key-generation library produces.
 */
module SessionBarrier {
  import opened Collections

  type Payload = int

  const ROUNDS: nat := 4

  /** `rounds[r][from]` is what `from` sent for round `r`. */
  type Rounds = map<nat, map<int, Payload>>

  function Recorded(rounds: Rounds, r: nat, from: int, p: Payload): Rounds {
    rounds[r := (if r in rounds then rounds[r] else map[])[from := p]]
  }

  predicate Has(rounds: Rounds, r: nat, from: int) {
    r in rounds && from in rounds[r]
  }

  predicate RoundComplete(rounds: Rounds, r: nat, expected: set<int>) {
    r in rounds && expected <= rounds[r].Keys
  }

  /** The buffer of one session, as the transport fills it and the driver reads it. */
  class Buffer {
    var rounds: Rounds

    constructor ()
      ensures rounds == map[]
    {
      rounds := map[];
    }

    method Record(r: nat, from: int, p: Payload)
      modifies this
      ensures rounds == Recorded(old(rounds), r, from, p)
      ensures r in rounds && from in rounds[r] && rounds[r][from] == p
      ensures forall r': nat, j :: (r', j) != (r, from) ==> (Has(rounds, r', j) <==> Has(old(rounds), r', j))
      ensures forall r': nat, j :: (r', j) != (r, from) && Has(rounds, r', j) ==> rounds[r'][j] == old(rounds)[r'][j]
    {
      var inner := if r in rounds then rounds[r] else map[];
      inner := inner[from := p];
      rounds := rounds[r := inner];
    }

    /** One check of the barrier: the round's messages once all expected senders are in, else nothing. */
    method Poll(r: nat, expected: seq<int>) returns (ready: bool, messages: map<int, Payload>)
      ensures ready <==> RoundComplete(rounds, r, set x | x in expected)
      ensures ready ==> r in rounds && messages == rounds[r]
    {
      if r !in rounds { return false, map[]; }
      var i := 0;
      while i < |expected|
        invariant 0 <= i <= |expected|
        invariant forall j :: 0 <= j < i ==> expected[j] in rounds[r]
      {
        if expected[i] !in rounds[r] {
          assert expected[i] in set x | x in expected;
          return false, map[];
        }
        i := i + 1;
      }
      return true, rounds[r];
    }
  }

  /** What a node has broadcast, the complete rounds it has read, and its buffer. */
  datatype Node = Node(said: seq<Payload>, views: seq<map<int, Payload>>, rounds: Rounds)

  predicate Finished(nd: Node) { |nd.views| == ROUNDS }

  datatype Msg = Msg(from: int, to: int, round: nat)

  datatype State = State(nodes: map<int, Node>, flight: set<Msg>)

  datatype Step =
    | Start(i: int, p: Payload)
    | Deliver(msg: Msg)
    | Advance(i: int, p: Payload)
    | Finish(i: int)

  function Others(s: State, i: int): set<int> { s.nodes.Keys - {i} }

  function Broadcast(s: State, i: int, r: nat): set<Msg> {
    set j | j in Others(s, i) :: Msg(i, j, r)
  }

  predicate Enabled(s: State, step: Step) {
    match step
    case Start(i, p) => i in s.nodes && s.nodes[i].said == []
    case Deliver(m) => m in s.flight && m.from in s.nodes && m.to in s.nodes && 1 <= m.round <= |s.nodes[m.from].said|
    case Advance(i, p) =>
      i in s.nodes && 1 <= |s.nodes[i].said| < ROUNDS &&
      RoundComplete(s.nodes[i].rounds, |s.nodes[i].said|, Others(s, i))
    case Finish(i) =>
      i in s.nodes && |s.nodes[i].said| == ROUNDS && !Finished(s.nodes[i]) &&
      RoundComplete(s.nodes[i].rounds, ROUNDS, Others(s, i))
  }

  function Apply(s: State, step: Step): State
    requires Enabled(s, step)
  {
    match step
    case Start(i, p) =>
      State(s.nodes[i := s.nodes[i].(said := [p])], s.flight + Broadcast(s, i, 1))
    case Deliver(m) =>
      var nd := s.nodes[m.to];
      var p := s.nodes[m.from].said[m.round - 1];
      State(s.nodes[m.to := nd.(rounds := Recorded(nd.rounds, m.round, m.from, p))], s.flight - {m})
    case Advance(i, p) =>
      var nd := s.nodes[i];
      var r := |nd.said|;
      State(s.nodes[i := nd.(said := nd.said + [p], views := nd.views + [nd.rounds[r]])],
            s.flight + Broadcast(s, i, r + 1))
    case Finish(i) =>
      var nd := s.nodes[i];
      State(s.nodes[i := nd.(views := nd.views + [nd.rounds[ROUNDS]], rounds := map[])], s.flight)
  }

  predicate Init(ids: set<int>, s: State) {
    s.nodes.Keys == ids && s.flight == {} && forall i :: i in s.nodes ==> s.nodes[i] == Node([], [], map[])
  }

  ghost predicate IsRun(ids: set<int>, states: seq<State>, steps: seq<Step>) {
    && |states| == |steps| + 1 && Init(ids, states[0])
    && forall k :: 0 <= k < |steps| ==> Enabled(states[k], steps[k]) && states[k + 1] == Apply(states[k], steps[k])
  }

  // ---- The invariant ----

  /** Counters of one node: it reads round `r` before it broadcasts round `r + 1`. */
  predicate CountersOk(nd: Node) {
    && |nd.said| <= ROUNDS && |nd.views| <= ROUNDS
    && (|nd.views| + 1 == |nd.said| || |nd.views| == |nd.said| == 0 || |nd.views| == |nd.said| == ROUNDS)
    && (Finished(nd) ==> nd.rounds == map[])
  }

  /** A view of round `r` at node `i` holds exactly what every other node broadcast for it. */
  ghost predicate ViewOk(s: State, i: int, r: nat)
    requires i in s.nodes && 1 <= r <= |s.nodes[i].views|
  {
    && s.nodes[i].views[r - 1].Keys == Others(s, i)
    && forall j :: j in Others(s, i) ==>
         |s.nodes[j].said| >= r && s.nodes[i].views[r - 1][j] == s.nodes[j].said[r - 1]
  }

  /** What is buffered at `j` was broadcast by another node and is no longer in flight. */
  ghost predicate BufferOk(s: State, j: int)
    requires j in s.nodes
  {
    forall r: nat, i :: Has(s.nodes[j].rounds, r, i) ==>
      && i in Others(s, j) && 1 <= r <= |s.nodes[i].said|
      && s.nodes[j].rounds[r][i] == s.nodes[i].said[r - 1]
      && Msg(i, j, r) !in s.flight
  }

  /** A broadcast message is in flight, buffered, or was read before its reader dropped the buffer. */
  ghost predicate NothingLost(s: State) {
    forall i, j, r: nat :: i in s.nodes && j in Others(s, i) && 1 <= r <= |s.nodes[i].said| ==>
      Msg(i, j, r) in s.flight || Has(s.nodes[j].rounds, r, i) || Finished(s.nodes[j])
  }

  ghost predicate FlightOk(s: State) {
    forall m :: m in s.flight ==>
      && m.from in s.nodes && m.to in Others(s, m.from)
      && 1 <= m.round <= |s.nodes[m.from].said| && !Finished(s.nodes[m.to])
  }

  ghost predicate NodesOk(s: State) {
    forall i :: i in s.nodes ==> CountersOk(s.nodes[i]) && BufferOk(s, i)
  }

  ghost predicate ViewsOk(s: State) {
    forall i, r: nat :: i in s.nodes && 1 <= r <= |s.nodes[i].views| ==> ViewOk(s, i, r)
  }

  /** Until a node finishes, the rounds it has read stay in its buffer. */
  ghost predicate ReadRoundsKept(s: State) {
    forall i, r: nat :: i in s.nodes && !Finished(s.nodes[i]) && 1 <= r <= |s.nodes[i].views| ==>
      RoundComplete(s.nodes[i].rounds, r, Others(s, i))
  }

  ghost predicate Inv(s: State) {
    NodesOk(s) && ViewsOk(s) && ReadRoundsKept(s) && NothingLost(s) && FlightOk(s)
  }

  /** Any two participants differ by at most one broadcast round. */
  lemma SkewIsAtMostOne(s: State, i: int, j: int)
    requires Inv(s) && i in s.nodes && j in s.nodes
    ensures |s.nodes[i].said| <= |s.nodes[j].said| + 1
    ensures Finished(s.nodes[i]) ==> |s.nodes[j].said| == ROUNDS
  {
    var r := |s.nodes[i].views|;
    assert CountersOk(s.nodes[i]) && CountersOk(s.nodes[j]);
    if i != j && r >= 1 {
      assert ViewOk(s, i, r);
      assert j in Others(s, i);
    }
  }

  lemma StartKeepsInv(s: State, i: int, p: Payload)
    requires Inv(s) && Enabled(s, Start(i, p))
    ensures Inv(Apply(s, Start(i, p)))
  {
    var s' := Apply(s, Start(i, p));
    assert CountersOk(s.nodes[i]);
    BroadcastKeepsInv(s, s', i, p);
    forall x | x in s'.nodes ensures s'.nodes[x].views == [] {
      assert CountersOk(s.nodes[x]);
      SkewIsAtMostOne(s, x, i);
    }
  }

  /** One more broadcast by a node that has not finished keeps buffers and flight consistent. */
  lemma BroadcastKeepsInv(s: State, s': State, i: int, p: Payload)
    requires Inv(s) && i in s.nodes && s'.nodes.Keys == s.nodes.Keys && |s.nodes[i].said| < ROUNDS
    requires forall x :: x in s.nodes && x != i ==> s'.nodes[x] == s.nodes[x]
    requires s'.nodes[i].said == s.nodes[i].said + [p] && s'.nodes[i].rounds == s.nodes[i].rounds
    requires !Finished(s'.nodes[i]) && CountersOk(s'.nodes[i])
    requires s'.flight == s.flight + Broadcast(s, i, |s.nodes[i].said| + 1)
    ensures forall x :: x in s'.nodes ==> CountersOk(s'.nodes[x]) && BufferOk(s', x)
    ensures NothingLost(s') && FlightOk(s')
  {
    var r0 := |s.nodes[i].said| + 1;
    forall x | x in s'.nodes ensures CountersOk(s'.nodes[x]) && BufferOk(s', x) {
      assert CountersOk(s.nodes[x]) && BufferOk(s, x);
    }
    forall a, j, r: nat | a in s'.nodes && j in Others(s', a) && 1 <= r <= |s'.nodes[a].said|
      ensures Msg(a, j, r) in s'.flight || Has(s'.nodes[j].rounds, r, a) || Finished(s'.nodes[j])
    {
      if a == i && r == r0 {
        assert Msg(i, j, r0) in Broadcast(s, i, r0);
      } else {
        assert Msg(a, j, r) in s.flight || Has(s.nodes[j].rounds, r, a) || Finished(s.nodes[j]);
      }
    }
    forall m | m in s'.flight
      ensures m.from in s'.nodes && m.to in Others(s', m.from) && 1 <= m.round <= |s'.nodes[m.from].said|
      ensures !Finished(s'.nodes[m.to])
    {
      if m in Broadcast(s, i, r0) {
        if Finished(s.nodes[m.to]) {
          SkewIsAtMostOne(s, m.to, i);
        }
      } else {
        assert m in s.flight;
      }
    }
  }

  lemma DeliverKeepsNodes(s: State, m: Msg)
    requires Inv(s) && Enabled(s, Deliver(m))
    ensures NodesOk(Apply(s, Deliver(m))) && FlightOk(Apply(s, Deliver(m)))
  {
    var s' := Apply(s, Deliver(m));
    forall x | x in s'.nodes ensures CountersOk(s'.nodes[x]) && BufferOk(s', x) {
      assert CountersOk(s.nodes[x]) && BufferOk(s, x);
    }
  }

  lemma DeliverKeepsViews(s: State, m: Msg)
    requires Inv(s) && Enabled(s, Deliver(m))
    ensures ViewsOk(Apply(s, Deliver(m))) && ReadRoundsKept(Apply(s, Deliver(m)))
  {
    var s' := Apply(s, Deliver(m));
    forall x, r: nat | x in s'.nodes && 1 <= r <= |s'.nodes[x].views| ensures ViewOk(s', x, r) {
      assert ViewOk(s, x, r);
    }
    forall x, r: nat | x in s'.nodes && !Finished(s'.nodes[x]) && 1 <= r <= |s'.nodes[x].views|
      ensures RoundComplete(s'.nodes[x].rounds, r, Others(s', x))
    {
      assert RoundComplete(s.nodes[x].rounds, r, Others(s, x));
    }
  }

  lemma DeliverLosesNothing(s: State, m: Msg)
    requires Inv(s) && Enabled(s, Deliver(m))
    ensures NothingLost(Apply(s, Deliver(m)))
  {
    var s' := Apply(s, Deliver(m));
    forall a, j, r: nat | a in s'.nodes && j in Others(s', a) && 1 <= r <= |s'.nodes[a].said|
      ensures Msg(a, j, r) in s'.flight || Has(s'.nodes[j].rounds, r, a) || Finished(s'.nodes[j])
    {
      assert Msg(a, j, r) in s.flight || Has(s.nodes[j].rounds, r, a) || Finished(s.nodes[j]);
    }
  }

  /** A complete buffered round is the exact view of that round. */
  lemma CompleteRoundIsExact(s: State, i: int, r: nat)
    requires Inv(s) && i in s.nodes && RoundComplete(s.nodes[i].rounds, r, Others(s, i))
    ensures s.nodes[i].rounds[r].Keys == Others(s, i)
    ensures forall j :: j in Others(s, i) ==>
      1 <= r <= |s.nodes[j].said| && s.nodes[i].rounds[r][j] == s.nodes[j].said[r - 1]
  {
    assert BufferOk(s, i);
    forall j | j in s.nodes[i].rounds[r].Keys ensures j in Others(s, i) {
      assert Has(s.nodes[i].rounds, r, j);
    }
    forall j | j in Others(s, i)
      ensures 1 <= r <= |s.nodes[j].said| && s.nodes[i].rounds[r][j] == s.nodes[j].said[r - 1]
    {
      assert Has(s.nodes[i].rounds, r, j);
    }
  }

  /** Reading the round a node waits for keeps every view exact. */
  lemma ReadingKeepsViews(s: State, s': State, i: int, r0: nat)
    requires Inv(s) && i in s.nodes && r0 == |s.nodes[i].views| + 1 && s'.nodes.Keys == s.nodes.Keys
    requires RoundComplete(s.nodes[i].rounds, r0, Others(s, i))
    requires forall x :: x in s.nodes && x != i ==> s'.nodes[x] == s.nodes[x]
    requires s'.nodes[i].views == s.nodes[i].views + [s.nodes[i].rounds[r0]] && s.nodes[i].said <= s'.nodes[i].said
    requires Finished(s'.nodes[i]) || s'.nodes[i].rounds == s.nodes[i].rounds
    ensures ViewsOk(s') && ReadRoundsKept(s')
  {
    CompleteRoundIsExact(s, i, r0);
    forall x, r: nat | x in s'.nodes && 1 <= r <= |s'.nodes[x].views| ensures ViewOk(s', x, r) {
      if !(x == i && r == r0) { assert ViewOk(s, x, r); }
    }
    forall x, r: nat | x in s'.nodes && !Finished(s'.nodes[x]) && 1 <= r <= |s'.nodes[x].views|
      ensures RoundComplete(s'.nodes[x].rounds, r, Others(s', x))
    {
      if !(x == i && r == r0) { assert RoundComplete(s.nodes[x].rounds, r, Others(s, x)); }
    }
  }

  lemma AdvanceKeepsInv(s: State, i: int, p: Payload)
    requires Inv(s) && Enabled(s, Advance(i, p))
    ensures Inv(Apply(s, Advance(i, p)))
  {
    var s' := Apply(s, Advance(i, p));
    assert CountersOk(s.nodes[i]);
    BroadcastKeepsInv(s, s', i, p);
    ReadingKeepsViews(s, s', i, |s.nodes[i].said|);
  }

  /** When a node may finish, nothing addressed to it is still in flight. */
  lemma FinisherHasAll(s: State, i: int, j: int, r: nat)
    requires Inv(s) && Enabled(s, Finish(i)) && j in Others(s, i) && 1 <= r <= ROUNDS
    ensures Msg(j, i, r) !in s.flight
  {
    assert CountersOk(s.nodes[i]) && BufferOk(s, i);
    assert RoundComplete(s.nodes[i].rounds, r, Others(s, i));
    assert Has(s.nodes[i].rounds, r, j);
  }

  lemma FinishKeepsNodes(s: State, i: int)
    requires Inv(s) && Enabled(s, Finish(i))
    ensures NodesOk(Apply(s, Finish(i))) && NothingLost(Apply(s, Finish(i))) && FlightOk(Apply(s, Finish(i)))
  {
    var s' := Apply(s, Finish(i));
    forall x | x in s'.nodes ensures CountersOk(s'.nodes[x]) && BufferOk(s', x) {
      assert CountersOk(s.nodes[x]) && BufferOk(s, x);
    }
    forall a, j, r: nat | a in s'.nodes && j in Others(s', a) && 1 <= r <= |s'.nodes[a].said|
      ensures Msg(a, j, r) in s'.flight || Has(s'.nodes[j].rounds, r, a) || Finished(s'.nodes[j])
    {
      assert Msg(a, j, r) in s.flight || Has(s.nodes[j].rounds, r, a) || Finished(s.nodes[j]);
    }
    forall j, r: nat | j in Others(s, i) && 1 <= r <= ROUNDS ensures Msg(j, i, r) !in s.flight {
      FinisherHasAll(s, i, j, r);
    }
    forall m | m in s'.flight ensures m.to != i {
      assert CountersOk(s.nodes[m.from]);
      assert m == Msg(m.from, m.to, m.round);
    }
  }

  lemma FinishKeepsInv(s: State, i: int)
    requires Inv(s) && Enabled(s, Finish(i))
    ensures Inv(Apply(s, Finish(i)))
  {
    FinishKeepsNodes(s, i);
    assert CountersOk(s.nodes[i]);
    ReadingKeepsViews(s, Apply(s, Finish(i)), i, ROUNDS);
  }

  lemma StepKeepsInv(s: State, step: Step)
    requires Inv(s) && Enabled(s, step)
    ensures Inv(Apply(s, step))
  {
    match step
    case Start(i, p) => StartKeepsInv(s, i, p);
    case Deliver(m) =>
      DeliverKeepsNodes(s, m);
      DeliverKeepsViews(s, m);
      DeliverLosesNothing(s, m);
    case Advance(i, p) => AdvanceKeepsInv(s, i, p);
    case Finish(i) => FinishKeepsInv(s, i);
  }

  lemma {:induction false} RunKeepsInv(ids: set<int>, states: seq<State>, steps: seq<Step>, k: nat)
    requires IsRun(ids, states, steps) && k < |states|
    ensures Inv(states[k]) && states[k].nodes.Keys == ids
  {
    if k > 0 {
      RunKeepsInv(ids, states, steps, k - 1);
      assert states[k] == Apply(states[k - 1], steps[k - 1]);
      StepKeepsInv(states[k - 1], steps[k - 1]);
    }
  }

  // ---- What a session guarantees ----

  /** In every reachable state two participants differ by at most one broadcast round. */
  lemma RunSkew(ids: set<int>, states: seq<State>, steps: seq<Step>, k: nat, i: int, j: int)
    requires IsRun(ids, states, steps) && k < |states| && i in ids && j in ids
    ensures i in states[k].nodes && j in states[k].nodes
    ensures |states[k].nodes[i].said| <= |states[k].nodes[j].said| + 1
  {
    RunKeepsInv(ids, states, steps, k);
    SkewIsAtMostOne(states[k], i, j);
  }

  /**
   Dropping the buffer of a finished node loses nothing: everyone has said everything and nothing is
   in flight to it.
   */
  lemma FinishedNodeMissesNothing(ids: set<int>, states: seq<State>, steps: seq<Step>, k: nat, i: int, j: int, r: nat)
    requires IsRun(ids, states, steps) && k < |states| && i in ids && j in ids && i != j
    requires i in states[k].nodes && Finished(states[k].nodes[i])
    ensures j in states[k].nodes && |states[k].nodes[j].said| == 4 && Msg(j, i, r) !in states[k].flight
  {
    RunKeepsInv(ids, states, steps, k);
    SkewIsAtMostOne(states[k], i, j);
  }

  /** The broadcasts of round `r` as node `i` feeds them to the library, its own included. */
  function FullRound(s: State, i: int, r: nat): map<int, Payload>
    requires i in s.nodes && 1 <= r <= |s.nodes[i].views| && r <= |s.nodes[i].said|
  {
    s.nodes[i].views[r - 1][i := s.nodes[i].said[r - 1]]
  }

  /** All finished participants fed the same broadcasts into every round. */
  lemma FinishedNodesAgree(ids: set<int>, states: seq<State>, steps: seq<Step>, k: nat, i: int, j: int, r: nat)
    requires IsRun(ids, states, steps) && k < |states| && i in ids && j in ids && 1 <= r <= 4
    requires i in states[k].nodes && Finished(states[k].nodes[i])
    requires j in states[k].nodes && Finished(states[k].nodes[j])
    ensures |states[k].nodes[i].said| == |states[k].nodes[j].said| == 4
    ensures FullRound(states[k], i, r) == FullRound(states[k], j, r)
    ensures FullRound(states[k], i, r).Keys == ids
  {
    var s := states[k];
    RunKeepsInv(ids, states, steps, k);
    assert CountersOk(s.nodes[i]) && CountersOk(s.nodes[j]);
    assert ViewOk(s, i, r) && ViewOk(s, j, r);
    var a, b := FullRound(s, i, r), FullRound(s, j, r);
    assert a.Keys == ids && b.Keys == ids;
    forall x | x in ids ensures a[x] == s.nodes[x].said[r - 1] == b[x] {
      assert x != i ==> x in Others(s, i);
      assert x != j ==> x in Others(s, j);
    }
  }

  // ---- No deadlock, and termination ----

  /** The unfinished node that has said least. */
  lemma {:induction false} Slowest(s: State, ids: set<int>) returns (i: int)
    requires ids <= s.nodes.Keys && exists x :: x in ids && !Finished(s.nodes[x])
    ensures i in ids && !Finished(s.nodes[i])
    ensures forall x :: x in ids && !Finished(s.nodes[x]) ==> |s.nodes[i].said| <= |s.nodes[x].said|
    decreases ids
  {
    var x :| x in ids && !Finished(s.nodes[x]);
    i := x;
    var rest := ids - {x};
    if exists y :: y in rest && !Finished(s.nodes[y]) {
      var y := Slowest(s, rest);
      if |s.nodes[y].said| < |s.nodes[x].said| { i := y; }
    }
  }

  lemma SlowestHasItsRound(s: State, i: int)
    requires Inv(s) && i in s.nodes && !Finished(s.nodes[i]) && s.nodes[i].said != [] && Others(s, i) != {}
    requires forall m :: m !in s.flight
    requires forall x :: x in s.nodes && !Finished(s.nodes[x]) ==> |s.nodes[i].said| <= |s.nodes[x].said|
    ensures RoundComplete(s.nodes[i].rounds, |s.nodes[i].said|, Others(s, i))
  {
    var r := |s.nodes[i].said|;
    forall j | j in Others(s, i) ensures Has(s.nodes[i].rounds, r, j) {
      assert CountersOk(s.nodes[i]) && CountersOk(s.nodes[j]);
      assert r <= |s.nodes[j].said| && i in Others(s, j);
      assert Msg(j, i, r) !in s.flight;
    }
    EmptyOrInhabited(Others(s, i));
    var j :| j in Others(s, i);
    assert Has(s.nodes[i].rounds, r, j);
    forall x | x in Others(s, i) ensures x in s.nodes[i].rounds[r].Keys {
      assert Has(s.nodes[i].rounds, r, x);
    }
  }

  /** With reliable delivery, a session of two or more that is unfinished somewhere can always move. */
  lemma NeverDeadlocks(s: State) returns (step: Step)
    requires Inv(s) && |s.nodes.Keys| >= 2 && exists x :: x in s.nodes && !Finished(s.nodes[x])
    ensures Enabled(s, step)
  {
    var i := Slowest(s, s.nodes.Keys);
    assert CountersOk(s.nodes[i]);
    assert |Others(s, i)| == |s.nodes.Keys| - 1;
    if s.nodes[i].said == [] {
      return Start(i, 0);
    }
    if m :| m in s.flight {
      return Deliver(m);
    }
    SlowestHasItsRound(s, i);
    step := if |s.nodes[i].said| < ROUNDS then Advance(i, 0) else Finish(i);
  }

  /** A lone participant never finishes: its barrier waits for a first message that nobody sends. */
  lemma {:induction false} LoneParticipantNeverFinishes(i: int, states: seq<State>, steps: seq<Step>, k: nat)
    requires IsRun({i}, states, steps) && k < |states|
    ensures states[k].nodes.Keys == {i} && states[k].nodes[i].rounds == map[] && !Finished(states[k].nodes[i])
    ensures states[k].flight == {} && states[k].nodes[i].views == []
  {
    if k > 0 {
      LoneParticipantNeverFinishes(i, states, steps, k - 1);
      var s := states[k - 1];
      assert Enabled(s, steps[k - 1]) && states[k] == Apply(s, steps[k - 1]);
      EmptyOrInhabited(Others(s, i));
      assert Others(s, i) == {};
      assert forall r :: Broadcast(s, i, r) == {};
    }
  }

  /** Broadcasts and finishes still to come at a node. */
  function Remaining(nd: Node): int {
    ROUNDS + 1 - |nd.said| - if Finished(nd) then 1 else 0
  }

  predicate AllIn(s: State, order: seq<int>) {
    forall a :: 0 <= a < |order| ==> order[a] in s.nodes
  }

  function TotalRemaining(s: State, order: seq<int>): int
    requires AllIn(s, order)
  {
    if order == [] then 0 else Remaining(s.nodes[order[0]]) + TotalRemaining(s, order[1..])
  }

  lemma {:induction false} OneNodeChanges(s: State, s': State, order: seq<int>, i: int, d: int)
    requires AllIn(s, order) && s'.nodes.Keys == s.nodes.Keys
    requires forall a, b :: 0 <= a < b < |order| ==> order[a] != order[b]
    requires forall x :: x in s.nodes && x != i ==> Remaining(s'.nodes[x]) == Remaining(s.nodes[x])
    requires i in s.nodes ==> Remaining(s'.nodes[i]) == Remaining(s.nodes[i]) - d
    ensures TotalRemaining(s', order) == TotalRemaining(s, order) - if i in order then d else 0
  {
    if order != [] {
      var rest := order[1..];
      assert order == [order[0]] + rest;
      assert order[0] == i ==> i !in rest;
      OneNodeChanges(s, s', rest, i, d);
    }
  }

  lemma {:induction false} TotalIsNatural(s: State, order: seq<int>)
    requires Inv(s) && AllIn(s, order)
    ensures 0 <= TotalRemaining(s, order) <= (ROUNDS + 1) * |order|
  {
    if order != [] {
      var x := order[0];
      assert x in s.nodes;
      assert CountersOk(s.nodes[x]);
      TotalIsNatural(s, order[1..]);
    }
  }

  lemma {:induction false} ImageIsNoLarger(dest: set<int>, i: int, r: nat)
    ensures |set j | j in dest :: Msg(i, j, r)| <= |dest|
    decreases dest
  {
    EmptyOrInhabited(dest);
    var image := set j | j in dest :: Msg(i, j, r);
    if dest == {} {
      assert image == {};
    } else {
      var x :| x in dest;
      var smaller := set j | j in dest - {x} :: Msg(i, j, r);
      ImageIsNoLarger(dest - {x}, i, r);
      assert image == smaller + {Msg(i, x, r)};
    }
  }

  /** A listing of the participants without repetition. */
  ghost predicate Lists(s: State, order: seq<int>) {
    && AllIn(s, order) && (forall x :: x in s.nodes ==> x in order)
    && (forall a, b :: 0 <= a < b < |order| ==> order[a] != order[b])
    && |order| == |s.nodes.Keys|
  }

  /** The termination measure: a broadcast is worth more than all the deliveries it causes. */
  ghost function Work(s: State, order: seq<int>): int
    requires Lists(s, order)
  {
    TotalRemaining(s, order) * |order| + |s.flight|
  }

  lemma BroadcastPays(n: int, total: int, flight: int, flight': int)
    requires flight' <= flight + n - 1
    ensures (total - 1) * n + flight' < total * n + flight
  {
    assert (total - 1) * n == total * n - n;
  }

  lemma BroadcastDoesWork(s: State, s': State, order: seq<int>, i: int, r: nat)
    requires Lists(s, order) && i in s.nodes && s'.nodes.Keys == s.nodes.Keys
    requires forall x :: x in s.nodes && x != i ==> s'.nodes[x] == s.nodes[x]
    requires Remaining(s'.nodes[i]) == Remaining(s.nodes[i]) - 1
    requires s'.flight == s.flight + Broadcast(s, i, r) || s'.flight == s.flight
    ensures Lists(s', order) && Work(s', order) < Work(s, order)
  {
    OneNodeChanges(s, s', order, i, 1);
    ImageIsNoLarger(Others(s, i), i, r);
    assert |Others(s, i)| == |order| - 1;
    BroadcastPays(|order|, TotalRemaining(s, order), |s.flight|, |s'.flight|);
  }

  lemma DeliverDoesWork(s: State, m: Msg, order: seq<int>)
    requires Inv(s) && Enabled(s, Deliver(m)) && Lists(s, order)
    ensures Lists(Apply(s, Deliver(m)), order) && Work(Apply(s, Deliver(m)), order) < Work(s, order)
  {
    var s' := Apply(s, Deliver(m));
    DeliverKeepsCounters(s, m);
    OneNodeChanges(s, s', order, m.to, 0);
    assert s'.flight == s.flight - {m} && m in s.flight;
    DeliveryPays(s, s', order);
  }

  lemma DeliveryPays(s: State, s': State, order: seq<int>)
    requires Lists(s, order) && s'.nodes.Keys == s.nodes.Keys && |s'.flight| < |s.flight|
    requires AllIn(s', order) && TotalRemaining(s', order) == TotalRemaining(s, order)
    ensures Lists(s', order) && Work(s', order) < Work(s, order)
  {
  }

  lemma DeliverKeepsCounters(s: State, m: Msg)
    requires Inv(s) && Enabled(s, Deliver(m))
    ensures Apply(s, Deliver(m)).nodes.Keys == s.nodes.Keys
    ensures forall x :: x in s.nodes ==> Remaining(Apply(s, Deliver(m)).nodes[x]) == Remaining(s.nodes[x])
  {
  }

  /** The node that broadcasts or finishes has one thing less to do. */
  lemma StepUsesUp(s: State, step: Step)
    requires Inv(s) && Enabled(s, step) && !step.Deliver?
    ensures Remaining(Apply(s, step).nodes[step.i]) == Remaining(s.nodes[step.i]) - 1
  {
    assert CountersOk(s.nodes[step.i]);
  }

  lemma StepDoesWork(s: State, step: Step, order: seq<int>)
    requires Inv(s) && Enabled(s, step) && Lists(s, order)
    ensures Lists(Apply(s, step), order) && Work(Apply(s, step), order) < Work(s, order)
  {
    if step.Deliver? {
      DeliverDoesWork(s, step.msg, order);
    } else {
      StepUsesUp(s, step);
      BroadcastDoesWork(s, Apply(s, step), order, step.i, |s.nodes[step.i].said| + 1);
    }
  }

  lemma {:induction false} RunDoesWork(ids: set<int>, states: seq<State>, steps: seq<Step>, order: seq<int>, k: nat)
    requires IsRun(ids, states, steps) && k < |states| && Lists(states[0], order)
    ensures Lists(states[k], order) && Work(states[k], order) + k <= Work(states[0], order)
  {
    if k > 0 {
      RunDoesWork(ids, states, steps, order, k - 1);
      RunKeepsInv(ids, states, steps, k - 1);
      assert states[k] == Apply(states[k - 1], steps[k - 1]);
      StepDoesWork(states[k - 1], steps[k - 1], order);
    }
  }

  /** Every run is finite, with at most five steps for each ordered pair of participants. */
  lemma RunsAreBounded(ids: set<int>, states: seq<State>, steps: seq<Step>, order: seq<int>)
    requires IsRun(ids, states, steps) && Lists(states[0], order)
    ensures |steps| <= (ROUNDS + 1) * |order| * |order|
  {
    RunDoesWork(ids, states, steps, order, |steps|);
    RunKeepsInv(ids, states, steps, |steps|);
    RunKeepsInv(ids, states, steps, 0);
    TotalIsNatural(states[|steps|], order);
    TotalIsNatural(states[0], order);
    ScaleBound(TotalRemaining(states[0], order), (ROUNDS + 1) * |order|, |order|);
    ScaleBound(0, TotalRemaining(states[|steps|], order), |order|);
  }

  lemma ScaleBound(a: int, b: int, n: nat)
    requires a <= b
    ensures a * n <= b * n
  {
    assert (b - a) * n >= 0;
  }

  /** So a run that cannot be extended has finished at every participant. */
  lemma StuckRunsAreFinished(ids: set<int>, states: seq<State>, steps: seq<Step>)
    requires IsRun(ids, states, steps) && |ids| >= 2
    requires forall step :: !Enabled(states[|steps|], step)
    ensures forall i :: i in ids ==> i in states[|steps|].nodes && Finished(states[|steps|].nodes[i])
  {
    RunKeepsInv(ids, states, steps, |steps|);
    var s := states[|steps|];
    if x :| x in s.nodes && !Finished(s.nodes[x]) {
      var step := NeverDeadlocks(s);
      assert false;
    }
  }
}
