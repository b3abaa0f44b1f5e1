/**
 A run that forks the master, for every committee in which a recovery can mix two polynomials.  Genesis
 shares the zero polynomial.  A recovery re-shares it as the polynomial `x`, and every dealer stores its
 new share.  The last node, which knows no key, asks the same dealers for a recovery once more; before
 its request is served, node 1 restarts on its sealed genesis share.  The last node adopts a key that is
 not zero.
 */
module ForkRun {
  import opened Collections
  import opened PrimeField
  import opened Polynomial
  import opened Lagrange
  import opened Threshold
  import opened Reshare
  import opened Lifecycle
  import opened Master
  import opened MasterFork
  import Membership

  /** A committee in which two polynomials can be mixed. */
  predicate CanMix(c: Config) {
    2 <= c.t < c.n < c.p
  }

  // ---- Extending a run ----

  predicate IsGenesisKey(m: int) { m == 0 }

  /** A faithful run with genesis key `m` that ends in `s`. */
  ghost predicate Ends(c: Config, states: seq<State>, steps: seq<Step>, s: State, m: int)
    requires c.p >= 2
  {
    IsRun(c, states, steps) && states[|steps|] == s && GenesisIs(c, states, steps, m) && IsFaithful(c, states, steps)
  }

  /** The step keeps a run one with genesis key 0, and faithful. */
  ghost predicate IsReal(c: Config, s: State, step: Step)
    requires c.p >= 2
  {
    OneGenesis(c, s, step, 0) && Faithful(c, s, step)
  }

  ghost predicate RunsTo(c: Config, s: State, m: int)
    requires c.p >= 2
  {
    exists states, steps :: Ends(c, states, steps, s, m)
  }

  /**
   Some faithful run with genesis key 0 reaches `s`.  The key is bound by a quantifier so that the run itself only
   comes into a proof that names the key.
   */
  ghost predicate Reach(c: Config, s: State)
    requires c.p >= 2
  {
    forall m :: IsGenesisKey(m) ==> RunsTo(c, s, m)
  }

  lemma Extend(c: Config, s: State, s': State, step: Step)
    requires c.p >= 2 && Reach(c, s) && Next(c, s, s', step) && IsReal(c, s, step)
    ensures Reach(c, s')
  {
    assert IsGenesisKey(0);
    var states, steps :| Ends(c, states, steps, s, 0);
    ExtendRun(c, states, steps, s', step);
    assert Ends(c, states + [s'], steps + [step], s', 0);
    assert RunsTo(c, s', 0);
  }

  lemma ExtendRun(c: Config, states: seq<State>, steps: seq<Step>, s': State, step: Step)
    requires c.p >= 2 && IsRun(c, states, steps) && GenesisIs(c, states, steps, 0) && IsFaithful(c, states, steps)
    requires Next(c, states[|steps|], s', step) && IsReal(c, states[|steps|], step)
    ensures Ends(c, states + [s'], steps + [step], s', 0)
  {
    var states', steps' := states + [s'], steps + [step];
    forall k | 0 <= k < |steps'| ensures StepAt(c, states', steps', k) {
      if k < |steps| { assert StepAt(c, states, steps, k); }
    }
    forall k | 0 <= k < |steps'|
      ensures OneGenesis(c, states'[k], steps'[k], 0) && Faithful(c, states'[k], steps'[k])
    {
      if k < |steps| { assert OneGenesis(c, states[k], steps[k], 0) && Faithful(c, states[k], steps[k]); }
    }
  }

  /** One node moves; the sessions become `ss'`. */
  lemma Move(c: Config, s: State, nd': Node, ss': Sessions, step: Step) returns (s': State)
    requires c.p >= 2 && Reach(c, s) && !step.Propose? && step.i in s.nodes && IsReal(c, s, step)
    requires NodeStep(c, s, s.nodes[step.i], nd', step) && SessionStep(c, s, ss', step)
    ensures Reach(c, s') && s'.sessions == ss' && Moved(s, s', step.i, nd')
  {
    s' := State(s.nodes[step.i := nd'], ss');
    Extend(c, s, s', step);
  }

  /** From `s` to `s'` only node `i` changes, to `nd`. */
  predicate Moved(s: State, s': State, i: int, nd: Node) {
    && i in s.nodes && s'.nodes.Keys == s.nodes.Keys && s'.nodes[i] == nd
    && forall j :: j in s.nodes && j != i ==> s'.nodes[j] == s.nodes[j]
  }

  lemma MovedAgain(s: State, s1: State, s2: State, i: int, nd1: Node, nd2: Node)
    requires Moved(s, s1, i, nd1) && Moved(s1, s2, i, nd2)
    ensures Moved(s, s2, i, nd2)
  {
  }

  // ---- Genesis ----

  function Asleep(): Node { FreshNode({}) }

  function Joined(): Node { Node(None, None, None, InGenesis(0), map[], {}) }

  function FirstShard(): Shard { Shard(0, 1, 0) }

  /** A node that holds `sh`, knows key 0 and has sealed `seals`. */
  function Holder(sh: Shard, seals: set<Sealed>): Node {
    Node(Some(sh), Some(0), None, LoopTop, map[], seals)
  }

  function Founder(): Node { Holder(FirstShard(), {Sealed(FirstShard(), 0)}) }

  /** The genesis session after nodes 1 to `k` contributed the zero polynomial. */
  function GenesisSession(k: nat): Session {
    Session(true, [], 0, 1, map i | i in UpTo(k) :: [], map[])
  }

  lemma GenesisGrows(k: nat)
    ensures GenesisSession(k + 1) == GenesisSession(k).(polys := GenesisSession(k).polys[k + 1 := []])
    ensures k + 1 !in GenesisSession(k).polys
  {
    assert UpTo(k + 1) == UpTo(k) + [k + 1];
  }

  lemma Start(c: Config) returns (s: State)
    requires c.p >= 2
    ensures Reach(c, s) && s.nodes.Keys == Members(c) && s.sessions == map[0 := GenesisSession(0)]
    ensures forall i :: i in s.nodes ==> s.nodes[i] == Asleep()
  {
    var s0 := State(map i | i in Members(c) :: Asleep(), map[]);
    s := State(s0.nodes, map[0 := GenesisSession(0)]);
    var none: seq<Step> := [];
    assert Ends(c, [s0], none, s0, 0);
    assert RunsTo(c, s0, 0);
    Extend(c, s0, s, Propose(0, GenesisSession(0)));
  }

  lemma JoinGenesisNext(c: Config, s: State, k: nat) returns (s': State)
    requires CanMix(c) && Reach(c, s) && k + 1 in s.nodes && s.nodes[k + 1] == Asleep()
    requires s.sessions == map[0 := GenesisSession(k)]
    ensures Reach(c, s') && s'.sessions == map[0 := GenesisSession(k + 1)] && Moved(s, s', k + 1, Joined())
  {
    var i := k + 1;
    var s1 := Move(c, s, Asleep().(form := LoopTop), s.sessions, SkipReload(i));
    var s2 := Move(c, s1, Asleep().(form := Attempt), s.sessions, SeeNoShard(i));
    MovedAgain(s, s1, s2, i, Asleep().(form := LoopTop), Asleep().(form := Attempt));
    GenesisGrows(k);
    s' := Move(c, s2, Joined(), map[0 := GenesisSession(k + 1)], JoinGenesis(i, 0, []));
    MovedAgain(s, s2, s', i, Asleep().(form := Attempt), Joined());
  }

  lemma {:induction false} DealtOfZeros(polys: seq<Poly>, x: int)
    requires forall i :: 0 <= i < |polys| ==> polys[i] == []
    ensures Dealt(polys, x) == 0
  {
    if polys != [] {
      DealtOfZeros(polys[1..], x);
    }
  }

  lemma GenesisOutcome(c: Config, i: int)
    requires c.p >= 2
    ensures Complete(c, GenesisSession(c.n))
    ensures KeyOf(c, GenesisSession(c.n)) == 0 && ShareOf(c, GenesisSession(c.n), i) == 0
  {
    var s := GenesisSession(c.n);
    assert forall j :: 0 <= j < c.n ==> UpTo(c.n)[j] in UpTo(c.n);
    DealtOfZeros(Contributions(s, UpTo(c.n)), 0);
    DealtOfZeros(Contributions(s, UpTo(c.n)), i);
  }

  lemma StoreGenesisNext(c: Config, s: State, i: int) returns (s': State)
    requires CanMix(c) && Reach(c, s) && i in s.nodes && s.nodes[i] == Joined()
    requires s.sessions == map[0 := GenesisSession(c.n)]
    ensures Reach(c, s') && s'.sessions == s.sessions && Moved(s, s', i, Founder())
  {
    GenesisOutcome(c, i);
    var stored := Joined().(key := Some(0), seals := {Sealed(FirstShard(), 0)}, form := GenesisStoring(0));
    assert {} + {Sealed(FirstShard(), 0)} == {Sealed(FirstShard(), 0)};
    var s1 := Move(c, s, stored, s.sessions, StoreGenesisKey(i));
    s' := Move(c, s1, Founder(), s.sessions, StoreGenesisShard(i));
    MovedAgain(s, s1, s', i, stored, Founder());
  }

  /** Nodes 1 to `k` look like `after`, the others up to the last like `before`. */
  predicate Stage(c: Config, s: State, k: int, after: Node, before: Node) {
    && s.nodes.Keys == Members(c)
    && (forall i :: i in s.nodes && i <= k ==> s.nodes[i] == after)
    && (forall i :: i in s.nodes && k < i ==> s.nodes[i] == before)
  }

  lemma StageGrows(c: Config, s: State, s': State, k: nat, after: Node, before: Node)
    requires Stage(c, s, k, after, before) && Moved(s, s', k + 1, after)
    ensures Stage(c, s', k + 1, after, before)
  {
  }

  lemma {:induction false} EveryoneJoins(c: Config) returns (s: State)
    requires CanMix(c)
    ensures Reach(c, s) && s.sessions == map[0 := GenesisSession(c.n)] && Stage(c, s, c.n, Joined(), Asleep())
  {
    s := Start(c);
    AllMembers(c);
    var k := 0;
    while k < c.n
      invariant 0 <= k <= c.n && Reach(c, s) && s.sessions == map[0 := GenesisSession(k)]
      invariant Stage(c, s, k, Joined(), Asleep())
    {
      var s' := JoinGenesisNext(c, s, k);
      StageGrows(c, s, s', k, Joined(), Asleep());
      s, k := s', k + 1;
    }
  }

  lemma {:induction false} AllButOneFound(c: Config) returns (s: State)
    requires CanMix(c)
    ensures Reach(c, s) && s.sessions == map[0 := GenesisSession(c.n)] && Stage(c, s, c.n - 1, Founder(), Joined())
  {
    s := EveryoneJoins(c);
    AllMembers(c);
    var k := 0;
    while k < c.n - 1
      invariant 0 <= k <= c.n - 1 && Reach(c, s) && s.sessions == map[0 := GenesisSession(c.n)]
      invariant Stage(c, s, k, Founder(), Joined())
    {
      var s' := StoreGenesisNext(c, s, k + 1);
      StageGrows(c, s, s', k, Founder(), Joined());
      s, k := s', k + 1;
    }
  }

  function Seeking(): Node { Asleep().(form := Declined) }

  /** Everyone but the last node founds the cluster; the last node restarts and is told to recover. */
  lemma {:induction false} Found(c: Config) returns (s: State)
    requires CanMix(c)
    ensures Reach(c, s) && s.sessions == map[0 := GenesisSession(c.n)] && Stage(c, s, c.n - 1, Founder(), Seeking())
  {
    AllMembers(c);
    s := AllButOneFound(c);
    var n, top := c.n, Asleep().(form := LoopTop);
    var s1 := Move(c, s, Asleep(), s.sessions, Crash(n));
    var s2 := Move(c, s1, top, s.sessions, SkipReload(n));
    MovedAgain(s, s1, s2, n, Asleep(), top);
    s1 := SeekAgain(c, s2);
    MovedAgain(s, s2, s1, n, top, Seeking());
    s := s1;
  }

  lemma AllMembers(c: Config)
    ensures forall i :: i in Members(c) <==> 1 <= i <= c.n
  {
    forall i ensures i in Members(c) <==> 1 <= i <= c.n {
      MemberIsInUpTo(c, i);
    }
  }

  /** The last node starts a fresh attempt, and node 1, which holds a share, declines. */
  lemma SeekAgain(c: Config, s: State) returns (s': State)
    requires CanMix(c) && Reach(c, s) && c.n in s.nodes && s.nodes[c.n] == Asleep().(form := LoopTop)
    requires 1 in s.nodes && s.nodes[1].shard.Some?
    ensures Reach(c, s') && s'.sessions == s.sessions && Moved(s, s', c.n, Seeking())
  {
    var s1 := Move(c, s, Asleep().(form := Attempt), s.sessions, SeeNoShard(c.n));
    s' := Move(c, s1, Seeking(), s.sessions, Ask(c.n, 1));
    MovedAgain(s, s1, s', c.n, Asleep().(form := Attempt), Seeking());
  }

  // ---- A recovery session of the last node with everyone else as dealer ----

  type Deal = int -> Poly
  type Hand = int -> Shard

  /** The session after the last node and dealers 1 to `k` contributed. */
  predicate Built(c: Config, s: Session, epoch: nat, deal: Deal, hand: Hand, k: int) {
    && !s.genesis && s.dealers == Dealers(c) && s.recovering == c.n && s.epoch == epoch
    && c.n in s.polys && s.polys[c.n] == []
    && (forall i :: i in s.polys ==> i == c.n || 1 <= i <= k)
    && (forall i :: 1 <= i <= k ==> i in s.polys && s.polys[i] == deal(i))
    && (forall i :: 1 <= i <= k ==> i in s.dealt && s.dealt[i] == hand(i))
  }

  function Dealers(c: Config): seq<int> {
    if c.n == 0 then [] else UpTo(c.n - 1)
  }

  function Proposal(c: Config, epoch: nat): Session {
    Session(false, Dealers(c), c.n, epoch, map[], map[])
  }

  /** From `a` to `b`, dealer `i` brings `sh` by contributing `f`. */
  predicate Joins(c: Config, a: Session, b: Session, i: int, f: Poly, sh: Shard) {
    && !a.genesis && a.dealers == Dealers(c) && i !in a.polys
    && b == a.(polys := a.polys[i := f], dealt := a.dealt[i := sh])
  }

  /** The states of a session as its dealers join in order. */
  type Script = seq<Session>

  predicate GrowsAt(c: Config, script: Script, epoch: nat, deal: Deal, hand: Hand, i: int)
    requires 1 <= i < |script|
  {
    script[i - 1].epoch == epoch && Joins(c, script[i - 1], script[i], i, deal(i), hand(i))
  }

  predicate IsScript(c: Config, script: Script, epoch: nat, deal: Deal, hand: Hand) {
    && |script| == c.n > 0 && script[0] == Opening(c, epoch)
    && forall i :: 1 <= i < |script| ==> GrowsAt(c, script, epoch, deal, hand, i)
  }

  /** The session once the last node has joined. */
  function Opening(c: Config, epoch: nat): Session {
    Proposal(c, epoch).(polys := map[c.n := []])
  }

  lemma BuildNext(c: Config, a: Session, epoch: nat, deal: Deal, hand: Hand, i: nat) returns (b: Session)
    requires 1 <= i < c.n && Built(c, a, epoch, deal, hand, i - 1)
    ensures Built(c, b, epoch, deal, hand, i) && Joins(c, a, b, i, deal(i), hand(i))
  {
    b := a.(polys := a.polys[i := deal(i)], dealt := a.dealt[i := hand(i)]);
  }

  /** Write the session's states down, up to the one in which dealer `k` has joined. */
  lemma {:induction false} Write(c: Config, epoch: nat, deal: Deal, hand: Hand, k: nat) returns (script: Script)
    requires k < c.n
    ensures |script| == k + 1 && script[0] == Opening(c, epoch) && Built(c, script[k], epoch, deal, hand, k)
    ensures forall i :: 1 <= i < |script| ==> GrowsAt(c, script, epoch, deal, hand, i)
  {
    if k == 0 {
      script := [Opening(c, epoch)];
    } else {
      var before := Write(c, epoch, deal, hand, k - 1);
      var next := BuildNext(c, before[k - 1], epoch, deal, hand, k);
      script := WriteNext(c, epoch, deal, hand, before, next);
    }
  }

  lemma WriteNext(c: Config, epoch: nat, deal: Deal, hand: Hand, before: Script, next: Session) returns (script: Script)
    requires before != [] && forall i :: 1 <= i < |before| ==> GrowsAt(c, before, epoch, deal, hand, i)
    requires before[|before| - 1].epoch == epoch
    requires Joins(c, before[|before| - 1], next, |before|, deal(|before|), hand(|before|))
    ensures script == before + [next] && forall i :: 1 <= i < |script| ==> GrowsAt(c, script, epoch, deal, hand, i)
  {
    script := before + [next];
    forall i | 1 <= i < |script| ensures GrowsAt(c, script, epoch, deal, hand, i) {
      if i < |before| { assert GrowsAt(c, before, epoch, deal, hand, i); }
    }
  }

  lemma ProposalIsWellFormed(c: Config, epoch: nat)
    requires CanMix(c)
    ensures WellFormed(c, Proposal(c, epoch))
  {
  }

  function Recovering(sid: nat): Node { Asleep().(form := InRecovery(sid)) }

  /** Everyone but the last node, on epoch `e`. */
  function View(c: Config, e: nat): Membership.Membership {
    var peers := seq(|Dealers(c)|, j requires 0 <= j < |Dealers(c)| => Membership.SessionPeer(j + 1, "", [], e));
    Membership.Membership(c.n, peers, c.t, c.n, true)
  }

  lemma ViewLeads(c: Config, e: nat)
    requires CanMix(c) && e > 0
    ensures Membership.DealerIds(View(c, e)) == Dealers(c) && Membership.RecoveryGates(View(c, e))
  {
    Membership.AllOnOneEpochLead(View(c, e).peers, e);
    assert Membership.LeadingDealers(View(c, e).peers) == View(c, e).peers;
  }

  /** Everyone but the last node holds a share of epoch `e`. */
  predicate AllHold(c: Config, s: State, e: nat) {
    forall i :: 1 <= i < c.n ==> i in s.nodes && HeldEpoch(s, i) == e
  }

  lemma RecoveryIsRequested(c: Config, s: State, e: nat)
    requires CanMix(c) && e > 0 && AllHold(c, s, e) && HeldEpoch(s, c.n) == 0
    ensures Requested(c, s, Proposal(c, e + 1), View(c, e), e)
  {
    ViewLeads(c, e);
    assert 1 in s.nodes && HeldEpoch(s, 1) == e;
    forall q | q in View(c, e).peers ensures 1 <= q.id <= c.n && q.id != c.n && IsTrue(s, q) && q.epoch <= e {
    }
  }

  /** The last node asks for session `sid`, on a true view of everyone else on epoch `e`, and joins it. */
  lemma Open(c: Config, s: State, sid: nat, e: nat) returns (s': State)
    requires CanMix(c) && Reach(c, s) && sid !in s.sessions && c.n in s.nodes && s.nodes[c.n] == Seeking()
    requires e > 0 && AllHold(c, s, e)
    ensures Reach(c, s') && SessionsAre(s'.sessions, s.sessions, sid, Opening(c, e + 1))
    ensures Moved(s, s', c.n, Recovering(sid))
  {
    ProposalIsWellFormed(c, e + 1);
    RecoveryIsRequested(c, s, e);
    var s1 := State(s.nodes, s.sessions[sid := Proposal(c, e + 1)]);
    Extend(c, s, s1, Propose(sid, Proposal(c, e + 1)));
    var joined := s1.sessions[sid := Opening(c, e + 1)];
    s' := Move(c, s1, Recovering(sid), joined, JoinRecovery(c.n, sid, []));
  }

  /** Dealer `i` may bring `hand(i)` by contributing `deal(i)`. */
  ghost predicate DealOk(c: Config, deal: Deal, hand: Hand, epoch: nat, i: int)
    requires c.p >= 2 && 1 <= i < c.n
  {
    && |deal(i)| <= c.t && hand(i).epoch < epoch
    && Same(c.p, Eval(deal(i), 0), Weight(c.p, Dealers(c), i - 1) * hand(i).value)
  }

  lemma {:induction false} IndexInUpTo(k: nat, i: int)
    requires 1 <= i <= k
    ensures i in UpTo(k) && IndexOf(UpTo(k), i) == i - 1
  {
    assert UpTo(k)[i - 1] == i;
    IndexIsUnique(UpTo(k), i - 1);
  }

  function Dealing(nd: Node, sid: nat): Node { nd.(jobs := nd.jobs[sid := Running]) }

  lemma DealNext(c: Config, s: State, sid: nat, b: Session, i: int, f: Poly, sh: Shard) returns (s': State)
    requires CanMix(c) && Reach(c, s) && 1 <= i < c.n && |f| <= c.t
    requires Same(c.p, Eval(f, 0), Weight(c.p, Dealers(c), i - 1) * sh.value)
    requires sid in s.sessions && Joins(c, s.sessions[sid], b, i, f, sh) && sh.epoch < s.sessions[sid].epoch
    requires i in s.nodes && s.nodes[i].shard == Some(sh) && sid !in s.nodes[i].jobs
    ensures Reach(c, s') && s'.sessions == s.sessions[sid := b] && Moved(s, s', i, Dealing(s.nodes[i], sid))
  {
    IndexInUpTo(c.n - 1, i);
    assert DealerPoly(c, s.sessions[sid], i, sh.value, f);
    s' := Move(c, s, Dealing(s.nodes[i], sid), s.sessions[sid := b], JoinDealing(i, sid, f));
  }

  /** Nodes 1 to `k` have joined the dealing of `sid`; the others are as they were in `s`. */
  predicate HaveJoined(s: State, s': State, sid: nat, k: int) {
    && s'.nodes.Keys == s.nodes.Keys
    && (forall i :: i in s.nodes && i <= k ==> s'.nodes[i] == Dealing(s.nodes[i], sid))
    && (forall i :: i in s.nodes && k < i ==> s'.nodes[i] == s.nodes[i])
  }

  lemma DealingGrows(s: State, s1: State, s2: State, sid: nat, i: nat)
    requires HaveJoined(s, s1, sid, i - 1) && i in s.nodes && Moved(s1, s2, i, Dealing(s1.nodes[i], sid))
    ensures HaveJoined(s, s2, sid, i)
  {
  }

  /** Every other node can deal in session `sid`. */
  ghost predicate CanDeal(c: Config, s: State, sid: nat, epoch: nat, deal: Deal, hand: Hand)
    requires c.p >= 2
  {
    && s.nodes.Keys == Members(c)
    && (forall i :: 1 <= i < c.n ==> DealOk(c, deal, hand, epoch, i))
    && (forall i :: i in s.nodes && i < c.n ==> s.nodes[i].shard == Some(hand(i)) && sid !in s.nodes[i].jobs)
  }

  lemma StillCanDeal(c: Config, s: State, s': State, sid: nat, epoch: nat, deal: Deal, hand: Hand, k: nat)
    requires c.p >= 2 && CanDeal(c, s, sid, epoch, deal, hand) && HaveJoined(s, s', sid, k) && k + 1 < c.n
    ensures k + 1 in s.nodes && k + 1 in s'.nodes && DealOk(c, deal, hand, epoch, k + 1)
    ensures s'.nodes[k + 1].shard == Some(hand(k + 1)) && sid !in s'.nodes[k + 1].jobs
  {
    MemberIsInUpTo(c, k + 1);
  }

  /** The state of session `sid`, and the states of all other sessions. */
  predicate SessionsAre(ss: Sessions, others: Sessions, sid: nat, session: Session) {
    && sid in ss && ss[sid] == session
    && forall x :: x in ss && x != sid ==> x in others && ss[x] == others[x]
  }

  lemma NextDealerDeals(c: Config, s1: State, sid: nat,
                        script: Script, epoch: nat, deal: Deal, hand: Hand, i: nat) returns (s2: State)
    requires CanMix(c) && 1 <= i < c.n <= |script| && Reach(c, s1) && DealOk(c, deal, hand, epoch, i)
    requires GrowsAt(c, script, epoch, deal, hand, i) && sid in s1.sessions && s1.sessions[sid] == script[i - 1]
    requires i in s1.nodes && s1.nodes[i].shard == Some(hand(i)) && sid !in s1.nodes[i].jobs
    ensures Reach(c, s2) && s2.sessions == s1.sessions[sid := script[i]]
    ensures Moved(s1, s2, i, Dealing(s1.nodes[i], sid))
  {
    s2 := DealNext(c, s1, sid, script[i], i, deal(i), hand(i));
  }

  lemma OneMoreDeals(c: Config, s: State, s1: State, sid: nat,
                     script: Script, epoch: nat, deal: Deal, hand: Hand, i: nat) returns (s2: State)
    requires CanMix(c) && 1 <= i < c.n <= |script| && Reach(c, s1) && DealOk(c, deal, hand, epoch, i)
    requires GrowsAt(c, script, epoch, deal, hand, i) && sid in s1.sessions && s1.sessions[sid] == script[i - 1]
    requires i in s1.nodes && s1.nodes[i].shard == Some(hand(i)) && sid !in s1.nodes[i].jobs
    requires HaveJoined(s, s1, sid, i - 1)
    ensures Reach(c, s2) && HaveJoined(s, s2, sid, i) && s2.sessions == s1.sessions[sid := script[i]]
  {
    s2 := NextDealerDeals(c, s1, sid, script, epoch, deal, hand, i);
    DealingGrows(s, s1, s2, sid, i);
  }

  lemma SessionAdvances(ss: Sessions, ss': Sessions, others: Sessions, sid: nat, a: Session, b: Session)
    requires SessionsAre(ss, others, sid, a) && ss' == ss[sid := b]
    ensures SessionsAre(ss', others, sid, b)
  {
  }

  /** Everyone else deals. */
  lemma {:induction false} DealAll(c: Config, s: State, sid: nat, others: Sessions,
                                   script: Script, epoch: nat, deal: Deal, hand: Hand, k: nat) returns (s': State)
    requires CanMix(c) && Reach(c, s) && CanDeal(c, s, sid, epoch, deal, hand) && k < c.n
    requires IsScript(c, script, epoch, deal, hand) && SessionsAre(s.sessions, others, sid, script[0])
    ensures Reach(c, s') && SessionsAre(s'.sessions, others, sid, script[k]) && HaveJoined(s, s', sid, k)
  {
    if k == 0 {
      NobodyJoinedYet(c, s, sid);
      s' := s;
    } else {
      var s1 := DealAll(c, s, sid, others, script, epoch, deal, hand, k - 1);
      assert GrowsAt(c, script, epoch, deal, hand, k);
      StillCanDeal(c, s, s1, sid, epoch, deal, hand, k - 1);
      s' := OneMoreDeals(c, s, s1, sid, script, epoch, deal, hand, k);
      SessionAdvances(s1.sessions, s'.sessions, others, sid, script[k - 1], script[k]);
    }
  }

  lemma NobodyJoinedYet(c: Config, s: State, sid: nat)
    requires s.nodes.Keys == Members(c)
    ensures HaveJoined(s, s, sid, 0)
  {
    AllMembers(c);
  }

  lemma BuiltIsComplete(c: Config, s: Session, epoch: nat, deal: Deal, hand: Hand)
    requires CanMix(c) && Built(c, s, epoch, deal, hand, c.n - 1)
    ensures Complete(c, s) && |Participants(c, s)| == c.n
    ensures forall j :: 0 <= j < c.n ==>
      Contributions(s, Participants(c, s))[j] == if j == c.n - 1 then [] else deal(j + 1)
  {
    forall j | 0 <= j < c.n ensures Participants(c, s)[j] == j + 1 && j + 1 in s.polys {
    }
  }

  // ---- First recovery: the zero polynomial becomes `x` ----

  const X_DEAL: Deal := i => if i == 1 then [0, 1] else []
  const ZERO_HAND: Hand := i => FirstShard()

  function SecondShard(i: int): Shard { Shard(i, 2, 1) }

  function Refreshed(i: int): Node {
    Holder(SecondShard(i), {Sealed(FirstShard(), 0), Sealed(SecondShard(i), 0)})
  }

  lemma EvalX(x: int)
    ensures Eval([0, 1], x) == x && Eval([], x) == 0
  {
    assert [0, 1][1..] == [1] && [1][1..] == [];
    assert Eval([1], x) == 1 + x * Eval([], x);
  }

  /** A finished session with key 0 in which the share of dealer `i` is `i`. */
  ghost predicate SharesX(c: Config, s: Session)
    requires c.p >= 2
  {
    Complete(c, s) && KeyOf(c, s) == 0 && s.epoch == 2 && forall i :: 1 <= i < c.n ==> ShareOf(c, s, i) == i
  }

  lemma XDealOutcome(c: Config, s: Session)
    requires CanMix(c) && Built(c, s, 2, X_DEAL, ZERO_HAND, c.n - 1)
    ensures SharesX(c, s)
  {
    BuiltIsComplete(c, s, 2, X_DEAL, ZERO_HAND);
    var polys := Contributions(s, Participants(c, s));
    forall x ensures Dealt(polys, x) == x {
      EvalX(x);
      DealtOfZeros(polys[1..], x);
    }
    SmallResidue(c.p, 0);
    forall i | 1 <= i < c.n ensures ShareOf(c, s, i) == i {
      SmallResidue(c.p, i);
    }
  }

  lemma StoreDealtKey(c: Config, s: State, i: int, nd2: Node) returns (s2: State)
    requires CanMix(c) && Reach(c, s) && 1 <= i < c.n && i in s.nodes && s.nodes[i] == Dealing(Founder(), 1)
    requires 1 in s.sessions && SharesX(c, s.sessions[1])
    requires nd2 == Refreshed(i).(shard := Some(FirstShard()), jobs := map[1 := Storing])
    ensures Reach(c, s2) && s2.sessions == s.sessions && Moved(s, s2, i, nd2)
  {
    var nd := Dealing(Founder(), 1);
    assert nd.seals + {Sealed(SecondShard(i), 0)} == nd2.seals;
    var nd1 := nd.(jobs := nd.jobs[1 := Checked]);
    var s1 := Move(c, s, nd1, s.sessions, CheckDealing(i, 1));
    assert nd1.jobs[1 := Storing] == map[1 := Storing];
    s2 := Move(c, s1, nd2, s.sessions, StoreDealingKey(i, 1));
    MovedAgain(s, s1, s2, i, nd1, nd2);
  }

  lemma StoreDealtNext(c: Config, s: State, i: int) returns (s': State)
    requires CanMix(c) && Reach(c, s) && 1 <= i < c.n && i in s.nodes && s.nodes[i] == Dealing(Founder(), 1)
    requires 1 in s.sessions && SharesX(c, s.sessions[1])
    ensures Reach(c, s') && s'.sessions == s.sessions && Moved(s, s', i, Refreshed(i))
  {
    var nd2 := Refreshed(i).(shard := Some(FirstShard()), jobs := map[1 := Storing]);
    var s2 := StoreDealtKey(c, s, i, nd2);
    assert nd2.jobs - {1} == map[];
    s' := Move(c, s2, Refreshed(i), s.sessions, StoreDealingShard(i, 1));
    MovedAgain(s, s2, s', i, nd2, Refreshed(i));
  }

  /** Dealers 1 to `k` have stored, the others not yet, and the last node is `last`. */
  predicate Restocked(c: Config, s: State, k: int, last: Node) {
    && s.nodes.Keys == Members(c) && c.n in s.nodes && s.nodes[c.n] == last
    && (forall i :: i in s.nodes && i <= k && i < c.n ==> s.nodes[i] == Refreshed(i))
    && (forall i :: i in s.nodes && k < i < c.n ==> s.nodes[i] == Dealing(Founder(), 1))
  }

  lemma RestockedGrows(c: Config, s: State, s': State, k: nat, last: Node)
    requires Restocked(c, s, k, last) && k + 1 < c.n && Moved(s, s', k + 1, Refreshed(k + 1))
    ensures Restocked(c, s', k + 1, last)
  {
  }

  /** Session 1 shares `x`, and session 2 is still to come. */
  ghost predicate XIsShared(c: Config, ss: Sessions)
    requires c.p >= 2
  {
    1 in ss && SharesX(c, ss[1]) && 2 !in ss
  }

  /** A script of the first recovery. */
  ghost predicate IsFirst(c: Config, script: Script)
    requires c.p >= 2 && c.n >= 1
  {
    IsScript(c, script, 2, X_DEAL, ZERO_HAND) && SharesX(c, script[c.n - 1])
  }

  lemma {:induction false} Opened(c: Config) returns (s0: State, s: State)
    requires CanMix(c)
    ensures Stage(c, s0, c.n - 1, Founder(), Seeking()) && Moved(s0, s, c.n, Recovering(1)) && Reach(c, s)
    ensures SessionsAre(s.sessions, s0.sessions, 1, Opening(c, 2)) && 2 !in s0.sessions
  {
    AllMembers(c);
    s0 := Found(c);
    s := Open(c, s0, 1, 1);
  }

  lemma FirstIsShared(c: Config, ss: Sessions, others: Sessions, session: Session)
    requires c.p >= 2 && SessionsAre(ss, others, 1, session) && SharesX(c, session) && 2 !in others
    ensures XIsShared(c, ss)
  {
  }

  lemma {:induction false} EveryoneDeals(c: Config, first: Script) returns (s: State)
    requires CanMix(c) && IsFirst(c, first)
    ensures Reach(c, s) && XIsShared(c, s.sessions) && Restocked(c, s, 0, Recovering(1))
  {
    var s0, s1 := Opened(c);
    FoundersCanDeal(c, s0, s1);
    s := DealAll(c, s1, 1, s0.sessions, first, 2, X_DEAL, ZERO_HAND, c.n - 1);
    FoundersHaveJoined(c, s0, s1, s);
    FirstIsShared(c, s.sessions, s0.sessions, first[c.n - 1]);
  }

  lemma FoundersCanDeal(c: Config, s0: State, s1: State)
    requires CanMix(c) && Stage(c, s0, c.n - 1, Founder(), Seeking()) && Moved(s0, s1, c.n, Recovering(1))
    ensures CanDeal(c, s1, 1, 2, X_DEAL, ZERO_HAND)
  {
    EvalX(0);
  }

  lemma FoundersHaveJoined(c: Config, s0: State, s1: State, s: State)
    requires CanMix(c) && Stage(c, s0, c.n - 1, Founder(), Seeking()) && Moved(s0, s1, c.n, Recovering(1))
    requires HaveJoined(s1, s, 1, c.n - 1)
    ensures Restocked(c, s, 0, Recovering(1))
  {
    AllMembers(c);
  }

  lemma {:induction false} EveryoneStores(c: Config, first: Script) returns (s: State)
    requires CanMix(c) && IsFirst(c, first)
    ensures Reach(c, s) && XIsShared(c, s.sessions) && Restocked(c, s, c.n - 1, Recovering(1))
  {
    AllMembers(c);
    s := EveryoneDeals(c, first);
    var k := 0;
    while k < c.n - 1
      invariant 0 <= k <= c.n - 1 && Reach(c, s) && XIsShared(c, s.sessions) && Restocked(c, s, k, Recovering(1))
    {
      var s' := StoreDealtNext(c, s, k + 1);
      RestockedGrows(c, s, s', k, Recovering(1));
      s, k := s', k + 1;
    }
  }

  /** All dealers of the first recovery store their new shares; the last node gives up. */
  lemma {:induction false} Reshared(c: Config, first: Script) returns (s: State)
    requires CanMix(c) && IsFirst(c, first)
    ensures Reach(c, s) && XIsShared(c, s.sessions) && Restocked(c, s, c.n - 1, Seeking())
  {
    AllMembers(c);
    var s0 := EveryoneStores(c, first);
    var top := Asleep().(form := LoopTop);
    var s1 := Move(c, s0, top, s0.sessions, GiveUp(c.n));
    s := SeekAgain(c, s1);
    MovedAgain(s0, s1, s, c.n, top, Seeking());
  }

  // ---- Second recovery: node 1 is back on the zero polynomial ----

  const MIXED_HAND: Hand := i => if i == 1 then FirstShard() else SecondShard(i)

  function MixedDeal(c: Config): Deal
    requires c.p >= 2
  {
    i => if 1 <= i < c.n then [Weight(c.p, Dealers(c), i - 1) * MIXED_HAND(i).value] else []
  }

  lemma MixedDealsAreOk(c: Config, i: int)
    requires CanMix(c) && 1 <= i < c.n
    ensures DealOk(c, MixedDeal(c), MIXED_HAND, 3, i)
  {
    var x := Weight(c.p, Dealers(c), i - 1) * MIXED_HAND(i).value;
    ConstantDealsItself(c.p, x);
    assert MixedDeal(c)(i) == [x];
  }

  lemma ConstantDealsItself(p: int, x: int)
    requires p >= 2
    ensures Same(p, Eval([x], 0), x)
  {
    EvalConstant(x, 0);
  }

  /** A finished session to which node 1 brought zero and every other dealer its id. */
  predicate IsMixed(c: Config, s: Session) {
    && !s.genesis && s.dealers == Dealers(c) && Complete(c, s)
    && forall i :: 1 <= i < c.n ==> i in s.dealt && s.dealt[i].value == if i == 1 then 0 else i
  }

  lemma BuiltIsMixed(c: Config, deal: Deal, s: Session)
    requires CanMix(c) && Built(c, s, 3, deal, MIXED_HAND, c.n - 1)
    ensures IsMixed(c, s)
  {
    BuiltIsComplete(c, s, 3, deal, MIXED_HAND);
  }

  /** The shares on `x`, and one on zero, do not interpolate to zero. */
  lemma MixedValuesMissZero(p: int, ids: seq<int>, values: seq<int>)
    requires IsPrime(p) && 2 <= |ids| == |values| < p && UsableIds(p, ids)
    requires forall j :: 0 <= j < |values| ==> ids[j] == j + 1 && values[j] == if j == 0 then 0 else j + 1
    ensures AtZero(p, ids, values) != 0
  {
    forall j | 0 <= j < |ids| && j != 0 ensures Same(p, values[j], Eval([0, 1], ids[j])) {
      EvalX(ids[j]);
    }
    EvalX(0);
    EvalX(1);
    SmallResidue(p, 0);
    SmallResidue(p, 1);
    InterceptRecoveredIff(p, [0, 1], ids, values, 0);
  }

  lemma MixedDealers(c: Config, s: Session)
    requires CanMix(c) && IsMixed(c, s)
    ensures |s.dealers| == c.n - 1 && NoRepeats(s.dealers)
    ensures forall j :: 0 <= j < |s.dealers| ==>
      && s.dealers[j] == j + 1 && s.dealers[j] in s.dealt
      && s.dealt[s.dealers[j]].value == if j == 0 then 0 else j + 1
  {
  }

  lemma MixedSharesMissZero(c: Config, s: Session)
    requires IsPrime(c.p) && CanMix(c) && IsMixed(c, s)
    ensures forall j :: 0 <= j < |s.dealers| ==> s.dealers[j] in s.dealt
    ensures Distinct(c.p, s.dealers) && AtZero(c.p, s.dealers, DealtValues(s, |s.dealers|)) != 0
  {
    MixedDealers(c, s);
    MembersAreUsable(c, s.dealers);
    MixedValuesMissZero(c.p, s.dealers, DealtValues(s, |s.dealers|));
  }

  lemma MixedKeyIsNotZero(c: Config, ss: Sessions, s: Session)
    requires IsPrime(c.p) && CanMix(c) && IsMixed(c, s) && SessionOk(c, ss, s)
    ensures KeyOf(c, s) != 0
  {
    MixedSharesMissZero(c, s);
    SessionKeyInterpolatesDealtShares(c, ss, s);
  }

  function Restarted(): Node { Holder(FirstShard(), Refreshed(1).seals) }

  /** Node 1 crashes and restarts on the share it sealed at genesis, having heard from the last node only. */
  lemma Restart(c: Config, s: State) returns (s': State)
    requires CanMix(c) && Reach(c, s) && 1 in s.nodes && s.nodes[1] == Refreshed(1)
    requires c.n in s.nodes && s.nodes[c.n].shard.None?
    ensures Reach(c, s') && s'.sessions == s.sessions && Moved(s, s', 1, Restarted())
  {
    var s1 := Move(c, s, FreshNode(Refreshed(1).seals), s.sessions, Crash(1));
    var blob := Sealed(FirstShard(), 0);
    assert c.n in s1.nodes && c.n != 1 && HeldEpoch(s1, c.n) <= blob.shard.epoch;
    s' := Move(c, s1, Restarted(), s.sessions, Reload(1, blob));
    MovedAgain(s, s1, s', 1, FreshNode(Refreshed(1).seals), Restarted());
  }

  /** A script of the second recovery. */
  ghost predicate IsSecond(c: Config, deal: Deal, script: Script)
    requires c.p >= 2
  {
    && IsScript(c, script, 3, deal, MIXED_HAND) && IsMixed(c, script[c.n - 1])
    && forall i :: 1 <= i < c.n ==> DealOk(c, deal, MIXED_HAND, 3, i)
  }

  /** The last node asks for the second recovery on a true view; then node 1 restarts. */
  lemma {:induction false} OpenedAgain(c: Config, first: Script) returns (s0: State, s1: State, s: State)
    requires CanMix(c) && IsFirst(c, first)
    ensures Restocked(c, s0, c.n - 1, Seeking()) && Moved(s0, s1, c.n, Recovering(2)) && Moved(s1, s, 1, Restarted())
    ensures Reach(c, s) && SessionsAre(s.sessions, s0.sessions, 2, Opening(c, 3))
  {
    AllMembers(c);
    s0 := Reshared(c, first);
    s1 := Open(c, s0, 2, 2);
    s := Restart(c, s1);
  }

  lemma {:induction false} EveryoneDealsAgain(c: Config, s0: State, s1: State, s2: State, deal: Deal, second: Script)
    returns (s: State)
    requires CanMix(c) && IsSecond(c, deal, second) && Restocked(c, s0, c.n - 1, Seeking())
    requires Moved(s0, s1, c.n, Recovering(2)) && Moved(s1, s2, 1, Restarted())
    requires Reach(c, s2) && SessionsAre(s2.sessions, s0.sessions, 2, Opening(c, 3))
    ensures HaveJoined(s2, s, 2, c.n - 1) && Reach(c, s) && SessionsAre(s.sessions, s0.sessions, 2, second[c.n - 1])
  {
    HoldersCanDeal(c, s0, s1, s2, deal);
    s := DealAll(c, s2, 2, s0.sessions, second, 3, deal, MIXED_HAND, c.n - 1);
  }

  /** Everyone is in the second recovery, and the last node knows no key. */
  lemma {:induction false} Mixed(c: Config, first: Script, deal: Deal, second: Script) returns (s: State)
    requires CanMix(c) && IsFirst(c, first) && IsSecond(c, deal, second)
    ensures Reach(c, s) && 2 in s.sessions && IsMixed(c, s.sessions[2])
    ensures 1 in s.nodes && s.nodes[1].key == Some(0)
    ensures c.n in s.nodes && s.nodes[c.n] == Recovering(2)
  {
    var s0, s1, s2 := OpenedAgain(c, first);
    s := EveryoneDealsAgain(c, s0, s1, s2, deal, second);
    HoldersHaveJoined(c, s0, s1, s2, s);
    SecondIsMixed(c, s.sessions, s0.sessions, second[c.n - 1]);
  }

  lemma SecondIsMixed(c: Config, ss: Sessions, others: Sessions, session: Session)
    requires SessionsAre(ss, others, 2, session) && IsMixed(c, session)
    ensures 2 in ss && IsMixed(c, ss[2])
  {
  }

  lemma HoldersHaveJoined(c: Config, s0: State, s1: State, s2: State, s: State)
    requires CanMix(c) && Restocked(c, s0, c.n - 1, Seeking()) && Moved(s0, s1, c.n, Recovering(2))
    requires Moved(s1, s2, 1, Restarted()) && HaveJoined(s2, s, 2, c.n - 1)
    ensures 1 in s.nodes && s.nodes[1].key == Some(0) && c.n in s.nodes && s.nodes[c.n] == Recovering(2)
  {
  }

  lemma HoldersCanDeal(c: Config, s0: State, s1: State, s2: State, deal: Deal)
    requires CanMix(c) && Restocked(c, s0, c.n - 1, Seeking()) && Moved(s0, s1, c.n, Recovering(2))
    requires Moved(s1, s2, 1, Restarted()) && forall i :: 1 <= i < c.n ==> DealOk(c, deal, MIXED_HAND, 3, i)
    ensures CanDeal(c, s2, 2, 3, deal, MIXED_HAND)
  {
    AllMembers(c);
  }

  /** The last node adopts the mixed session's key: two nodes of the cluster now know different keys. */
  lemma {:induction false} ForkIsReachable(c: Config, first: Script, deal: Deal, second: Script) returns (s: State)
    requires IsPrime(c.p) && CanMix(c) && IsFirst(c, first) && IsSecond(c, deal, second)
    ensures Reach(c, s) && 1 in s.nodes && c.n in s.nodes
    ensures s.nodes[1].key.Some? && s.nodes[c.n].key.Some? && s.nodes[1].key != s.nodes[c.n].key
  {
    var s0 := Mixed(c, first, deal, second);
    ReachableInv(c, s0);
    MixedKeyIsNotZero(c, s0.sessions, s0.sessions[2]);
    s := Adopt(c, s0);
  }

  lemma Adopt(c: Config, s0: State) returns (s: State)
    requires CanMix(c) && Reach(c, s0) && Done(c, s0.sessions, 2) && KeyOf(c, s0.sessions[2]) != 0
    requires 1 in s0.nodes && s0.nodes[1].key == Some(0) && c.n in s0.nodes && s0.nodes[c.n] == Recovering(2)
    ensures Reach(c, s) && 1 in s.nodes && c.n in s.nodes
    ensures s.nodes[1].key.Some? && s.nodes[c.n].key.Some? && s.nodes[1].key != s.nodes[c.n].key
  {
    var checked := Recovering(2).(form := RecoveryChecked(2));
    var s1 := Move(c, s0, checked, s0.sessions, CheckRecovery(c.n));
    var adopted := StoreKey(c, s0.sessions, 2, c.n, checked).(form := RecoveryStoring(2));
    s := Move(c, s1, adopted, s0.sessions, StoreRecoveryKey(c.n));
  }

  lemma ReachableInv(c: Config, s: State)
    requires c.p >= 2 && Reach(c, s)
    ensures Inv(c, s)
  {
    assert IsGenesisKey(0);
    var states, steps :| Ends(c, states, steps, s, 0);
    RunKeepsInv(c, states, steps, |steps|);
  }

  /**
   For every committee with `2 <= t < n` there is a run with a single genesis outcome after which no
   key is the one master of the cluster.  Every recovery of the run is asked for on a true view that
   passes the gates, and every reload passes the freshness test.
   */
  lemma ForkingRun(c: Config) returns (states: seq<State>, steps: seq<Step>)
    requires IsPrime(c.p) && CanMix(c)
    ensures IsRun(c, states, steps) && GenesisIs(c, states, steps, 0) && IsFaithful(c, states, steps)
    ensures forall m :: !OneMaster(c, states[|steps|], m)
  {
    var first := Write(c, 2, X_DEAL, ZERO_HAND, c.n - 1);
    XDealOutcome(c, first[c.n - 1]);
    var deal := MixedDeal(c);
    var second := Write(c, 3, deal, MIXED_HAND, c.n - 1);
    BuiltIsMixed(c, deal, second[c.n - 1]);
    forall i | 1 <= i < c.n ensures DealOk(c, deal, MIXED_HAND, 3, i) {
      MixedDealsAreOk(c, i);
    }
    var s := ForkIsReachable(c, first, deal, second);
    assert IsGenesisKey(0);
    states, steps :| Ends(c, states, steps, s, 0);
    forall m ensures !OneMaster(c, s, m) {
      assert s.nodes[1].key.Some? && s.nodes[c.n].key.Some?;
    }
  }

  /**
   The exact condition: a cluster with one genesis outcome has one master in every run, and likewise in
   every faithful run, if and only if its threshold is one, where every share is the master, or its
   size, where nobody can recover.
   */
  lemma OneMasterExactlyWhen(c: Config)
    requires ValidConfig(c)
    ensures NeverForks(c) <==> c.t == 1 || c.t == c.n
    ensures NeverForksFaithfully(c) <==> c.t == 1 || c.t == c.n
  {
    if c.t == 1 || c.t == c.n {
      forall states, steps, m, k | IsRun(c, states, steps) && 0 <= k < |states| && GenesisIs(c, states, steps, m)
        ensures OneMaster(c, states[k], m)
      {
        ExtremeThresholdsNeverFork(c, states, steps, m, k);
      }
    } else {
      var states, steps := ForkingRun(c);
      assert !OneMaster(c, states[|steps|], 0);
    }
  }
}
