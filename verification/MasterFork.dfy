/**
 When can a cluster with one genesis end up with two masters?  A node that knows no key adopts whatever
 key its recovery produces, so the answer is: whenever a recovery can mix two polynomials at all.
 */
module MasterFork {
  import opened Collections
  import opened PrimeField
  import opened Polynomial
  import opened Lagrange
  import opened Threshold
  import opened Lifecycle
  import opened Master
  import Membership

  /** In every run in which all genesis outcomes are `m`, every state has the one master `m`. */
  ghost predicate NeverForks(c: Config)
    requires c.p >= 2
  {
    forall states, steps, m, k ::
      IsRun(c, states, steps) && 0 <= k < |states| && GenesisIs(c, states, steps, m) ==> OneMaster(c, states[k], m)
  }

  /** The same of the faithful runs only. */
  ghost predicate NeverForksFaithfully(c: Config)
    requires c.p >= 2
  {
    forall states, steps, m, k ::
      IsRun(c, states, steps) && 0 <= k < |states| && GenesisIs(c, states, steps, m) && IsFaithful(c, states, steps)
      ==> OneMaster(c, states[k], m)
  }

  ghost predicate GenesisIs(c: Config, states: seq<State>, steps: seq<Step>, m: int)
    requires c.p >= 2 && |states| == |steps| + 1
  {
    forall l :: 0 <= l < |steps| ==> OneGenesis(c, states[l], steps[l], m)
  }

  // ---- Faithful runs: requests come from true views, and reloads pass the freshness test ----

  function HeldEpoch(s: State, i: int): nat {
    if i in s.nodes && s.nodes[i].shard.Some? then s.nodes[i].shard.value.epoch else 0
  }

  /**
   The recovery is what a node asks for on the view `m` and the highest known epoch `known`: its dealers
   are the leading ones, the gates pass, and every epoch in the view is the one the peer now holds.
   */
  ghost predicate Requested(c: Config, s: State, session: Session, m: Membership.Membership, known: nat) {
    && m.ownId == session.recovering && m.threshold == c.t && m.total == c.n && Membership.Ascending(m.peers)
    && (forall q :: q in m.peers ==> 1 <= q.id <= c.n && q.id != m.ownId && IsTrue(s, q) && q.epoch <= known)
    && (exists j :: j in s.nodes && HeldEpoch(s, j) == known)
    && Membership.RecoveryGates(m) && session.dealers == Membership.DealerIds(m)
    && session.epoch == 1 + if HeldEpoch(s, m.ownId) > known then HeldEpoch(s, m.ownId) else known
  }

  predicate IsTrue(s: State, q: Membership.SessionPeer) { q.epoch == HeldEpoch(s, q.id) }

  /** A refresh is asked for when the whole committee holds shares of one epoch. */
  ghost predicate RefreshRequested(c: Config, s: State, session: Session) {
    && session.recovering == 0 && session.dealers == UpTo(c.n)
    && forall i :: 1 <= i <= c.n ==> HeldEpoch(s, i) > 0 && session.epoch == HeldEpoch(s, i) + 1
  }

  /** The freshness test passes for a node that has heard from one other node only. */
  ghost predicate FreshEnough(s: State, i: int, blob: Sealed) {
    exists j :: j in s.nodes && j != i && HeldEpoch(s, j) <= blob.shard.epoch
  }

  ghost predicate Faithful(c: Config, s: State, step: Step) {
    match step
    case Propose(_, session) =>
      || session.genesis
      || RefreshRequested(c, s, session)
      || exists m, known :: Requested(c, s, session, m, known)
    case Reload(i, blob) => FreshEnough(s, i, blob)
    case _ => true
  }

  ghost predicate IsFaithful(c: Config, states: seq<State>, steps: seq<Step>)
    requires |states| == |steps| + 1
  {
    forall l :: 0 <= l < |steps| ==> Faithful(c, states[l], steps[l])
  }

  // ---- Threshold one: every share is the master ----

  lemma ConstantIsItsIntercept(f: Poly, x: int)
    requires |f| <= 1
    ensures Eval(f, x) == Eval(f, 0)
  {
    if |f| == 1 {
      assert f == [f[0]];
      EvalConstant(f[0], x);
      EvalConstant(f[0], 0);
    }
  }

  lemma ShareOfOneIsTheKey(c: Config, ss: Sessions, s: Session, id: int)
    requires c.p >= 2 && c.t == 1 && SessionOk(c, ss, s) && Complete(c, s)
    ensures ShareOf(c, s, id) == KeyOf(c, s)
  {
    SessionPolynomial(c, ss, s);
    ConstantIsItsIntercept(Sharing(c, s), id);
  }

  lemma DealtShareIsTheMaster(c: Config, s: State, m: int, sid: nat, i: nat)
    requires c.p >= 2 && c.t == 1 && Inv(c, s) && OneMaster(c, s, m) && Done(c, s.sessions, sid)
    requires !s.sessions[sid].genesis && i < |s.sessions[sid].dealers|
    ensures 1 <= s.sessions[sid].dealers[i] <= c.n && s.sessions[sid].dealers[i] in s.sessions[sid].dealt
    ensures s.sessions[sid].dealt[s.sessions[sid].dealers[i]].value == m && 0 <= m < c.p
  {
    var sess := s.sessions[sid];
    var d := sess.dealers[i];
    assert SessionOk(c, s.sessions, sess) && d in sess.dealers;
    DealerIntercept(c, s.sessions, sess, i);
    var o := sess.dealt[d].origin;
    assert SessionOk(c, s.sessions, s.sessions[o]) && KeyOf(c, s.sessions[o]) == m;
    ShareOfOneIsTheKey(c, s.sessions, s.sessions[o], d);
  }

  lemma DealersBringTheMaster(c: Config, s: State, m: int, sid: nat)
    requires ValidConfig(c) && c.t == 1 && Inv(c, s) && OneMaster(c, s, m) && Done(c, s.sessions, sid)
    requires !s.sessions[sid].genesis
    ensures
      var sess := s.sessions[sid];
      && |sess.dealers| > 0 && UsableIds(c.p, sess.dealers) && 0 <= m < c.p
      && forall i :: 0 <= i < |sess.dealers| ==> sess.dealers[i] in sess.dealt && sess.dealt[sess.dealers[i]].value == m
  {
    var sess := s.sessions[sid];
    assert SessionOk(c, s.sessions, sess);
    forall i | 0 <= i < |sess.dealers|
      ensures 1 <= sess.dealers[i] <= c.n && 0 <= m < c.p
      ensures sess.dealers[i] in sess.dealt && sess.dealt[sess.dealers[i]].value == m
    {
      DealtShareIsTheMaster(c, s, m, sid, i);
    }
    assert 0 < |sess.dealers| && sess.dealers[0] in sess.dealt;
    MembersAreUsable(c, sess.dealers);
  }

  lemma RecoveryAtThresholdOne(c: Config, s: State, m: int, sid: nat)
    requires ValidConfig(c) && c.t == 1 && Inv(c, s) && OneMaster(c, s, m) && Done(c, s.sessions, sid)
    requires !s.sessions[sid].genesis
    ensures KeyOf(c, s.sessions[sid]) == m
  {
    DealtSharesGiveTheMaster(c, s, m, sid);
    assert SessionOk(c, s.sessions, s.sessions[sid]);
    SessionKeyInterpolatesDealtShares(c, s.sessions, s.sessions[sid]);
  }

  lemma DealtSharesGiveTheMaster(c: Config, s: State, m: int, sid: nat)
    requires ValidConfig(c) && c.t == 1 && Inv(c, s) && OneMaster(c, s, m) && Done(c, s.sessions, sid)
    requires !s.sessions[sid].genesis
    ensures
      var sess := s.sessions[sid];
      && (forall i :: 0 <= i < |sess.dealers| ==> sess.dealers[i] in sess.dealt)
      && AtZero(c.p, sess.dealers, DealtValues(sess, |sess.dealers|)) == m
  {
    var sess := s.sessions[sid];
    DealersBringTheMaster(c, s, m, sid);
    ConstantIsRecovered(c.p, m, sess.dealers, DealtValues(sess, |sess.dealers|));
  }

  lemma ConstantIsRecovered(p: int, m: int, ids: seq<int>, values: seq<int>)
    requires IsPrime(p) && UsableIds(p, ids) && 0 < |ids| == |values| && 0 <= m < p
    requires forall i :: 0 <= i < |values| ==> values[i] == m
    ensures AtZero(p, ids, values) == m
  {
    forall x ensures Eval([m], x) == m {
      EvalConstant(m, x);
    }
    SmallResidue(p, m);
    InterceptRecovered(p, [m], ids, values);
  }

  // ---- Threshold n: nobody can recover ----

  lemma NoRecoveryAtThresholdN(c: Config, s: Session)
    requires c.t == c.n && WellFormed(c, s) && !s.genesis
    ensures s.recovering == 0
  {
    if s.recovering != 0 {
      var dealers := set d | d in s.dealers;
      DistinctCount(s.dealers, dealers);
      SubsetIsNoLarger(dealers + {s.recovering}, Range(c.n));
    }
  }

  ghost predicate NobodyRecovers(s: State) {
    forall i :: i in s.nodes ==> !IsRecovering(s.nodes[i])
  }

  predicate IsRecovering(nd: Node) {
    nd.form.InRecovery? || nd.form.RecoveryChecked? || nd.form.RecoveryStoring?
  }

  lemma OnlyJoiningStartsRecovery(c: Config, s: State, nd: Node, nd': Node, step: Step)
    requires c.p >= 2 && NodeStep(c, s, nd, nd', step) && !IsRecovering(nd) && !step.JoinRecovery?
    ensures !IsRecovering(nd')
  {
  }

  lemma NobodyJoinsRecovery(c: Config, s: State, s': State, step: Step)
    requires c.p >= 2 && c.t == c.n && Inv(c, s) && Next(c, s, s', step)
    ensures !step.JoinRecovery?
  {
    if step.JoinRecovery? {
      assert SessionOk(c, s.sessions, s.sessions[step.sid]);
      NoRecoveryAtThresholdN(c, s.sessions[step.sid]);
    }
  }

  lemma StepKeepsNobodyRecovers(c: Config, s: State, s': State, step: Step, i: int)
    requires c.p >= 2 && c.t == c.n && Inv(c, s) && Next(c, s, s', step) && NobodyRecovers(s) && i in s'.nodes
    ensures !IsRecovering(s'.nodes[i])
  {
    NobodyJoinsRecovery(c, s, s', step);
    if !step.Propose? && step.i == i {
      OnlyJoiningStartsRecovery(c, s, s.nodes[i], s'.nodes[i], step);
    } else {
      assert i in s.nodes && s'.nodes[i] == s.nodes[i];
    }
  }

  // ---- Both ----

  lemma KeylessRecoveryIsSafe(c: Config, s: State, step: Step, m: int)
    requires ValidConfig(c) && Inv(c, s) && OneMaster(c, s, m) && OneGenesis(c, s, step, m)
    requires c.t == 1 || (c.t == c.n && NobodyRecovers(s))
    ensures SafeStep(c, s, step, m)
  {
    if KeylessRecovery(c, s, step) {
      assert NodeOk(c, s.sessions, step.i, s.nodes[step.i]);
      assert c.t == 1;
      RecoveryAtThresholdOne(c, s, m, s.nodes[step.i].form.sid);
    }
  }

  /** At these thresholds a step keeps the one master. */
  lemma ExtremeStepIsSafe(c: Config, s: State, s': State, step: Step, m: int)
    requires ValidConfig(c) && (c.t == 1 || c.t == c.n) && Inv(c, s) && Next(c, s, s', step)
    requires OneMaster(c, s, m) && OneGenesis(c, s, step, m) && (c.t == c.n ==> NobodyRecovers(s))
    ensures OneMaster(c, s', m) && (c.t == c.n ==> NobodyRecovers(s'))
  {
    KeylessRecoveryIsSafe(c, s, step, m);
    SafeStepKeepsMaster(c, s, s', step, m);
    if c.t == c.n {
      forall i | i in s'.nodes ensures !IsRecovering(s'.nodes[i]) {
        StepKeepsNobodyRecovers(c, s, s', step, i);
      }
    }
  }

  lemma {:induction false} ExtremeThresholdsNeverFork(c: Config, states: seq<State>, steps: seq<Step>, m: int, k: nat)
    requires ValidConfig(c) && (c.t == 1 || c.t == c.n)
    requires IsRun(c, states, steps) && k < |states| && GenesisIs(c, states, steps, m)
    ensures OneMaster(c, states[k], m) && (c.t == c.n ==> NobodyRecovers(states[k]))
  {
    if k > 0 {
      ExtremeThresholdsNeverFork(c, states, steps, m, k - 1);
      RunKeepsInv(c, states, steps, k - 1);
      assert StepAt(c, states, steps, k - 1) && OneGenesis(c, states[k - 1], steps[k - 1], m);
      ExtremeStepIsSafe(c, states[k - 1], states[k], steps[k - 1], m);
    }
  }
}
