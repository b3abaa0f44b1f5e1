/**
 The life of the cluster and the collector together: in whatever states a run has left the cluster while
 its nodes answer, enough nodes that hold shares of one session serve every derivation, with the key that
 the coordinator's group key stands for.
 */
module Derivation {
  import opened Collections
  import opened PrimeField
  import opened Polynomial
  import opened Threshold
  import opened Messages
  import opened Lifecycle
  import opened Master
  import Collector

  /** Node `i` holds a share of session `o`. */
  predicate HoldsOf(s: State, i: int, o: nat) {
    i in s.nodes && s.nodes[i].shard.Some? && s.nodes[i].shard.value.origin == o
  }

  /** In state `s` the reply's sender computes it from its held share of session `o`. */
  predicate ComputedIn(env: Collector.Env, s: State, o: nat, msg: Bytes, rep: Collector.Reply)
    requires env.p >= 2
  {
    && rep.Got? && HoldsOf(s, rep.idx, o) && rep.epoch == s.nodes[rep.idx].shard.value.epoch
    && env.parsePartial(rep.bytes)
       == Some(DprfPartial(env.p, Share(rep.idx, s.nodes[rep.idx].shard.value.value), env.hash(msg)))
  }

  /** A reply, if it is not an error, was computed at some moment of the run. */
  ghost predicate IsServed(env: Collector.Env, states: seq<State>, o: nat, msg: Bytes, rep: Collector.Reply)
    requires env.p >= 2
  {
    rep.Got? ==> exists l :: 0 <= l < |states| && ComputedIn(env, states[l], o, msg, rep)
  }

  /** A share of `o` lies on the session's polynomial, and its holder is a member that knows the intercept. */
  lemma HolderSpeaks(c: Config, env: Collector.Env, s: State, i: nat, o: nat, msg: Bytes)
    requires ValidConfig(c) && env.p == c.p && Inv(c, s) && HoldsOf(s, i, o)
    ensures Done(c, s.sessions, o) && s.nodes[i].shard.value.epoch == s.sessions[o].epoch
    ensures |Sharing(c, s.sessions[o])| <= c.t && s.nodes[i].key == Some(Eval(Sharing(c, s.sessions[o]), 0) % c.p)
    ensures
      var q := DprfPartial(env.p, Share(i, s.nodes[i].shard.value.value), env.hash(msg));
      Collector.SpeaksFor(env, Sharing(c, s.sessions[o]), msg, i, q)
  {
    assert NodeOk(c, s.sessions, i, s.nodes[i]);
    MemberIsInUpTo(c, i);
    SessionPolynomial(c, s.sessions, s.sessions[o]);
    var f := Sharing(c, s.sessions[o]);
    ReducedIsSame(c.p, Eval(f, i));
    PartialOfShareIsHonest(c.p, f, env.hash(msg), Share(i, s.nodes[i].shard.value.value));
  }

  /** A finished session is the same in all later states. */
  lemma {:induction false} SessionStays(c: Config, states: seq<State>, steps: seq<Step>, o: nat, l: nat, m: nat)
    requires c.p >= 2 && IsRun(c, states, steps) && l <= m < |states| && Done(c, states[l].sessions, o)
    ensures Done(c, states[m].sessions, o) && states[m].sessions[o] == states[l].sessions[o]
    decreases m
  {
    if l < m {
      SessionStays(c, states, steps, o, l, m - 1);
      RunKeepsInv(c, states, steps, m - 1);
      assert StepAt(c, states, steps, m - 1);
      SessionsGrow(c, states[m - 1], states[m].sessions, steps[m - 1]);
    }
  }

  /** A reply that is not an error is of epoch `e` and speaks for its sender's share of `f`. */
  ghost predicate Speaks(env: Collector.Env, f: Poly, e: nat, msg: Bytes, rep: Collector.Reply)
    requires env.p > 0
  {
    rep.Got? ==>
      && rep.epoch == e && env.parsePartial(rep.bytes).Some?
      && Collector.SpeaksFor(env, f, msg, rep.idx, env.parsePartial(rep.bytes).value)
  }

  /** Whenever it was computed, a reply speaks for the session as the coordinator knows it. */
  lemma ServedSpeaks(c: Config, env: Collector.Env, states: seq<State>, steps: seq<Step>, at: nat, i: nat, o: nat,
                     msg: Bytes, rep: Collector.Reply)
    requires ValidConfig(c) && env.p == c.p && IsRun(c, states, steps) && at < |states| && HoldsOf(states[at], i, o)
    requires IsServed(env, states, o, msg, rep)
    ensures Done(c, states[at].sessions, o)
    ensures Speaks(env, Sharing(c, states[at].sessions[o]), states[at].sessions[o].epoch, msg, rep)
  {
    RunKeepsInv(c, states, steps, at);
    HolderSpeaks(c, env, states[at], i, o, msg);
    if rep.Got? {
      var l :| 0 <= l < |states| && ComputedIn(env, states[l], o, msg, rep);
      RunKeepsInv(c, states, steps, l);
      HolderSpeaks(c, env, states[l], rep.idx, o, msg);
      if l <= at {
        SessionStays(c, states, steps, o, l, at);
      } else {
        SessionStays(c, states, steps, o, at, l);
      }
    }
  }

  /** Whoever answers has a first answer. */
  lemma {:induction false} FirstAnswer(own: Collector.ShardState, replies: seq<Collector.Reply>, e: nat, x: nat, j: nat)
    returns (i: nat)
    requires j < |replies| && Collector.Answers(replies[j], e, x) && x != own.index
    ensures i < |replies| && Collector.Answers(replies[i], e, x) && Collector.First(own, replies, i)
    decreases j
  {
    if k :| 0 <= k < j && Collector.Answers(replies[k], e, x) {
      i := FirstAnswer(own, replies, e, x, k);
    } else {
      i := j;
    }
  }

  predicate Answering(replies: seq<Collector.Reply>, x: nat) {
    exists j :: 0 <= j < |replies| && replies[j].Got? && replies[j].idx == x
  }

  /** Everyone in `ids` answers, the coordinator aside, and all answers speak: they all serve the epoch. */
  lemma EnoughServe(env: Collector.Env, f: Poly, msg: Bytes, own: Collector.ShardState,
                    replies: seq<Collector.Reply>, ids: set<nat>)
    requires env.p > 0 && forall j :: 0 <= j < |replies| ==> Speaks(env, f, own.epoch, msg, replies[j])
    requires forall x :: x in ids && x != own.index ==> Answering(replies, x)
    ensures |Collector.Servers(env, own, replies, |replies|, own.epoch)| >= |ids|
  {
    var servers := Collector.Servers(env, own, replies, |replies|, own.epoch);
    forall x | x in ids ensures x in servers {
      if x != own.index {
        var j :| 0 <= j < |replies| && replies[j].Got? && replies[j].idx == x;
        assert Speaks(env, f, own.epoch, msg, replies[j]);
        var i := FirstAnswer(own, replies, own.epoch, x, j);
        assert Speaks(env, f, own.epoch, msg, replies[i]) && Collector.Counts(env, own, replies, i, own.epoch);
      }
    }
    SubsetIsNoLarger(ids, servers);
  }

  /** Whatever bucket is ready, it is of the session's epoch and everyone in it speaks for its share. */
  lemma SpeakingBucketIssues(env: Collector.Env, f: Poly, t: nat, msg: Bytes, own: Collector.ShardState, q: Partial,
                             replies: seq<Collector.Reply>, k: nat, e: nat, idxs: seq<nat>, bucket: seq<Partial>)
    requires IsPrime(env.p) && |f| <= t && t >= 2 && Collector.SpeaksFor(env, f, msg, own.index, q)
    requires forall j :: 0 <= j < |replies| ==> Speaks(env, f, own.epoch, msg, replies[j])
    requires k <= |replies| && |bucket| == Collector.Need(t)
    requires Collector.Gathered(env, own, q, replies, k, e, idxs, bucket)
    ensures Collector.Conclude(env, Some(Eval(f, 0) % env.p), msg, own, e, idxs, bucket).Issued?
  {
    forall j | 0 <= j < k && Collector.Counts(env, own, replies, j, e)
      ensures Collector.SpeaksFor(env, f, msg, replies[j].idx, env.parsePartial(replies[j].bytes).value)
    {
      assert Speaks(env, f, own.epoch, msg, replies[j]);
    }
    Collector.HonestEpochIssues(env, f, t, msg, own, q, replies, k, e, idxs, bucket);
  }

  /** The coordinator's own share and key, and what its peers answer, all belong to the sharing `f`. */
  ghost predicate AllSpeak(env: Collector.Env, f: Poly, msg: Bytes, own: Collector.ShardState, groupKey: Option<int>,
                           replies: seq<Collector.Reply>)
    requires env.p >= 2
  {
    && groupKey == Some(Eval(f, 0) % env.p)
    && (var q := Collector.OwnPartial(env, own, msg); q.Some? && Collector.SpeaksFor(env, f, msg, own.index, q.value))
    && forall j :: 0 <= j < |replies| ==> Speaks(env, f, own.epoch, msg, replies[j])
  }

  lemma SomeEpochIsReady(env: Collector.Env, f: Poly, t: nat, msg: Bytes, own: Collector.ShardState,
                         groupKey: Option<int>, replies: seq<Collector.Reply>, ids: set<nat>)
    requires env.p >= 2 && t >= 1 && AllSpeak(env, f, msg, own, groupKey, replies)
    requires |ids| >= t && forall x :: x in ids && x != own.index ==> Answering(replies, x)
    ensures !(forall e: nat :: |Collector.Servers(env, own, replies, |replies|, e)| < Collector.Need(t))
    ensures Collector.OwnPartial(env, own, msg).Some?
  {
    EnoughServe(env, f, msg, own, replies, ids);
    assert |Collector.Servers(env, own, replies, |replies|, own.epoch)| >= Collector.Need(t);
  }

  lemma ReadyEpochIssues(env: Collector.Env, f: Poly, t: nat, msg: Bytes, own: Collector.ShardState,
                         groupKey: Option<int>, replies: seq<Collector.Reply>,
                         k: nat, e: nat, idxs: seq<nat>, bucket: seq<Partial>)
    requires IsPrime(env.p) && |f| <= t && t >= 2 && AllSpeak(env, f, msg, own, groupKey, replies)
    requires k <= |replies| && |bucket| == Collector.Need(t) && Collector.OwnPartial(env, own, msg).Some?
    requires Collector.Gathered(env, own, Collector.OwnPartial(env, own, msg).value, replies, k, e, idxs, bucket)
    ensures Collector.Conclude(env, groupKey, msg, own, e, idxs, bucket).Issued?
  {
    SpeakingBucketIssues(env, f, t, msg, own, Collector.OwnPartial(env, own, msg).value, replies, k, e, idxs, bucket);
  }

  /** A derivation in which all who take part speak for one sharing of `t` coefficients. */
  method Derive(env: Collector.Env, ghost f: Poly, t: nat, own: Collector.ShardState, groupKey: Option<int>,
                appId: Bytes, material: Bytes, replies: seq<Collector.Reply>, ghost ids: set<nat>)
    returns (r: Collector.Outcome)
    requires IsPrime(env.p) && |f| <= t && t >= 1
    requires AllSpeak(env, f, DprfMessage(appId, material), own, groupKey, replies)
    requires |ids| >= t && forall x :: x in ids && x != own.index ==> Answering(replies, x)
    ensures groupKey.Some? && (r.Issued? <==> t >= 2)
    ensures r.Issued? ==> r.key == Collector.TrueKey(env, groupKey.value, DprfMessage(appId, material))
  {
    ghost var msg := DprfMessage(appId, material);
    SomeEpochIsReady(env, f, t, msg, own, groupKey, replies, ids);
    ghost var k, e, idxs, bucket;
    r, k, e, idxs, bucket := Collector.CollectAndDprf(env, Some(own), groupKey, t, appId, material, replies);
    if t >= 2 {
      ReadyEpochIssues(env, f, t, msg, own, groupKey, replies, k, e, idxs, bucket);
      Collector.ConcludeEndsIn(env, groupKey, msg, own, e, idxs, bucket);
    }
  }

  /** At moment `at` the coordinator holds a share of `o`; its peers answer from theirs, each at its own moment. */
  ghost predicate CanServe(env: Collector.Env, states: seq<State>, at: nat, o: nat, msg: Bytes,
                           own: Collector.ShardState, groupKey: Option<int>, replies: seq<Collector.Reply>)
    requires env.p >= 2 && at < |states|
  {
    var s := states[at];
    && HoldsOf(s, own.index, o) && groupKey == s.nodes[own.index].key
    && own.epoch == s.nodes[own.index].shard.value.epoch
    && env.parseShare(own.bytes) == Some(Share(own.index, s.nodes[own.index].shard.value.value))
    && forall j :: 0 <= j < |replies| ==> IsServed(env, states, o, msg, replies[j])
  }

  lemma ServersSpeak(c: Config, states: seq<State>, steps: seq<Step>, at: nat, env: Collector.Env, o: nat, msg: Bytes,
                     own: Collector.ShardState, groupKey: Option<int>, replies: seq<Collector.Reply>) returns (f: Poly)
    requires ValidConfig(c) && env.p == c.p && IsRun(c, states, steps) && at < |states|
    requires CanServe(env, states, at, o, msg, own, groupKey, replies)
    ensures |f| <= c.t && AllSpeak(env, f, msg, own, groupKey, replies)
  {
    RunKeepsInv(c, states, steps, at);
    HolderSpeaks(c, env, states[at], own.index, o, msg);
    f := Sharing(c, states[at].sessions[o]);
    forall j | 0 <= j < |replies| ensures Speaks(env, f, own.epoch, msg, replies[j]) {
      assert IsServed(env, states, o, msg, replies[j]);
      ServedSpeaks(c, env, states, steps, at, own.index, o, msg, replies[j]);
    }
  }

  /**
   Over every run: if the coordinator holds a share of some session, everyone who answers does so from a
   share of that session it holds at the moment of answering, and at least `t` of them do answer, the
   coordinator included, then the derivation succeeds with exactly the key that the coordinator's group
   key stands for, if and only if the threshold is at least two.  Peers may fail, answer twice, in any
   order, and go on to other shares before or after.
   */
  method DeriveFromHeldShares(ghost c: Config, ghost states: seq<State>, ghost steps: seq<Step>, ghost at: nat,
                              env: Collector.Env, t: nat, own: Collector.ShardState, groupKey: Option<int>,
                              ghost o: nat, appId: Bytes, material: Bytes, replies: seq<Collector.Reply>,
                              ghost ids: set<nat>)
    returns (r: Collector.Outcome)
    requires ValidConfig(c) && t == c.t && env.p == c.p && IsRun(c, states, steps) && at < |states|
    requires CanServe(env, states, at, o, DprfMessage(appId, material), own, groupKey, replies)
    requires |ids| >= t && forall x :: x in ids && x != own.index ==> Answering(replies, x)
    ensures groupKey.Some? && (r.Issued? <==> t >= 2)
    ensures r.Issued? ==> r.key == Collector.TrueKey(env, groupKey.value, DprfMessage(appId, material))
  {
    ghost var f := ServersSpeak(c, states, steps, at, env, o, DprfMessage(appId, material), own, groupKey, replies);
    r := Derive(env, f, t, own, groupKey, appId, material, replies, ids);
  }
}
