/**
 Deriving an application key: the coordinator gathers partials in whatever order they arrive,
 buckets them by epoch, stops when one epoch has enough, combines, verifies against the group key
 and only then derives.
 */
module Collector {
  import opened Collections
  import opened PrimeField
  import opened Polynomial
  import opened Lagrange
  import opened Threshold
  import opened Messages

  /** The library calls: hash to the curve, key derivation, and the two parsers. */
  datatype Env = Env(
    p: int,
    hash: Bytes -> int,
    kdf: int -> Bytes,
    parsePartial: Bytes -> Option<Partial>,
    parseShare: Bytes -> Option<Share>)

  datatype ShardState = ShardState(index: nat, bytes: Bytes, epoch: nat)

  /** A peer's answer, after its signature was checked and its payload decrypted. */
  datatype Reply = Got(idx: nat, bytes: Bytes, epoch: nat) | PeerError

  datatype Trace = Trace(coordinator: nat, epoch: nat, servers: seq<nat>)

  datatype Error = NotInitialized | BadShare | NotEnough | CombineError | NoGroupKey | VerifyError

  datatype Outcome = Issued(key: Bytes, trace: Trace) | Refused(error: Error)

  // ---- What counts ----

  /** Reply `j` is the first from its (epoch, index) pair, which is not our own. */
  predicate First(own: ShardState, replies: seq<Reply>, j: nat)
    requires j < |replies|
  {
    && replies[j].Got?
    && !(replies[j].epoch == own.epoch && replies[j].idx == own.index)
    && forall i :: 0 <= i < j ==> !Answers(replies[i], replies[j].epoch, replies[j].idx)
  }

  predicate Answers(rep: Reply, e: nat, x: nat) {
    rep.Got? && rep.epoch == e && rep.idx == x
  }

  /** Index `x` has been heard for epoch `e`, parsed or not; our own index counts as heard. */
  ghost predicate Heard(own: ShardState, replies: seq<Reply>, k: nat, e: nat, x: nat)
    requires k <= |replies|
  {
    (e == own.epoch && x == own.index) || exists j :: 0 <= j < k && Answers(replies[j], e, x)
  }

  /** Reply `j` counts for epoch `e`: it is first for its pair and its payload parses. */
  predicate Counts(env: Env, own: ShardState, replies: seq<Reply>, j: nat, e: nat)
    requires j < |replies|
  {
    First(own, replies, j) && replies[j].epoch == e && env.parsePartial(replies[j].bytes).Some?
  }

  /** The indices that serve epoch `e` after `k` replies, our own included. */
  ghost function Servers(env: Env, own: ShardState, replies: seq<Reply>, k: nat, e: nat): set<nat>
    requires k <= |replies|
  {
    (if e == own.epoch then {own.index} else {}) +
    (set j | 0 <= j < k && Counts(env, own, replies, j, e) :: replies[j].idx)
  }

  function Need(t: nat): nat { if t == 0 then 1 else t }

  /** `bucket[x]` is our own partial, or what a counting reply of index `idxs[x]` carried. */
  ghost predicate FromServer(
    env: Env, own: ShardState, ownPartial: Partial, replies: seq<Reply>, k: nat, e: nat, idx: nat, q: Partial)
    requires k <= |replies|
  {
    || (e == own.epoch && idx == own.index && q == ownPartial)
    || (exists j :: 0 <= j < k && Counts(env, own, replies, j, e) && replies[j].idx == idx &&
                    env.parsePartial(replies[j].bytes) == Some(q))
  }

  /** The bucket of epoch `e` after `k` replies: one partial for each serving index, none repeated. */
  ghost predicate Gathered(
    env: Env, own: ShardState, ownPartial: Partial, replies: seq<Reply>, k: nat, e: nat,
    idxs: seq<nat>, bucket: seq<Partial>)
    requires k <= |replies|
  {
    && |idxs| == |bucket|
    && (forall a, b :: 0 <= a < b < |idxs| ==> idxs[a] != idxs[b])
    && (forall x :: x in idxs <==> x in Servers(env, own, replies, k, e))
    && (forall a :: 0 <= a < |idxs| ==> FromServer(env, own, ownPartial, replies, k, e, idxs[a], bucket[a]))
  }

  type Buckets = map<nat, seq<Partial>>
  type Seen = map<nat, set<nat>>
  type Contributors = map<nat, seq<nat>>

  function At<T>(m: map<nat, seq<T>>, e: nat): seq<T> { if e in m then m[e] else [] }

  function SeenAt(m: Seen, e: nat): set<nat> { if e in m then m[e] else {} }

  /** The three maps are in step with the first `k` replies. */
  ghost predicate InStep(
    env: Env, own: ShardState, ownPartial: Partial, replies: seq<Reply>, k: nat,
    buckets: Buckets, seen: Seen, contributors: Contributors)
    requires k <= |replies|
  {
    && (forall e: nat :: Gathered(env, own, ownPartial, replies, k, e, At(contributors, e), At(buckets, e)))
    && (forall e: nat, x: nat :: x in SeenAt(seen, e) <==> Heard(own, replies, k, e, x))
    && buckets.Keys == contributors.Keys
  }

  // ---- One reply ----

  lemma SeenMeansNotFirst(
    env: Env, own: ShardState, q: Partial, replies: seq<Reply>, k: nat, buckets: Buckets, seen: Seen, cs: Contributors)
    requires k < |replies| && InStep(env, own, q, replies, k, buckets, seen, cs) && replies[k].Got?
    ensures replies[k].idx in SeenAt(seen, replies[k].epoch) <==> !First(own, replies, k)
  {
    var rep := replies[k];
    assert rep.idx in SeenAt(seen, rep.epoch) <==> Heard(own, replies, k, rep.epoch, rep.idx);
  }

  /** A reply that does not count leaves every bucket as it is. */
  lemma SkipKeepsGathered(
    env: Env, own: ShardState, q: Partial, replies: seq<Reply>, k: nat, e: nat, idxs: seq<nat>, bucket: seq<Partial>)
    requires k < |replies| && Gathered(env, own, q, replies, k, e, idxs, bucket)
    requires !Counts(env, own, replies, k, e)
    ensures Gathered(env, own, q, replies, k + 1, e, idxs, bucket)
  {
    assert Servers(env, own, replies, k + 1, e) == Servers(env, own, replies, k, e);
    forall a | 0 <= a < |idxs| ensures FromServer(env, own, q, replies, k + 1, e, idxs[a], bucket[a]) {
      assert FromServer(env, own, q, replies, k, e, idxs[a], bucket[a]);
    }
  }

  /** A reply that counts adds its index and its partial to its epoch. */
  lemma CountExtendsGathered(
    env: Env, own: ShardState, q: Partial, replies: seq<Reply>, k: nat, e: nat, idxs: seq<nat>, bucket: seq<Partial>)
    requires k < |replies| && Gathered(env, own, q, replies, k, e, idxs, bucket)
    requires Counts(env, own, replies, k, e)
    ensures Gathered(env, own, q, replies, k + 1, e,
                     idxs + [replies[k].idx], bucket + [env.parsePartial(replies[k].bytes).value])
  {
    var idx, p := replies[k].idx, env.parsePartial(replies[k].bytes).value;
    var idxs', bucket' := idxs + [idx], bucket + [p];
    assert Servers(env, own, replies, k + 1, e) == Servers(env, own, replies, k, e) + {idx};
    assert idx !in Servers(env, own, replies, k, e);
    forall a | 0 <= a < |idxs'| ensures FromServer(env, own, q, replies, k + 1, e, idxs'[a], bucket'[a]) {
      if a < |idxs| {
        assert FromServer(env, own, q, replies, k, e, idxs[a], bucket[a]);
      } else {
        assert Counts(env, own, replies, k, e) && replies[k].idx == idx;
      }
    }
    forall x ensures x in idxs' <==> x in Servers(env, own, replies, k + 1, e) {
      assert x in idxs' <==> x in idxs || x == idx;
    }
  }

  lemma HeardGrows(own: ShardState, replies: seq<Reply>, k: nat, e: nat, x: nat)
    requires k < |replies|
    ensures Heard(own, replies, k + 1, e, x) <==> Heard(own, replies, k, e, x) || Answers(replies[k], e, x)
  {
    if Answers(replies[k], e, x) {
      assert Heard(own, replies, k + 1, e, x);
    }
  }

  // The three maps after one more reply.

  function SeenAfter(rep: Reply, seen: Seen): Seen {
    if rep.Got? then seen[rep.epoch := SeenAt(seen, rep.epoch) + {rep.idx}] else seen
  }

  predicate Accepted(env: Env, rep: Reply, seen: Seen) {
    rep.Got? && rep.idx !in SeenAt(seen, rep.epoch) && env.parsePartial(rep.bytes).Some?
  }

  function BucketsAfter(env: Env, rep: Reply, seen: Seen, buckets: Buckets): Buckets {
    if Accepted(env, rep, seen)
    then buckets[rep.epoch := At(buckets, rep.epoch) + [env.parsePartial(rep.bytes).value]]
    else buckets
  }

  function ContributorsAfter(env: Env, rep: Reply, seen: Seen, cs: Contributors): Contributors {
    if Accepted(env, rep, seen) then cs[rep.epoch := At(cs, rep.epoch) + [rep.idx]] else cs
  }

  lemma GatheredAfter(
    env: Env, own: ShardState, q: Partial, replies: seq<Reply>, k: nat,
    buckets: Buckets, seen: Seen, cs: Contributors, e: nat)
    requires k < |replies| && InStep(env, own, q, replies, k, buckets, seen, cs)
    ensures Gathered(env, own, q, replies, k + 1, e,
                     At(ContributorsAfter(env, replies[k], seen, cs), e),
                     At(BucketsAfter(env, replies[k], seen, buckets), e))
  {
    if replies[k].Got? {
      SeenMeansNotFirst(env, own, q, replies, k, buckets, seen, cs);
    }
    assert Gathered(env, own, q, replies, k, e, At(cs, e), At(buckets, e));
    if Counts(env, own, replies, k, e) {
      CountExtendsGathered(env, own, q, replies, k, e, At(cs, e), At(buckets, e));
    } else {
      SkipKeepsGathered(env, own, q, replies, k, e, At(cs, e), At(buckets, e));
    }
  }

  /** Recording a reply keeps the three maps in step. */
  lemma ReplyKeepsInStep(
    env: Env, own: ShardState, q: Partial, replies: seq<Reply>, k: nat, buckets: Buckets, seen: Seen, cs: Contributors)
    requires k < |replies| && InStep(env, own, q, replies, k, buckets, seen, cs)
    ensures InStep(env, own, q, replies, k + 1, BucketsAfter(env, replies[k], seen, buckets),
                   SeenAfter(replies[k], seen), ContributorsAfter(env, replies[k], seen, cs))
  {
    var buckets', seen', cs' :=
      BucketsAfter(env, replies[k], seen, buckets),
      SeenAfter(replies[k], seen),
      ContributorsAfter(env, replies[k], seen, cs);
    forall e: nat ensures Gathered(env, own, q, replies, k + 1, e, At(cs', e), At(buckets', e)) {
      GatheredAfter(env, own, q, replies, k, buckets, seen, cs, e);
    }
    forall e: nat, x: nat ensures x in SeenAt(seen', e) <==> Heard(own, replies, k + 1, e, x) {
      HeardGrows(own, replies, k, e, x);
      assert x in SeenAt(seen, e) <==> Heard(own, replies, k, e, x);
    }
    assert buckets'.Keys == cs'.Keys;
  }

  lemma StartIsInStep(env: Env, own: ShardState, q: Partial, replies: seq<Reply>)
    ensures InStep(env, own, q, replies, 0,
                   map[own.epoch := [q]], map[own.epoch := {own.index}], map[own.epoch := [own.index]])
  {
    var buckets, seen, cs := map[own.epoch := [q]], map[own.epoch := {own.index}], map[own.epoch := [own.index]];
    forall e: nat ensures Gathered(env, own, q, replies, 0, e, At(cs, e), At(buckets, e)) {
      assert FromServer(env, own, q, replies, 0, own.epoch, own.index, q);
    }
  }

  // ---- Counting ----

  /** A bucket is as large as the set of indices that serve its epoch. */
  lemma BucketSize(
    env: Env, own: ShardState, q: Partial, replies: seq<Reply>, k: nat, e: nat, idxs: seq<nat>, bucket: seq<Partial>)
    requires k <= |replies| && Gathered(env, own, q, replies, k, e, idxs, bucket)
    ensures |bucket| == |Servers(env, own, replies, k, e)|
  {
    DistinctCount(idxs, Servers(env, own, replies, k, e));
  }

  // ---- Sorting the trace ----

  function Insert(x: nat, xs: seq<nat>): (ys: seq<nat>)
    ensures multiset(ys) == multiset(xs) + multiset{x} && |ys| == |xs| + 1
  {
    if xs == [] then [x]
    else if x <= xs[0] then [x] + xs
    else
      assert xs == [xs[0]] + xs[1..];
      [xs[0]] + Insert(x, xs[1..])
  }

  function Sort(xs: seq<nat>): (ys: seq<nat>)
    ensures multiset(ys) == multiset(xs) && |ys| == |xs|
  {
    if xs == [] then [] else
      assert xs == [xs[0]] + xs[1..];
      Insert(xs[0], Sort(xs[1..]))
  }

  predicate Ascending(xs: seq<nat>) {
    forall i, j :: 0 <= i < j < |xs| ==> xs[i] <= xs[j]
  }

  lemma {:induction false} InsertSorts(x: nat, xs: seq<nat>)
    requires Ascending(xs)
    ensures Ascending(Insert(x, xs))
  {
    if xs != [] && xs[0] < x {
      InsertSorts(x, xs[1..]);
      var rest := Insert(x, xs[1..]);
      forall j | 0 <= j < |rest| ensures xs[0] <= rest[j] {
        assert rest[j] in multiset(rest);
        assert rest[j] == x || rest[j] in multiset(xs[1..]);
      }
    }
  }

  lemma {:induction false} SortSorts(xs: seq<nat>)
    ensures Ascending(Sort(xs))
  {
    if xs != [] {
      SortSorts(xs[1..]);
      InsertSorts(xs[0], Sort(xs[1..]));
    }
  }

  // ---- The derivation ----

  /** Combine, look up the group key, verify, derive: the end of the collection. */
  function Conclude(env: Env, groupKey: Option<int>, msg: Bytes, own: ShardState, e: nat,
                    idxs: seq<nat>, bucket: seq<Partial>): Outcome
    requires env.p >= 2
  {
    match DprfSigma(env.p, bucket)
    case CombineFailed => Refused(CombineError)
    case Sigma(point) =>
      if groupKey.None? then Refused(NoGroupKey)
      else if !DprfVerify(env.p, point, groupKey.value, env.hash(msg)) then Refused(VerifyError)
      else Issued(env.kdf(point), Trace(own.index, e, Sort(idxs)))
  }

  /** The partials can be combined: at least two, with ids that are distinct and not zero as scalars. */
  predicate CanCombine(p: int, bucket: seq<Partial>)
    requires p > 0
  {
    && |bucket| >= 2
    && (forall i, j :: 0 <= i < j < |bucket| ==> bucket[i].id % p != bucket[j].id % p)
    && (forall i :: 0 <= i < |bucket| ==> bucket[i].id % p != 0)
  }

  /** The combined signature is the group key times the hashed message. */
  predicate Matches(env: Env, groupKey: int, msg: Bytes, bucket: seq<Partial>)
    requires env.p >= 2
  {
    AtZero(env.p, Ids(bucket), Points(bucket)) == (groupKey * env.hash(msg)) % env.p
  }

  /** The outcome of a ready bucket: each of the four exactly on its own condition. */
  ghost predicate EndsIn(env: Env, groupKey: Option<int>, msg: Bytes, own: ShardState, e: nat,
                         idxs: seq<nat>, bucket: seq<Partial>, r: Outcome)
    requires env.p >= 2
  {
    var combined := CanCombine(env.p, bucket);
    && (r == Refused(CombineError) <==> !combined)
    && (r == Refused(NoGroupKey) <==> combined && groupKey.None?)
    && (r == Refused(VerifyError) <==> combined && groupKey.Some? && !Matches(env, groupKey.value, msg, bucket))
    && (r.Issued? <==> combined && groupKey.Some? && Matches(env, groupKey.value, msg, bucket))
    && (r.Issued? ==>
          && r.key == env.kdf((groupKey.value * env.hash(msg)) % env.p)
          && r.trace.coordinator == own.index && r.trace.epoch == e
          && Ascending(r.trace.servers) && multiset(r.trace.servers) == multiset(idxs))
  }

  lemma ConcludeEndsIn(env: Env, groupKey: Option<int>, msg: Bytes, own: ShardState, e: nat,
                       idxs: seq<nat>, bucket: seq<Partial>)
    requires env.p >= 2
    ensures EndsIn(env, groupKey, msg, own, e, idxs, bucket, Conclude(env, groupKey, msg, own, e, idxs, bucket))
  {
    CombinableIs(env.p, bucket);
    SortSorts(idxs);
    if CanCombine(env.p, bucket) && groupKey.Some? {
      MatchIsVerification(env.p, DprfSigma(env.p, bucket).point, groupKey.value * env.hash(msg));
    }
  }

  lemma CombinableIs(p: int, bucket: seq<Partial>)
    requires p > 0
    ensures Combinable(p, bucket) <==> CanCombine(p, bucket)
  {
    var ids := Ids(bucket);
    assert forall i :: 0 <= i < |bucket| ==> ids[i] == bucket[i].id;
    assert 0 % p == 0;
    if Combinable(p, bucket) {
      forall i, j | 0 <= i < j < |bucket| ensures bucket[i].id % p != bucket[j].id % p {
        assert !Same(p, ids[i], ids[j]);
      }
      forall i | 0 <= i < |bucket| ensures bucket[i].id % p != 0 {
        assert !Same(p, ids[i], 0);
      }
    }
  }

  lemma MatchIsVerification(p: int, sigma: int, product: int)
    requires p >= 2 && 0 <= sigma < p
    ensures Same(p, sigma, product) <==> sigma == product % p
  {
    SmallResidue(p, sigma);
    ReducedIsSame(p, product);
  }

  /**
   A forged partial never passes: if all the others are honest for a sharing of the group key, whatever
   the derivation ends in is the verification error.
   */
  lemma ForgedPartialIsRefused(env: Env, f: Poly, msg: Bytes, own: ShardState, e: nat, idxs: seq<nat>,
                               bucket: seq<Partial>, i: nat, r: Outcome)
    requires IsPrime(env.p) && |f| <= |bucket| && i < |bucket| && CanCombine(env.p, bucket)
    requires forall j :: 0 <= j < |bucket| && j != i ==> Honest(env.p, f, env.hash(msg), bucket[j])
    requires !Honest(env.p, f, env.hash(msg), bucket[i])
    requires EndsIn(env, Some(Eval(f, 0) % env.p), msg, own, e, idxs, bucket, r)
    ensures r == Refused(VerifyError)
  {
    var key := Eval(f, 0) % env.p;
    CombinableIs(env.p, bucket);
    OneBadPartialIsDetected(env.p, f, env.hash(msg), bucket, i);
    MatchIsVerification(env.p, DprfSigma(env.p, bucket).point, key * env.hash(msg));
  }

  /** The key every coordinator must hand out for `msg`. */
  function TrueKey(env: Env, groupKey: int, msg: Bytes): Bytes
    requires env.p >= 2
  {
    env.kdf((groupKey * env.hash(msg)) % env.p)
  }

  /** Whatever was gathered, an issued key is the true key. */
  lemma IssuedKeyIsTrue(env: Env, groupKey: Option<int>, msg: Bytes, own: ShardState, e: nat,
                        idxs: seq<nat>, bucket: seq<Partial>)
    requires env.p >= 2 && Conclude(env, groupKey, msg, own, e, idxs, bucket).Issued?
    ensures groupKey.Some?
    ensures Conclude(env, groupKey, msg, own, e, idxs, bucket).key == TrueKey(env, groupKey.value, msg)
  {
    CanonicalResidue(env.p, DprfSigma(env.p, bucket).point, groupKey.value * env.hash(msg));
  }

  /** If every gathered partial is honest for one sharing of the group key, the key is issued. */
  lemma HonestBucketIssues(env: Env, f: Poly, t: nat, msg: Bytes, own: ShardState, e: nat,
                           idxs: seq<nat>, bucket: seq<Partial>)
    requires IsPrime(env.p) && |f| <= t <= |bucket| && |bucket| >= 2 && UsableIds(env.p, Ids(bucket))
    requires forall i :: 0 <= i < |bucket| ==> Honest(env.p, f, env.hash(msg), bucket[i])
    ensures Conclude(env, Some(Eval(f, 0) % env.p), msg, own, e, idxs, bucket).Issued?
  {
    HonestSetCombines(env.p, f, env.hash(msg), bucket);
  }

  /** The server at `idx` answers for its own share of `f`. */
  ghost predicate SpeaksFor(env: Env, f: Poly, msg: Bytes, idx: nat, q: Partial)
    requires env.p > 0
  {
    q.id == idx && 1 <= idx < env.p && Honest(env.p, f, env.hash(msg), q)
  }

  /** Completeness: if everyone who counts for the ready epoch answers for its share, the key is issued. */
  lemma HonestEpochIssues(env: Env, f: Poly, t: nat, msg: Bytes, own: ShardState, q: Partial, replies: seq<Reply>,
                          k: nat, e: nat, idxs: seq<nat>, bucket: seq<Partial>)
    requires IsPrime(env.p) && |f| <= t && t >= 2 && k <= |replies|
    requires Gathered(env, own, q, replies, k, e, idxs, bucket) && |bucket| == Need(t)
    requires e == own.epoch ==> SpeaksFor(env, f, msg, own.index, q)
    requires forall j :: 0 <= j < k && Counts(env, own, replies, j, e) ==>
      SpeaksFor(env, f, msg, replies[j].idx, env.parsePartial(replies[j].bytes).value)
    ensures Conclude(env, Some(Eval(f, 0) % env.p), msg, own, e, idxs, bucket).Issued?
  {
    var p, ids := env.p, Ids(bucket);
    forall a | 0 <= a < |bucket| ensures SpeaksFor(env, f, msg, idxs[a], bucket[a]) {
      assert FromServer(env, own, q, replies, k, e, idxs[a], bucket[a]);
    }
    forall a | 0 <= a < |ids| ensures ids[a] % p == ids[a] == idxs[a] && 1 <= idxs[a] < p {
      assert SpeaksFor(env, f, msg, idxs[a], bucket[a]);
      SmallResidue(p, idxs[a]);
    }
    SmallResidue(p, 0);
    HonestBucketIssues(env, f, t, msg, own, e, idxs, bucket);
  }

  /** Readiness: no bucket is full while unready, and the ready bucket has exactly `Need(t)` partials. */
  ghost predicate ReadyOk(t: nat, buckets: Buckets, ready: Option<nat>) {
    match ready
    case None => forall e: nat :: |At(buckets, e)| < t
    case Some(e) => e in buckets && |buckets[e]| == Need(t)
  }

  /** One turn of the collection loop. */
  method Absorb(env: Env, t: nat, rep: Reply, buckets: Buckets, seen: Seen, contributors: Contributors)
    returns (ready: Option<nat>, buckets': Buckets, seen': Seen, contributors': Contributors)
    requires ReadyOk(t, buckets, None)
    ensures buckets' == BucketsAfter(env, rep, seen, buckets) && seen' == SeenAfter(rep, seen)
    ensures contributors' == ContributorsAfter(env, rep, seen, contributors)
    ensures ReadyOk(t, buckets', ready)
  {
    ready, buckets', seen', contributors' := None, buckets, seen, contributors;
    match rep
    case PeerError =>
    case Got(idx, bytes, epoch) =>
      var heard := SeenAt(seen, epoch);
      seen' := seen[epoch := heard + {idx}];
      if idx !in heard {
        var parsed := env.parsePartial(bytes);
        if parsed.Some? {
          assert |At(buckets, epoch)| < t;
          buckets' := buckets[epoch := At(buckets, epoch) + [parsed.value]];
          contributors' := contributors[epoch := At(contributors, epoch) + [idx]];
          if |buckets'[epoch]| >= t { ready := Some(epoch); }
          assert forall e: nat :: e != epoch ==> At(buckets', e) == At(buckets, e);
        }
      }
  }

  lemma UnreadyMeansShort(
    env: Env, own: ShardState, q: Partial, t: nat, replies: seq<Reply>, buckets: Buckets, seen: Seen, cs: Contributors)
    requires InStep(env, own, q, replies, |replies|, buckets, seen, cs) && ReadyOk(t, buckets, None)
    ensures forall e: nat :: |Servers(env, own, replies, |replies|, e)| < Need(t)
  {
    forall e: nat ensures |Servers(env, own, replies, |replies|, e)| < Need(t) {
      assert |At(buckets, e)| < t;
      BucketSize(env, own, q, replies, |replies|, e, At(cs, e), At(buckets, e));
    }
  }

  lemma ReadyMeansEnough(
    env: Env, own: ShardState, q: Partial, t: nat, replies: seq<Reply>, k: nat, e: nat,
    buckets: Buckets, seen: Seen, cs: Contributors)
    requires k <= |replies| && InStep(env, own, q, replies, k, buckets, seen, cs) && ReadyOk(t, buckets, Some(e))
    ensures e in buckets && e in cs && |buckets[e]| == Need(t)
    ensures Gathered(env, own, q, replies, k, e, cs[e], buckets[e])
    ensures |Servers(env, own, replies, |replies|, e)| >= Need(t)
  {
    assert Gathered(env, own, q, replies, k, e, At(cs, e), At(buckets, e));
    BucketSize(env, own, q, replies, k, e, At(cs, e), At(buckets, e));
    ServersGrow(env, own, replies, k, e);
  }

  /**
   The collection loop.  It ends ready exactly when some epoch has enough serving indices among all
   the replies, and then the ready epoch's bucket holds `Need(t)` partials, one for each serving index.
   */
  method Gather(env: Env, own: ShardState, ownPartial: Partial, t: nat, replies: seq<Reply>)
    returns (ready: Option<nat>, idxs: seq<nat>, bucket: seq<Partial>, ghost k: nat)
    ensures ready.None? <==> forall e: nat :: |Servers(env, own, replies, |replies|, e)| < Need(t)
    ensures ready.Some? ==>
      k <= |replies| && |bucket| == Need(t) && Gathered(env, own, ownPartial, replies, k, ready.value, idxs, bucket)
  {
    var buckets: Buckets := map[own.epoch := [ownPartial]];
    var seen: Seen := map[own.epoch := {own.index}];
    var contributors: Contributors := map[own.epoch := [own.index]];
    ready, idxs, bucket, k := None, [], [], 0;
    if |buckets[own.epoch]| >= t { ready := Some(own.epoch); }
    StartIsInStep(env, own, ownPartial, replies);
    var i := 0;
    while ready.None? && i < |replies|
      invariant 0 <= i <= |replies|
      invariant InStep(env, own, ownPartial, replies, i, buckets, seen, contributors)
      invariant ReadyOk(t, buckets, ready)
    {
      ReplyKeepsInStep(env, own, ownPartial, replies, i, buckets, seen, contributors);
      ready, buckets, seen, contributors := Absorb(env, t, replies[i], buckets, seen, contributors);
      i := i + 1;
    }
    if ready.None? {
      UnreadyMeansShort(env, own, ownPartial, t, replies, buckets, seen, contributors);
    } else {
      ReadyMeansEnough(env, own, ownPartial, t, replies, i, ready.value, buckets, seen, contributors);
      k, idxs, bucket := i, contributors[ready.value], buckets[ready.value];
    }
  }

  /** The partial this node contributes itself. */
  function OwnPartial(env: Env, own: ShardState, msg: Bytes): Option<Partial>
    requires env.p >= 2
  {
    match env.parseShare(own.bytes)
    case None => None
    case Some(share) => Some(DprfPartial(env.p, share, env.hash(msg)))
  }

  /** What an issued key comes with: the true key, and a trace of exactly the servers that were combined. */
  ghost predicate Sound(env: Env, groupKey: Option<int>, t: nat, msg: Bytes, own: ShardState, replies: seq<Reply>,
                        k: nat, r: Outcome)
    requires env.p >= 2 && k <= |replies| && r.Issued?
  {
    && groupKey.Some? && r.key == TrueKey(env, groupKey.value, msg)
    && r.trace.coordinator == own.index && |r.trace.servers| == Need(t) && Ascending(r.trace.servers)
    && forall x :: x in r.trace.servers <==> x in Servers(env, own, replies, k, r.trace.epoch)
  }

  lemma ConclusionIsSound(env: Env, groupKey: Option<int>, t: nat, msg: Bytes, own: ShardState, q: Partial,
                          replies: seq<Reply>, k: nat, e: nat, idxs: seq<nat>, bucket: seq<Partial>)
    requires env.p >= 2 && k <= |replies| && |bucket| == Need(t)
    requires Gathered(env, own, q, replies, k, e, idxs, bucket)
    ensures var r := Conclude(env, groupKey, msg, own, e, idxs, bucket);
            if r.Issued? then Sound(env, groupKey, t, msg, own, replies, k, r)
            else r.error in {CombineError, NoGroupKey, VerifyError}
  {
    var r := Conclude(env, groupKey, msg, own, e, idxs, bucket);
    if r.Issued? {
      IssuedKeyIsTrue(env, groupKey, msg, own, e, idxs, bucket);
      SortSorts(idxs);
      SortKeepsMembers(idxs);
    }
  }

  /**
   The derivation.  For any order and content of replies the outcome is an error, each exactly on its
   own condition, or the true key, served by exactly `Need(t)` distinct indices of one epoch; it is
   refused for lack of partials exactly when no epoch has enough; and at a threshold of one it is never
   issued.
   */
  method CollectAndDprf(env: Env, state: Option<ShardState>, groupKey: Option<int>, t: nat,
                        appId: Bytes, material: Bytes, replies: seq<Reply>)
    returns (r: Outcome, ghost k: nat, ghost e: nat, ghost idxs: seq<nat>, ghost bucket: seq<Partial>)
    requires env.p >= 2
    ensures k <= |replies|
    ensures state.None? ==> r == Refused(NotInitialized)
    ensures state.Some? ==>
      (r == Refused(BadShare) <==> OwnPartial(env, state.value, DprfMessage(appId, material)).None?)
    ensures state.Some? && OwnPartial(env, state.value, DprfMessage(appId, material)).Some? ==>
      if forall e: nat :: |Servers(env, state.value, replies, |replies|, e)| < Need(t)
      then r == Refused(NotEnough)
      else Gathered(env, state.value, OwnPartial(env, state.value, DprfMessage(appId, material)).value,
                    replies, k, e, idxs, bucket) && |bucket| == Need(t) &&
           EndsIn(env, groupKey, DprfMessage(appId, material), state.value, e, idxs, bucket, r)
    ensures r.Issued? ==>
      state.Some? && Sound(env, groupKey, t, DprfMessage(appId, material), state.value, replies, k, r)
    ensures t <= 1 ==> !r.Issued?
  {
    k, e, idxs, bucket := 0, 0, [], [];
    if state.None? { r := Refused(NotInitialized); return; }
    var own := state.value;
    var msg := DprfMessage(appId, material);
    var ownPartial := OwnPartial(env, own, msg);
    if ownPartial.None? { r := Refused(BadShare); return; }
    var ready, servers, partials, n := Gather(env, own, ownPartial.value, t, replies);
    if ready.None? { r := Refused(NotEnough); return; }
    k, e, idxs, bucket := n, ready.value, servers, partials;
    r := Conclude(env, groupKey, msg, own, ready.value, servers, partials);
    ConclusionIsSound(env, groupKey, t, msg, own, ownPartial.value, replies, k, e, idxs, bucket);
    ConcludeEndsIn(env, groupKey, msg, own, e, idxs, bucket);
    if t <= 1 { LoneBucketIsRefused(env, groupKey, msg, own, e, idxs, bucket); }
  }

  /** One partial is never combined: at a threshold of one the collector stops at its own. */
  lemma LoneBucketIsRefused(env: Env, groupKey: Option<int>, msg: Bytes, own: ShardState, e: nat,
                            idxs: seq<nat>, bucket: seq<Partial>)
    requires env.p >= 2 && |bucket| <= 1
    ensures Conclude(env, groupKey, msg, own, e, idxs, bucket) == Refused(CombineError)
  {
  }

  /**
   Two coordinators that derive for one message under one group key: if both succeed they hand out the
   same key, with whatever shares, thresholds, replies, epochs and servers.
   */
  method CoordinatorsAgree(env: Env, groupKey: Option<int>, appId: Bytes, material: Bytes,
                           state: Option<ShardState>, t: nat, replies: seq<Reply>,
                           state': Option<ShardState>, t': nat, replies': seq<Reply>)
    returns (r: Outcome, r': Outcome)
    requires env.p >= 2
    ensures r.Issued? && r'.Issued? ==> r.key == r'.key
  {
    ghost var k, e, idxs, bucket;
    r, k, e, idxs, bucket := CollectAndDprf(env, state, groupKey, t, appId, material, replies);
    r', k, e, idxs, bucket := CollectAndDprf(env, state', groupKey, t', appId, material, replies');
  }

  lemma SortKeepsMembers(xs: seq<nat>)
    ensures forall x :: x in Sort(xs) <==> x in xs
  {
    forall x ensures x in Sort(xs) <==> x in xs {
      assert x in Sort(xs) <==> x in multiset(Sort(xs));
      assert x in xs <==> x in multiset(xs);
    }
  }

  lemma ServersGrow(env: Env, own: ShardState, replies: seq<Reply>, k: nat, e: nat)
    requires k <= |replies|
    ensures |Servers(env, own, replies, k, e)| <= |Servers(env, own, replies, |replies|, e)|
  {
    SubsetIsNoLarger(Servers(env, own, replies, k, e), Servers(env, own, replies, |replies|, e));
  }
}
