/**
 The attestation gate's verdict cache.  Times are milliseconds on one clock.  An answer has the time it
 came in and the time it was committed; requests for the same key and for others may complete at every
 wait in between, and may evict entries.  What holds only without overlap, or only if restamps come in
 order, says so.
 */
module VerdictCache {
  import opened Collections

  const POSITIVE_REFRESH := 3_600_000
  const NEGATIVE_TTL := 30_000
  const MAX_STALENESS := 86_400_000
  const SCAN_LAG_WAIT := 12_000
  const SCAN_LAG_POLL := 3_000
  const SCAN_LAG_DAMP := 3_000
  const CACHE_BOUND := 4096

  /** An application id and a signer address. */
  type Key = (string, int)

  /** What asking the verifier can yield: a verdict, "not known", or no answer at all. */
  datatype Answer = Verdict(verified: bool, reason: string) | Unknown | Unreachable

  datatype Decision = Allow | Deny(reason: string)

  datatype Entry = Entry(verified: bool, refusal: string, damp: int, at: int, confirmedAt: int)

  type Cache = map<Key, Entry>

  const UNKNOWN_TEXT := "attestation not verified: not registered on-chain per verifier"
  const UNREACHABLE_CACHED := "attestation not verified (recently checked): verifier unreachable"
  const UNREACHABLE_TEXT := "attestation verifier unreachable and this signer has no fresh-enough verdict"

  // ---- The cache operations ----

  function EntryDecision(e: Entry, now: int): Option<Decision> {
    if e.verified && now - e.at < POSITIVE_REFRESH && now - e.confirmedAt < MAX_STALENESS then Some(Allow)
    else if !e.verified && now - e.at < e.damp then Some(Deny(e.refusal))
    else None
  }

  function CachedDecision(cache: Cache, k: Key, now: int): Option<Decision> {
    if k in cache then EntryDecision(cache[k], now) else None
  }

  /** A positive that may still be served while the verifier cannot answer. */
  predicate Usable(e: Option<Entry>, now: int) {
    e.Some? && e.value.verified && now - e.value.confirmedAt < MAX_STALENESS
  }

  function Find(cache: Cache, k: Key): Option<Entry> {
    if k in cache then Some(cache[k]) else None
  }

  function Refused(text: string, damp: int, stamp: int): Entry {
    Entry(false, text, damp, stamp, stamp)
  }

  /**
   The entry an answer leaves behind, given the entry before.  `stamp` is taken when the answer is in, and
   `now` is when the cache is written, after a wait for it.
   */
  function EntryFor(e: Option<Entry>, answer: Answer, stamp: int, now: int): Entry {
    match answer
    case Verdict(true, _) => Entry(true, "", 0, stamp, stamp)
    case Verdict(false, reason) =>
      Refused("attestation not verified (recently checked): " + reason, NEGATIVE_TTL, stamp)
    case Unknown =>
      if Usable(e, now) then e.value.(at := stamp) else Refused(UNKNOWN_TEXT, SCAN_LAG_DAMP, stamp)
    case Unreachable =>
      if Usable(e, now) then e.value.(at := stamp) else Refused(UNREACHABLE_CACHED, NEGATIVE_TTL, stamp)
  }

  function DecisionFor(e: Option<Entry>, answer: Answer, now: int): Decision {
    match answer
    case Verdict(true, _) => Allow
    case Verdict(false, reason) => Deny("attestation not verified: " + reason)
    case Unknown => if Usable(e, now) then Allow else Deny(UNKNOWN_TEXT)
    case Unreachable => if Usable(e, now) then Allow else Deny(UNREACHABLE_TEXT)
  }

  /** Past the bound, entries untouched for the staleness cap are dropped. */
  function Evicted(cache: Cache, now: int): Cache {
    if |cache| > CACHE_BOUND then map k | k in cache && now - cache[k].at < MAX_STALENESS :: cache[k] else cache
  }

  function Committed(cache: Cache, k: Key, answer: Answer, stamp: int, now: int): Cache {
    var kept := Evicted(cache, now);
    kept[k := EntryFor(Find(kept, k), answer, stamp, now)]
  }

  function CommitDecision(cache: Cache, k: Key, answer: Answer, now: int): Decision {
    DecisionFor(Find(Evicted(cache, now), k), answer, now)
  }

  /**
   A commit touches no other key's entry, except that in a cache of more than 4096 entries those not
   stamped for a day are dropped.
   */
  lemma CommitLeavesOthers(cache: Cache, k: Key, answer: Answer, stamp: int, now: int, other: Key)
    requires other in cache && other != k
    ensures
      var after := Committed(cache, k, answer, stamp, now);
      if |cache| <= 4096 || now - cache[other].at < 86_400_000 then other in after && after[other] == cache[other]
      else other !in after
  {
  }

  // ---- Histories ----

  /** A look at the cache, or an answer received at `stamp` and committed at `t`. */
  datatype Event = Lookup(k: Key, t: int) | Commit(k: Key, t: int, answer: Answer, stamp: int)

  function CacheAfter(h: seq<Event>): Cache {
    if h == [] then map[] else Applied(CacheAfter(h[..|h| - 1]), h[|h| - 1])
  }

  function Applied(cache: Cache, ev: Event): Cache {
    if ev.Lookup? then cache else Committed(cache, ev.k, ev.answer, ev.stamp, ev.t)
  }

  /** What the gate answers to an event, given the cache: a lookup may have no answer. */
  function Answered(cache: Cache, ev: Event): Option<Decision> {
    match ev
    case Lookup(k, t) => CachedDecision(cache, k, t)
    case Commit(k, t, answer, _) => Some(CommitDecision(cache, k, answer, t))
  }

  /** Event times never go back, and an answer is in before it is committed. */
  predicate Timely(h: seq<Event>) {
    && (forall i, j :: 0 <= i < j < |h| ==> h[i].t <= h[j].t)
    && (forall i :: 0 <= i < |h| && h[i].Commit? ==> h[i].stamp <= h[i].t)
  }

  predicate IsCommit(ev: Event, k: Key) { ev.Commit? && ev.k == k }

  /** The commits of `k` before event `j` are over when the answer of `j` comes in. */
  predicate SerialAt(h: seq<Event>, k: Key, j: int)
    requires 0 <= j < |h|
  {
    IsCommit(h[j], k) ==> forall i :: 0 <= i < j && IsCommit(h[i], k) ==> h[i].t <= h[j].stamp
  }

  /** No two fetches for `k` overlap. */
  predicate Serial(h: seq<Event>, k: Key) {
    forall j :: 0 <= j < |h| ==> SerialAt(h, k, j)
  }

  predicate IsVerdict(ev: Event, k: Key, verified: bool) {
    IsCommit(ev, k) && ev.answer.Verdict? && ev.answer.verified == verified
  }

  /** An answer that may restamp a confirmation came in after it. */
  predicate RestampAt(h: seq<Event>, k: Key, j: int)
    requires 0 <= j < |h|
  {
    IsCommit(h[j], k) && !h[j].answer.Verdict? ==>
      forall i :: 0 <= i < j && IsVerdict(h[i], k, true) ==> h[i].stamp <= h[j].stamp
  }

  /** No restamp of `k` is older than the confirmation it keeps. */
  predicate RestampsInOrder(h: seq<Event>, k: Key) {
    forall j :: 0 <= j < |h| ==> RestampAt(h, k, j)
  }

  /** Without overlap restamps are in order; they may be with it. */
  lemma SerialRestampsInOrder(h: seq<Event>, k: Key)
    requires Timely(h) && Serial(h, k)
    ensures RestampsInOrder(h, k)
  {
    forall j | 0 <= j < |h| ensures RestampAt(h, k, j) {
      assert SerialAt(h, k, j);
    }
  }

  lemma TimelyInit(h: seq<Event>, ev: Event, k: Key)
    requires Timely(h + [ev])
    ensures Timely(h) && (ev.Commit? ==> ev.stamp <= ev.t) && forall i :: 0 <= i < |h| ==> h[i].t <= ev.t
    ensures RestampsInOrder(h + [ev], k) ==> RestampsInOrder(h, k)
  {
    var g := h + [ev];
    assert g[|h|] == ev;
    assert forall i :: 0 <= i < |h| ==> g[i] == h[i];
    if RestampsInOrder(g, k) {
      forall j | 0 <= j < |h| ensures RestampAt(h, k, j) {
        assert RestampAt(g, k, j);
      }
    }
  }

  lemma {:induction false} CommitExtends(h: seq<Event>, ev: Event)
    requires ev.Commit? && ev.stamp <= ev.t && Timely(h) && forall i :: 0 <= i < |h| ==> h[i].t <= ev.t
    ensures Timely(h + [ev]) && CacheAfter(h + [ev]) == Applied(CacheAfter(h), ev)
  {
    var g := h + [ev];
    assert g[..|h|] == h && g[|h|] == ev;
  }

  // ---- The reference: one key, no eviction ----

  function EntryAfter(h: seq<Event>, k: Key): Option<Entry> {
    if h == [] then None
    else
      var before, ev := EntryAfter(h[..|h| - 1], k), h[|h| - 1];
      if IsCommit(ev, k) then Some(EntryFor(before, ev.answer, ev.stamp, ev.t)) else before
  }

  function ReferenceAnswer(h: seq<Event>, ev: Event): Option<Decision> {
    var e := EntryAfter(h, ev.k);
    match ev
    case Lookup(k, t) => if e.Some? then EntryDecision(e.value, t) else None
    case Commit(k, t, answer, _) => Some(DecisionFor(e, answer, t))
  }

  /** Nothing is lost when the entry is evicted: by then it is dead, or it is dead already. */
  predicate EntryOk(e: Entry, now: int) {
    && e.at <= now && e.damp < MAX_STALENESS
    && (e.verified ==> e.confirmedAt <= e.at || now - e.confirmedAt >= MAX_STALENESS)
  }

  /** A positive in the reference was confirmed when a positive verdict came in. */
  lemma {:induction false} ReferencePositive(h: seq<Event>, k: Key) returns (i: nat)
    requires EntryAfter(h, k).Some? && EntryAfter(h, k).value.verified
    ensures i < |h| && IsVerdict(h[i], k, true) && EntryAfter(h, k).value.confirmedAt == h[i].stamp
  {
    var n := |h| - 1;
    if IsVerdict(h[n], k, true) {
      i := n;
    } else {
      i := ReferencePositive(h[..n], k);
    }
  }

  lemma {:induction false} EntryAfterOk(h: seq<Event>, k: Key, now: int)
    requires Timely(h) && RestampsInOrder(h, k) && forall i :: 0 <= i < |h| && IsCommit(h[i], k) ==> h[i].t <= now
    ensures EntryAfter(h, k).Some? ==> EntryOk(EntryAfter(h, k).value, now)
  {
    if h != [] {
      var before, ev := h[..|h| - 1], h[|h| - 1];
      assert h == before + [ev] && RestampAt(h, k, |h| - 1);
      TimelyInit(before, ev, k);
      EntryAfterOk(before, k, now);
      if IsCommit(ev, k) && Usable(EntryAfter(before, k), ev.t) {
        var i := ReferencePositive(before, k);
        assert h[i] == before[i];
      }
    }
  }

  /** A cached entry is the reference's; a missing one is dead in the reference. */
  ghost predicate Agrees(h: seq<Event>, k: Key, now: int) {
    var e := EntryAfter(h, k);
    if k in CacheAfter(h) then e == Some(CacheAfter(h)[k]) else e.Some? ==> now - e.value.at >= MAX_STALENESS
  }

  /** One more event keeps the two in agreement. */
  lemma {:induction false} EventKeepsAgreement(h: seq<Event>, ev: Event, k: Key, now: int)
    requires Agrees(h, k, ev.t) && ev.t <= now
    requires EntryAfter(h, k).Some? ==> EntryOk(EntryAfter(h, k).value, ev.t)
    ensures Agrees(h + [ev], k, now)
  {
    var g := h + [ev];
    assert g[..|h|] == h && g[|h|] == ev;
  }

  lemma {:induction false} CacheAgrees(h: seq<Event>, k: Key, now: int)
    requires Timely(h) && RestampsInOrder(h, k) && forall i :: 0 <= i < |h| ==> h[i].t <= now
    ensures Agrees(h, k, now)
  {
    if h != [] {
      var before, ev := h[..|h| - 1], h[|h| - 1];
      assert h == before + [ev];
      TimelyInit(before, ev, k);
      CacheAgrees(before, k, ev.t);
      EntryAfterOk(before, k, ev.t);
      EventKeepsAgreement(before, ev, k, now);
    }
  }

  /** Eviction is invisible: if restamps are in order the gate answers as if nothing were ever evicted. */
  lemma {:induction false} EvictionIsInvisible(h: seq<Event>, ev: Event)
    requires Timely(h + [ev]) && RestampsInOrder(h, ev.k)
    ensures Answered(CacheAfter(h), ev) == ReferenceAnswer(h, ev)
  {
    TimelyInit(h, ev, ev.k);
    CacheAgrees(h, ev.k, ev.t);
    EntryAfterOk(h, ev.k, ev.t);
    AgreementAnswers(h, ev);
  }

  lemma {:induction false} AgreementAnswers(h: seq<Event>, ev: Event)
    requires Agrees(h, ev.k, ev.t)
    requires EntryAfter(h, ev.k).Some? ==> EntryOk(EntryAfter(h, ev.k).value, ev.t)
    ensures Answered(CacheAfter(h), ev) == ReferenceAnswer(h, ev)
  {
  }

  // ---- Freshness ----

  /** Event `i` is a positive verdict for `k` after which no verdict was committed. */
  ghost predicate StandingPositive(h: seq<Event>, k: Key, i: nat)
    requires i < |h|
  {
    IsVerdict(h[i], k, true) && forall j :: i < j < |h| ==> !IsVerdict(h[j], k, false) && !IsVerdict(h[j], k, true)
  }

  /** A confirmation stands at time `t`: the last verdict is positive and was received under a day ago. */
  ghost predicate Fresh(h: seq<Event>, k: Key, t: int) {
    exists i :: 0 <= i < |h| && StandingPositive(h, k, i) && t - h[i].stamp < 86_400_000
  }

  lemma StandingExtends(h: seq<Event>, k: Key, i: nat, ev: Event)
    requires i < |h| && !IsVerdict(ev, k, false) && !IsVerdict(ev, k, true)
    ensures StandingPositive(h + [ev], k, i) <==> StandingPositive(h, k, i)
  {
    var g := h + [ev];
    if StandingPositive(g, k, i) {
      forall j | i < j < |h| ensures !IsVerdict(h[j], k, false) && !IsVerdict(h[j], k, true) {
        assert g[j] == h[j];
      }
    }
    if StandingPositive(h, k, i) {
      forall j | i < j < |g| ensures !IsVerdict(g[j], k, false) && !IsVerdict(g[j], k, true) {
        if j < |h| { assert g[j] == h[j]; }
      }
    }
  }

  /** One more event, told on the last-verdict rule alone. */
  lemma FreshAfter(h: seq<Event>, k: Key, ev: Event, t: int)
    ensures Fresh(h + [ev], k, t) <==>
      if IsVerdict(ev, k, true) then t - ev.stamp < MAX_STALENESS
      else !IsVerdict(ev, k, false) && Fresh(h, k, t)
  {
    var g := h + [ev];
    assert g[|h|] == ev;
    if Fresh(g, k, t) {
      var i :| 0 <= i < |g| && StandingPositive(g, k, i) && t - g[i].stamp < MAX_STALENESS;
      if i < |h| {
        assert !IsVerdict(g[|h|], k, false) && !IsVerdict(g[|h|], k, true);
        StandingExtends(h, k, i, ev);
      }
    }
    if IsVerdict(ev, k, true) {
      assert StandingPositive(g, k, |h|);
    } else if Fresh(h, k, t) && !IsVerdict(ev, k, false) {
      var i :| 0 <= i < |h| && StandingPositive(h, k, i) && t - h[i].stamp < MAX_STALENESS;
      StandingExtends(h, k, i, ev);
      assert g[i] == h[i];
    }
  }

  lemma FreshLasts(h: seq<Event>, k: Key, t: int, t': int)
    requires t <= t' && Fresh(h, k, t')
    ensures Fresh(h, k, t)
  {
  }

  /** A cached positive was confirmed when a verdict that still stands was received. */
  ghost predicate IsConfirmed(h: seq<Event>, k: Key, e: Entry) {
    exists i :: 0 <= i < |h| && StandingPositive(h, k, i) && e.confirmedAt == h[i].stamp
  }

  lemma ConfirmedAfter(h: seq<Event>, k: Key, ev: Event, e: Entry)
    requires IsConfirmed(h, k, e) && !IsVerdict(ev, k, false) && !IsVerdict(ev, k, true)
    ensures IsConfirmed(h + [ev], k, e)
  {
    var i :| 0 <= i < |h| && StandingPositive(h, k, i) && e.confirmedAt == h[i].stamp;
    StandingExtends(h, k, i, ev);
    assert (h + [ev])[i] == h[i];
  }

  lemma {:induction false} CachedPositiveIsConfirmed(h: seq<Event>, k: Key)
    requires k in CacheAfter(h) && CacheAfter(h)[k].verified
    ensures IsConfirmed(h, k, CacheAfter(h)[k])
  {
    if h != [] {
      var before, ev := h[..|h| - 1], h[|h| - 1];
      assert h == before + [ev];
      if IsVerdict(ev, k, true) {
        assert StandingPositive(h, k, |h| - 1);
      } else {
        CachedPositiveIsConfirmed(before, k);
        ConfirmedAfter(before, k, ev, CacheAfter(before)[k]);
        assert CacheAfter(h)[k].confirmedAt == CacheAfter(before)[k].confirmedAt;
      }
    }
  }

  /**
   Verdict freshness over every request history, with any overlap of requests: whenever the gate admits a
   signer, either this very answer was a positive verdict, or the last verdict committed is positive and
   was received less than a day before, however many refreshes failed or found nothing.
   */
  lemma {:induction false} AdmissionIsFresh(h: seq<Event>, ev: Event)
    requires Answered(CacheAfter(h), ev) == Some(Allow)
    ensures IsVerdict(ev, ev.k, true) || (Fresh(h, ev.k, ev.t) && !IsVerdict(ev, ev.k, false))
  {
    if !IsVerdict(ev, ev.k, true) {
      assert ev.k in CacheAfter(h) && CacheAfter(h)[ev.k].verified;
      CachedPositiveIsConfirmed(h, ev.k);
    }
  }

  /** The reference entry can be served exactly when a confirmation stands, with any overlap. */
  lemma {:induction false} UsableIffFresh(h: seq<Event>, k: Key, t: int)
    requires Timely(h) && forall i :: 0 <= i < |h| ==> h[i].t <= t
    ensures Usable(EntryAfter(h, k), t) <==> Fresh(h, k, t)
  {
    if h != [] {
      var before, ev := h[..|h| - 1], h[|h| - 1];
      assert h == before + [ev];
      TimelyInit(before, ev, k);
      UsableIffFresh(before, k, t);
      UsableIffFresh(before, k, ev.t);
      FreshAfter(before, k, ev, t);
      if Fresh(before, k, t) { FreshLasts(before, k, ev.t, t); }
    }
  }

  /** With restamps in order: exactly when a fetched answer admits, and a lookup only on a confirmation. */
  lemma {:induction false} AdmissionExactly(h: seq<Event>, ev: Event)
    requires Timely(h + [ev]) && RestampsInOrder(h, ev.k)
    ensures ev.Commit? ==>
      (Answered(CacheAfter(h), ev) == Some(Allow) <==>
         IsVerdict(ev, ev.k, true) || (!ev.answer.Verdict? && Fresh(h, ev.k, ev.t)))
    ensures ev.Lookup? && Answered(CacheAfter(h), ev) == Some(Allow) ==> Fresh(h, ev.k, ev.t)
  {
    TimelyInit(h, ev, ev.k);
    EvictionIsInvisible(h, ev);
    UsableIffFresh(h, ev.k, ev.t);
  }

  // ---- Freshness in the order in which answers are received ----

  /** A positive verdict was received under a day ago, and no negative one received after it. */
  ghost predicate FreshByReceipt(h: seq<Event>, k: Key, t: int) {
    exists i :: 0 <= i < |h| && ReceivedLast(h, k, i) && t - h[i].stamp < 86_400_000
  }

  ghost predicate ReceivedLast(h: seq<Event>, k: Key, i: nat)
    requires i < |h|
  {
    IsVerdict(h[i], k, true) && forall j :: 0 <= j < |h| && IsVerdict(h[j], k, false) ==> h[j].stamp <= h[i].stamp
  }

  /** Without overlap, what stands in the order of commits stands in the order of receipt. */
  lemma FreshIsByReceipt(h: seq<Event>, k: Key, t: int)
    requires Timely(h) && Serial(h, k) && Fresh(h, k, t)
    ensures FreshByReceipt(h, k, t)
  {
    var i :| 0 <= i < |h| && StandingPositive(h, k, i) && t - h[i].stamp < MAX_STALENESS;
    assert SerialAt(h, k, i);
    assert ReceivedLast(h, k, i);
  }

  /** A negative verdict, and a positive one received before it and committed after it. */
  function Overlapped(k: Key): seq<Event> {
    [Commit(k, 0, Unknown, 0), Commit(k, 3002, Verdict(false, ""), 3001), Commit(k, 3003, Verdict(true, ""), 3000)]
  }

  /** With overlap it need not: a positive verdict committed late hides a negative one received after it. */
  lemma LatePositiveHidesANegative(k: Key) returns (h: seq<Event>)
    ensures h == Overlapped(k)
    ensures Timely(h) && !Serial(h, k)
    ensures CachedDecision(CacheAfter(h), k, 3004) == Some(Allow) && !FreshByReceipt(h, k, 3004)
  {
    h := Overlapped(k);
    PositiveIsServed(h[..2], k, 3000, 3003);
    assert h[..2] + [h[2]] == h;
    assert IsVerdict(h[1], k, false) && !SerialAt(h, k, 2);
    assert !ReceivedLast(h, k, 0) && !ReceivedLast(h, k, 1) && !ReceivedLast(h, k, 2);
  }

  lemma {:induction false} PositiveIsServed(h: seq<Event>, k: Key, stamp: int, now: int)
    requires stamp <= now
    ensures CachedDecision(CacheAfter(h + [Commit(k, now, Verdict(true, ""), stamp)]), k, stamp + 4) == Some(Allow)
  {
    var g := h + [Commit(k, now, Verdict(true, ""), stamp)];
    assert g[..|h|] == h && g[|h|] == Commit(k, now, Verdict(true, ""), stamp);
    assert CacheAfter(g)[k] == Entry(true, "", 0, stamp, stamp);
  }

  // ---- The gate, as an object ----

  /** One call to the verifier: its answer and when it came in. */
  datatype Fetch = Fetch(answer: Answer, at: int)

  predicate Settled(answer: Answer) { answer.Verdict? }

  class Verifier {
    var cache: Cache
    /** Every answer committed so far. */
    ghost var history: seq<Event>

    ghost predicate Valid(now: int)
      reads this
    {
      cache == CacheAfter(history) && Timely(history) && forall i :: 0 <= i < |history| ==> history[i].t <= now
    }

    constructor (now: int)
      ensures cache == map[] && history == [] && Valid(now)
    {
      cache := map[];
      history := [];
    }

    /** Other requests completing between `from` and `till`: each commits one answer. */
    method Interleave(batch: seq<Event>, from: int, till: int)
      requires Valid(from) && IsBatch(batch, from, till)
      modifies this
      ensures history == old(history) + batch && Valid(till)
    {
      ghost var now := from;
      for i := 0 to |batch|
        invariant history == old(history) + batch[..i]
        invariant Valid(now) && now <= till && (i < |batch| ==> now <= batch[i].t)
      {
        CommitOne(batch[i], now);
        now := batch[i].t;
      }
    }

    method CommitOne(ev: Event, ghost now: int)
      requires ev.Commit? && ev.stamp <= ev.t && Valid(now) && now <= ev.t
      modifies this
      ensures history == old(history) + [ev] && Valid(ev.t)
    {
      CommitExtends(history, ev);
      cache := Committed(cache, ev.k, ev.answer, ev.stamp, ev.t);
      history := history + [ev];
    }

    /**
     Store the answer for `k` received at `stamp`.  It admits only if it confirms `k` or leaves a standing
     confirmation alone; with restamps in order it admits exactly then, as the reference does.
     */
    method CommitAnswer(k: Key, answer: Answer, stamp: int, now: int) returns (d: Decision)
      requires Valid(now) && stamp <= now
      modifies this
      ensures history == old(history) + [Commit(k, now, answer, stamp)] && Valid(now)
      ensures Admits(old(history), k, answer, now, d)
    {
      ghost var ev := Commit(k, now, answer, stamp);
      CommitExtends(history, ev);
      d := CommitDecision(cache, k, answer, now);
      CommitAdmits(history, ev, d);
      cache := Committed(cache, k, answer, stamp, now);
      history := history + [ev];
    }

    /** The decision of the cache alone, if it has one. */
    method Consult(k: Key, now: int) returns (d: Option<Decision>)
      requires Valid(now)
      ensures d == Some(Allow) ==> Fresh(history, k, now)
      ensures RestampsInOrder(history, k) ==> d == ReferenceAnswer(history, Lookup(k, now))
    {
      d := CachedDecision(cache, k, now);
      LookupExtends(history, k, now);
      if d == Some(Allow) { AdmissionIsFresh(history, Lookup(k, now)); }
      if RestampsInOrder(history, k) { EvictionIsInvisible(history, Lookup(k, now)); }
    }

    /**
     Ask, and ask again every poll interval until a verdict or the deadline; once only if a usable
     positive is at hand.  `others[i]`, on any keys, completes before `fetches[i]` is answered.
     */
    method Ask(k: Key, locked: int, wait: nat, fetches: seq<Fetch>, others: seq<seq<Event>>) returns (asked: nat)
      requires Valid(locked) && AskTimes(locked, wait, fetches, others)
      modifies this
      ensures 1 <= asked <= |fetches| && Valid(fetches[asked - 1].at)
      ensures history == old(history) + UpTo(others, asked)
      ensures forall i :: 0 <= i < asked - 1 ==> !Settled(fetches[i].answer)
      ensures
        var first := old(history) + others[0];
        && (RestampsInOrder(first, k) && Fresh(first, k, fetches[0].at) ==> asked == 1)
        && (|| Settled(fetches[asked - 1].answer)
            || Fresh(first, k, fetches[0].at)
            || fetches[0].at + wait < fetches[asked - 1].at + SCAN_LAG_POLL)
    {
      var now := fetches[0].at;
      Interleave(others[0], locked, now);
      assert history == old(history) + UpTo(others, 1) by {
        assert UpTo(others, 1) == UpTo(others, 0) + others[0];
      }
      var usable := Usable(Find(cache, k), now);
      FoundUsable(history, k, now);
      if usable {
        asked := 1;
      } else {
        asked := KeepAsking(old(history), wait, fetches, others);
      }
    }

    /** The wait loop, entered with the first answer in hand; its clock-based measure bounds it. */
    method KeepAsking(ghost base: seq<Event>, wait: nat, fetches: seq<Fetch>, others: seq<seq<Event>>)
      returns (asked: nat)
      requires |others| == |fetches| == 1 + wait / SCAN_LAG_POLL
      requires Valid(fetches[0].at) && history == base + UpTo(others, 1)
      requires forall i :: 0 < i < |fetches| ==> PollOk(i, fetches, others)
      modifies this
      ensures 1 <= asked <= |fetches| && Valid(fetches[asked - 1].at)
      ensures history == base + UpTo(others, asked)
      ensures forall i :: 0 <= i < asked - 1 ==> !Settled(fetches[i].answer)
      ensures
        || Settled(fetches[asked - 1].answer)
        || fetches[0].at + wait < fetches[asked - 1].at + SCAN_LAG_POLL
    {
      var outcome, now, deadline := fetches[0].answer, fetches[0].at, fetches[0].at + wait;
      asked := 1;
      while !Settled(outcome) && now + SCAN_LAG_POLL <= deadline
        invariant 1 <= asked <= |fetches| && Valid(now)
        invariant now == fetches[asked - 1].at && outcome == fetches[asked - 1].answer
        invariant fetches[0].at + (asked - 1) * SCAN_LAG_POLL <= now
        invariant forall i :: 0 <= i < asked - 1 ==> !Settled(fetches[i].answer)
        invariant history == base + UpTo(others, asked)
        decreases deadline - now
      {
        PollsFit(asked, wait);
        assert PollOk(asked, fetches, others);
        Interleave(others[asked], now, fetches[asked].at);
        outcome, now := fetches[asked].answer, fetches[asked].at;
        asked := asked + 1;
      }
    }

    /**
     Under the lock: ask, wait to write the cache, and commit.  If the `i`-th answer is the last one,
     `writing[i]` completes during that wait, and the commit is at `ends[i]`.
     */
    method Resolve(k: Key, locked: int, wait: nat, fetches: seq<Fetch>, others: seq<seq<Event>>,
                   writing: seq<seq<Event>>, ends: seq<int>)
      returns (d: Decision, asked: nat, ghost before: seq<Event>)
      requires Valid(locked) && AskTimes(locked, wait, fetches, others) && WriteTimes(fetches, writing, ends)
      modifies this
      ensures 1 <= asked <= |fetches| && before == old(history) + UpTo(others, asked) + writing[asked - 1]
      ensures
        var first := old(history) + others[0];
        RestampsInOrder(first, k) && Fresh(first, k, fetches[0].at) ==> asked == 1
      ensures history == before + [Commit(k, ends[asked - 1], fetches[asked - 1].answer, fetches[asked - 1].at)]
      ensures Valid(ends[asked - 1]) && Admits(before, k, fetches[asked - 1].answer, ends[asked - 1], d)
    {
      asked := Ask(k, locked, wait, fetches, others);
      var i := asked - 1;
      assert IsBatch(writing[i], fetches[i].at, ends[i]);
      Interleave(writing[i], fetches[i].at, ends[i]);
      before := history;
      d := CommitAnswer(k, fetches[i].answer, fetches[i].at, ends[i]);
    }

    /**
     Gate a signer.  `queued` completes while the caller waits for the lock of `k`.  An admission rests on a
     confirmation that still stands in the history; with restamps in order a fetched answer admits exactly
     then; no call asks more than `1 + wait / poll` times.
     */
    method RequireVerified(k: Key, start: int, queued: seq<Event>, locked: int, wait: nat,
                           fetches: seq<Fetch>, others: seq<seq<Event>>, writing: seq<seq<Event>>, ends: seq<int>)
      returns (d: Decision, asked: nat, ghost before: seq<Event>)
      requires Valid(start) && IsBatch(queued, start, locked)
      requires AskTimes(locked, wait, fetches, others) && WriteTimes(fetches, writing, ends)
      modifies this
      ensures asked <= 1 + wait / SCAN_LAG_POLL && old(history) <= before
      ensures (wait == 12_000 ==> asked <= 5) && (wait == 0 ==> asked <= 1)
      ensures
        var first := old(history) + queued + others[0];
        RestampsInOrder(first, k) && Fresh(first, k, fetches[0].at) ==> asked <= 1
      ensures RestampsInOrder(old(history), k) && ReferenceAnswer(old(history), Lookup(k, start)).Some? ==> asked == 0
      ensures
        var waited := old(history) + queued;
        RestampsInOrder(waited, k) && ReferenceAnswer(waited, Lookup(k, locked)).Some? ==> asked == 0
      ensures asked == 0 ==> history == before && (Served(history, k, start, d) || Served(history, k, locked, d))
      ensures asked > 0 ==>
        && before == old(history) + queued + UpTo(others, asked) + writing[asked - 1]
        && history == before + [Commit(k, ends[asked - 1], fetches[asked - 1].answer, fetches[asked - 1].at)]
        && Valid(ends[asked - 1]) && Admits(before, k, fetches[asked - 1].answer, ends[asked - 1], d)
    {
      before := history;
      var quick := Consult(k, start);
      if quick.Some? { return quick.value, 0, before; }
      Interleave(queued, start, locked);
      before := history;
      quick := Consult(k, locked);
      if quick.Some? { return quick.value, 0, before; }
      d, asked, before := Resolve(k, locked, wait, fetches, others, writing, ends);
    }
  }

  /** Whichever answer is the last, the commit follows it. */
  predicate WriteTimes(fetches: seq<Fetch>, writing: seq<seq<Event>>, ends: seq<int>) {
    && |writing| == |ends| == |fetches|
    && forall i :: 0 <= i < |fetches| ==> IsBatch(writing[i], fetches[i].at, ends[i])
  }

  lemma {:induction false} CommitAdmits(h: seq<Event>, ev: Event, d: Decision)
    requires ev.Commit? && Timely(h + [ev]) && d == CommitDecision(CacheAfter(h), ev.k, ev.answer, ev.t)
    ensures Admits(h, ev.k, ev.answer, ev.t, d)
  {
    if d == Allow { AdmissionIsFresh(h, ev); }
    if RestampsInOrder(h, ev.k) {
      EvictionIsInvisible(h, ev);
      AdmissionExactly(h, ev);
    }
  }

  /**
   A fetched answer admits only if it confirms `k` or a confirmation stands; with restamps in order it
   admits exactly then, and the decision is the reference's.
   */
  ghost predicate Admits(h: seq<Event>, k: Key, answer: Answer, now: int, d: Decision) {
    && (d == Allow ==> if Settled(answer) then answer.verified else Fresh(h, k, now))
    && (RestampsInOrder(h, k) ==>
          && d == DecisionFor(EntryAfter(h, k), answer, now)
          && (d == Allow <==> if Settled(answer) then answer.verified else Fresh(h, k, now)))
  }

  /** An admission has a standing confirmation; with restamps in order the reference serves `d` too. */
  ghost predicate Served(h: seq<Event>, k: Key, t: int, d: Decision) {
    (d == Allow ==> Fresh(h, k, t)) && (RestampsInOrder(h, k) ==> ReferenceAnswer(h, Lookup(k, t)) == Some(d))
  }

  /** The verifier's answers come in order, a poll interval apart; the others' commits fall between them. */
  predicate AskTimes(locked: int, wait: nat, fetches: seq<Fetch>, others: seq<seq<Event>>) {
    && |others| == |fetches| == 1 + wait / SCAN_LAG_POLL
    && IsBatch(others[0], locked, fetches[0].at)
    && forall i :: 0 < i < |fetches| ==> PollOk(i, fetches, others)
  }

  predicate PollOk(i: int, fetches: seq<Fetch>, others: seq<seq<Event>>)
    requires 0 < i < |fetches| == |others|
  {
    && fetches[i - 1].at + SCAN_LAG_POLL <= fetches[i].at
    && IsBatch(others[i], fetches[i - 1].at, fetches[i].at)
  }

  predicate IsBatch(batch: seq<Event>, from: int, till: int) {
    && from <= till && Timely(batch)
    && forall i :: 0 <= i < |batch| ==> batch[i].Commit? && from <= batch[i].t <= till
  }

  /** The events of the first `n` batches, in order. */
  function UpTo(batches: seq<seq<Event>>, n: nat): seq<Event>
    requires n <= |batches|
  {
    if n == 0 then [] else UpTo(batches, n - 1) + batches[n - 1]
  }

  /** The live cache serves a positive only on a standing confirmation; with restamps in order, exactly then. */
  lemma {:induction false} FoundUsable(h: seq<Event>, k: Key, t: int)
    requires Timely(h) && forall i :: 0 <= i < |h| ==> h[i].t <= t
    ensures Usable(Find(CacheAfter(h), k), t) ==> Fresh(h, k, t)
    ensures RestampsInOrder(h, k) ==> (Usable(Find(CacheAfter(h), k), t) <==> Fresh(h, k, t))
  {
    if Usable(Find(CacheAfter(h), k), t) { CachedPositiveIsConfirmed(h, k); }
    if RestampsInOrder(h, k) {
      UsableIffFresh(h, k, t);
      CacheAgrees(h, k, t);
      EntryAfterOk(h, k, t);
    }
  }

  lemma LookupExtends(h: seq<Event>, k: Key, t: int)
    requires Timely(h) && forall i :: 0 <= i < |h| ==> h[i].t <= t
    ensures Timely(h + [Lookup(k, t)])
  {
  }

  lemma PollsFit(polls: nat, wait: nat)
    requires polls * SCAN_LAG_POLL <= wait
    ensures polls <= wait / SCAN_LAG_POLL
  {
  }

  // ---- Exactly what the cache alone decides ----

  ghost predicate IsLastCommit(h: seq<Event>, k: Key, i: nat)
    requires i < |h|
  {
    IsCommit(h[i], k) && forall j :: i < j < |h| ==> !IsCommit(h[j], k)
  }

  lemma {:induction false} EntryFromLastCommit(h: seq<Event>, k: Key, i: nat)
    requires i < |h| && IsLastCommit(h, k, i)
    ensures EntryAfter(h, k) == Some(EntryFor(EntryAfter(h[..i], k), h[i].answer, h[i].stamp, h[i].t))
  {
    var n := |h| - 1;
    if i < n {
      assert !IsCommit(h[n], k);
      assert h[..n][..i] == h[..i];
      EntryFromLastCommit(h[..n], k, i);
    }
  }

  /** How long a refusal is repeated: briefly when the verifier had merely not caught up. */
  function DampOf(answer: Answer): int {
    if answer.Unknown? then 3_000 else 30_000
  }

  /**
   A lookup repeats the last fetched decision: an admission for an hour, while its confirmation stands;
   a refusal for its damping time; after that it decides nothing.
   */
  lemma {:induction false} LookupExactly(h: seq<Event>, k: Key, t: int, i: nat)
    requires Timely(h + [Lookup(k, t)]) && RestampsInOrder(h, k) && i < |h| && IsLastCommit(h, k, i)
    ensures
      var admitted := Answered(CacheAfter(h[..i]), h[i]) == Some(Allow);
      var d := CachedDecision(CacheAfter(h), k, t);
      && (d == Some(Allow) <==> admitted && t - h[i].stamp < 3_600_000 && Fresh(h, k, t))
      && (d.Some? && d.value.Deny? <==> !admitted && t - h[i].stamp < DampOf(h[i].answer))
  {
    TimelyInit(h, Lookup(k, t), k);
    OrderedPrefix(h, k, i);
    assert Answered(CacheAfter(h), Lookup(k, t)) == ReferenceAnswer(h, Lookup(k, t)) by {
      EvictionIsInvisible(h, Lookup(k, t));
    }
    assert Answered(CacheAfter(h[..i]), h[i]) == ReferenceAnswer(h[..i], h[i]) by {
      EvictionIsInvisible(h[..i], h[i]);
    }
    EntryFromLastCommit(h, k, i);
    UsableIffFresh(h, k, t);
    EntryExactly(EntryAfter(h[..i], k), h[i].answer, h[i].stamp, h[i].t, t);
  }

  /** What a refusal says, by the answer it rests on and by whether it is repeated from the cache. */
  predicate SaysWhy(text: string, answer: Answer, cached: bool) {
    match answer
    case Verdict(_, reason) =>
      var lead := if cached then "attestation not verified (recently checked): " else "attestation not verified: ";
      text == lead + reason
    case Unknown => text == "attestation not verified: not registered on-chain per verifier"
    case Unreachable =>
      text == if cached then "attestation not verified (recently checked): verifier unreachable"
              else "attestation verifier unreachable and this signer has no fresh-enough verdict"
  }

  lemma EntrySaysWhy(before: Option<Entry>, answer: Answer, stamp: int, now: int, t: int)
    ensures
      var d := EntryDecision(EntryFor(before, answer, stamp, now), t);
      d.Some? && d.value.Deny? ==> SaysWhy(d.value.reason, answer, true)
  {
  }

  /** A fetched refusal names its own answer; a repeated one names the last answer committed for the key. */
  lemma {:induction false} RefusalsSayWhy(h: seq<Event>, k: Key, t: int, i: nat)
    requires Timely(h + [Lookup(k, t)]) && RestampsInOrder(h, k) && i < |h| && IsLastCommit(h, k, i)
    ensures
      var fetched := Answered(CacheAfter(h[..i]), h[i]);
      var cached := CachedDecision(CacheAfter(h), k, t);
      && fetched.Some? && (fetched.value.Deny? ==> SaysWhy(fetched.value.reason, h[i].answer, false))
      && (cached.Some? && cached.value.Deny? ==> SaysWhy(cached.value.reason, h[i].answer, true))
  {
    assert Answered(CacheAfter(h), Lookup(k, t)) == ReferenceAnswer(h, Lookup(k, t)) by {
      EvictionIsInvisible(h, Lookup(k, t));
    }
    EntryFromLastCommit(h, k, i);
    EntrySaysWhy(EntryAfter(h[..i], k), h[i].answer, h[i].stamp, h[i].t, t);
  }

  lemma EntryExactly(before: Option<Entry>, answer: Answer, stamp: int, now: int, t: int)
    requires stamp <= now
    ensures
      var e := EntryFor(before, answer, stamp, now);
      var admitted := DecisionFor(before, answer, now) == Allow;
      && (EntryDecision(e, t) == Some(Allow) <==> admitted && t - stamp < POSITIVE_REFRESH && Usable(Some(e), t))
      && (EntryDecision(e, t).Some? && EntryDecision(e, t).value.Deny? <==> !admitted && t - stamp < DampOf(answer))
  {
  }

  lemma OrderedPrefix(h: seq<Event>, k: Key, i: nat)
    requires Timely(h) && RestampsInOrder(h, k) && i < |h|
    ensures Timely(h[..i] + [h[i]]) && RestampsInOrder(h[..i], k)
  {
    assert h[..i] + [h[i]] == h[..i + 1];
    forall j | 0 <= j < i ensures RestampAt(h[..i], k, j) {
      assert RestampAt(h, k, j);
    }
  }

  // ---- When eviction shows ----

  /** None of the events commits an answer for `k`. */
  predicate IsQuiet(ext: seq<Event>, k: Key) {
    forall i :: 0 <= i < |ext| ==> !IsCommit(ext[i], k)
  }

  /** Until the next commit for `k`, the gate answers on it as the reference does. */
  ghost predicate AnswersAlike(h: seq<Event>, k: Key) {
    forall ext: seq<Event>, ev: Event :: IsQuiet(ext, k) && ev.k == k && Timely(h + ext + [ev]) ==>
      Answered(CacheAfter(h + ext), ev) == ReferenceAnswer(h + ext, ev)
  }

  lemma {:induction false} QuietKeepsAgreement(h: seq<Event>, ext: seq<Event>, k: Key, now: int, t: int)
    requires Agrees(h, k, now) && (EntryAfter(h, k).Some? ==> EntryOk(EntryAfter(h, k).value, now))
    requires IsQuiet(ext, k) && Timely(ext) && now <= t && forall i :: 0 <= i < |ext| ==> now <= ext[i].t <= t
    ensures Agrees(h + ext, k, t) && EntryAfter(h + ext, k) == EntryAfter(h, k)
  {
    if ext == [] {
      assert h + ext == h;
    } else {
      var n := |ext| - 1;
      QuietKeepsAgreement(h, ext[..n], k, now, ext[n].t);
      assert h + ext == (h + ext[..n]) + [ext[n]];
      assert !IsCommit(ext[n], k);
      EventKeepsAgreement(h + ext[..n], ext[n], k, t);
      assert (h + ext)[..|h + ext| - 1] == h + ext[..n];
    }
  }

  /** Commits at time `t` for `n` other keys. */
  function Crowd(k: Key, t: int, n: nat): seq<Event> {
    if n == 0 then [] else Crowd(k, t, n - 1) + [Commit(Other(k, n), t, Unknown, t)]
  }

  function Other(k: Key, i: int): Key { (k.0 + "x", i) }

  lemma {:induction false} CrowdIsQuiet(k: Key, t: int, n: nat)
    ensures IsQuiet(Crowd(k, t, n), k) && Timely(Crowd(k, t, n))
    ensures forall i :: 0 <= i < |Crowd(k, t, n)| ==> Crowd(k, t, n)[i].t == t
  {
    if n > 0 {
      CrowdIsQuiet(k, t, n - 1);
      assert |k.0 + "x"| != |k.0|;
    }
  }

  /** Every entry touched at time `t`, and the one committed, are there after a commit at `t`. */
  lemma YoungStay(cache: Cache, k: Key, t: int)
    ensures
      var after := Committed(cache, k, Unknown, t, t);
      && k in after && after[k].at == t
      && forall j :: j in cache && cache[j].at == t ==> j in after && after[j].at == t
  {
  }

  predicate HasCrowd(cache: Cache, k: Key, t: int, n: nat) {
    forall i :: 1 <= i <= n ==> Other(k, i) in cache && cache[Other(k, i)].at == t
  }

  lemma CrowdGrows(cache: Cache, k: Key, t: int, n: nat)
    requires n > 0 && HasCrowd(cache, k, t, n - 1)
    ensures HasCrowd(Committed(cache, Other(k, n), Unknown, t, t), k, t, n)
  {
    YoungStay(cache, Other(k, n), t);
  }

  lemma {:induction false} CacheSnoc(h: seq<Event>, ev: Event)
    ensures CacheAfter(h + [ev]) == Applied(CacheAfter(h), ev)
  {
    var g := h + [ev];
    assert g[..|h|] == h && g[|h|] == ev;
  }

  /** The crowd's entries are too young to be evicted. */
  lemma {:induction false} CrowdStays(h: seq<Event>, k: Key, t: int, n: nat)
    ensures HasCrowd(CacheAfter(h + Crowd(k, t, n)), k, t, n)
  {
    if n > 0 {
      var before, ev := h + Crowd(k, t, n - 1), Commit(Other(k, n), t, Unknown, t);
      CrowdStays(h, k, t, n - 1);
      CrowdGrows(CacheAfter(before), k, t, n);
      CacheSnoc(before, ev);
      assert h + Crowd(k, t, n) == before + [ev];
    }
  }

  lemma {:induction false} CrowdIsLarge(k: Key, n: nat, keys: set<Key>)
    requires forall i :: 1 <= i <= n ==> Other(k, i) in keys
    ensures |keys| >= n
  {
    if n > 0 {
      CrowdIsLarge(k, n - 1, keys - {Other(k, n)});
    }
  }

  /** An entry that a full cache drops while the reference could still serve it. */
  lemma {:induction false} EarlyEvictionShows(h: seq<Event>, k: Key, now: int) returns (ext: seq<Event>, ev: Event)
    requires Timely(h) && Agrees(h, k, now) && forall i :: 0 <= i < |h| ==> h[i].t <= now
    requires EntryAfter(h, k).Some? && EntryAfter(h, k).value.verified
    requires EntryAfter(h, k).value.at < EntryAfter(h, k).value.confirmedAt
    requires now - EntryAfter(h, k).value.confirmedAt < MAX_STALENESS
    ensures IsQuiet(ext, k) && ev.k == k && Timely(h + ext + [ev])
    ensures ReferenceAnswer(h + ext, ev) == Some(Allow) && Answered(CacheAfter(h + ext), ev) != Some(Allow)
  {
    var e := EntryAfter(h, k).value;
    var t := if now < e.at + MAX_STALENESS then e.at + MAX_STALENESS else now;
    ext, ev := Crowd(k, t, CACHE_BOUND + 1), Commit(k, t, Unknown, t);
    CrowdIsQuiet(k, t, CACHE_BOUND + 1);
    TimelyJoin(h, ext, now);
    QuietLeavesEntry(h, ext, k);
    assert e.at < t;
    CrowdStays(h, k, t, CACHE_BOUND + 1);
    CrowdIsLarge(k, CACHE_BOUND + 1, CacheAfter(h + ext).Keys);
    CommitExtends(h + ext, ev);
    EvictedEntry(h + ext, k, t, e);
  }

  lemma TimelyJoin(h: seq<Event>, ext: seq<Event>, now: int)
    requires Timely(h) && Timely(ext) && forall i :: 0 <= i < |h| ==> h[i].t <= now
    requires forall i :: 0 <= i < |ext| ==> now <= ext[i].t
    ensures Timely(h + ext)
  {
  }

  lemma {:induction false} QuietLeavesEntry(h: seq<Event>, ext: seq<Event>, k: Key)
    requires IsQuiet(ext, k)
    ensures EntryAfter(h + ext, k) == EntryAfter(h, k)
    ensures k in CacheAfter(h + ext) ==> k in CacheAfter(h) && CacheAfter(h + ext)[k] == CacheAfter(h)[k]
  {
    if ext == [] {
      assert h + ext == h;
    } else {
      var n := |ext| - 1;
      QuietLeavesEntry(h, ext[..n], k);
      assert !IsCommit(ext[n], k);
      assert (h + ext)[..|h + ext| - 1] == h + ext[..n];
    }
  }

  /** A full cache has or drops only old entries of `k`; either way it does not serve one. */
  lemma EvictedEntry(h: seq<Event>, k: Key, t: int, e: Entry)
    requires |CacheAfter(h)| > CACHE_BOUND && EntryAfter(h, k) == Some(e)
    requires e.verified && t - e.at >= MAX_STALENESS && t - e.confirmedAt < MAX_STALENESS
    requires k in CacheAfter(h) ==> CacheAfter(h)[k] == e
    ensures ReferenceAnswer(h, Commit(k, t, Unknown, t)) == Some(Allow)
    ensures Answered(CacheAfter(h), Commit(k, t, Unknown, t)) != Some(Allow)
  {
    assert k !in Evicted(CacheAfter(h), t);
  }

  lemma {:induction false} EntryTimes(h: seq<Event>, k: Key, now: int)
    requires Timely(h) && (forall i :: 0 <= i < |h| ==> h[i].t <= now) && EntryAfter(h, k).Some?
    ensures EntryAfter(h, k).value.at <= now && EntryAfter(h, k).value.damp < MAX_STALENESS
  {
    var before, ev := h[..|h| - 1], h[|h| - 1];
    assert h == before + [ev];
    TimelyInit(before, ev, k);
    if EntryAfter(before, k).Some? { EntryTimes(before, k, now); }
  }

  lemma TimelySplit(h: seq<Event>, ext: seq<Event>, ev: Event, now: int)
    requires Timely(h + ext + [ev]) && h != [] && h[|h| - 1].t == now
    ensures Timely(ext) && now <= ev.t && forall i :: 0 <= i < |ext| ==> now <= ext[i].t <= ev.t
  {
    var g := h + ext + [ev];
    var last := |h| - 1;
    assert g[last] == h[last] && g[|g| - 1] == ev && last < |g| - 1;
    assert forall i :: 0 <= i < |ext| ==> g[|h| + i] == ext[i];
    forall i | 0 <= i < |ext| ensures now <= ext[i].t <= ev.t {
      assert g[last].t <= g[|h| + i].t <= g[|g| - 1].t;
    }
    forall i, j | 0 <= i < j < |ext| ensures ext[i].t <= ext[j].t {
      assert g[|h| + i].t <= g[|h| + j].t;
    }
    forall i | 0 <= i < |ext| && ext[i].Commit? ensures ext[i].stamp <= ext[i].t {
      assert g[|h| + i].stamp <= g[|h| + i].t;
    }
  }

  /**
   The exact condition.  If the gate has agreed with the reference on `k` so far, it goes on to do so until
   the next commit for `k`, whatever happens on other keys, if and only if the entry of `k` is not a
   living positive that was restamped to a time before its confirmation.
   */
  lemma {:induction false} EvictionIsInvisibleExactlyWhen(h: seq<Event>, k: Key, now: int)
    requires Timely(h) && h != [] && h[|h| - 1].t == now && Agrees(h, k, now) && EntryAfter(h, k).Some?
    ensures
      var e := EntryAfter(h, k).value;
      AnswersAlike(h, k) <==> !(e.verified && e.at < e.confirmedAt && now - e.confirmedAt < MAX_STALENESS)
  {
    var e := EntryAfter(h, k).value;
    EntryTimes(h, k, now);
    if e.verified && e.at < e.confirmedAt && now - e.confirmedAt < MAX_STALENESS {
      var ext, ev := EarlyEvictionShows(h, k, now);
    } else {
      forall ext: seq<Event>, ev: Event | IsQuiet(ext, k) && ev.k == k && Timely(h + ext + [ev])
        ensures Answered(CacheAfter(h + ext), ev) == ReferenceAnswer(h + ext, ev)
      {
        TimelySplit(h, ext, ev, now);
        QuietKeepsAgreement(h, ext, k, now, ev.t);
        AgreementAnswers(h + ext, ev);
      }
    }
  }

  /** It is reached: an unknown answer received before a positive verdict and committed after it. */
  lemma {:induction false} OverlapBackdates(k: Key) returns (h: seq<Event>)
    ensures Timely(h) && Agrees(h, k, 3) && h != [] && h[|h| - 1].t == 3 && !AnswersAlike(h, k)
  {
    var yes, unknown := Commit(k, 2, Verdict(true, ""), 2), Commit(k, 3, Unknown, 1);
    h := [yes, unknown];
    assert h[..1] == [yes] && [yes][..0] == [];
    assert CacheAfter([yes]) == map[k := Entry(true, "", 0, 2, 2)];
    assert EntryAfter([yes], k) == Some(Entry(true, "", 0, 2, 2));
    EvictionIsInvisibleExactlyWhen(h, k, 3);
  }
}
