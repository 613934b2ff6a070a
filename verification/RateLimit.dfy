/**
 * The fixed-window rate limiter of src/common/rate-limit.guard.ts.
 * `Step` says what one request does to the table, `Run` what a whole run does,
 * and the class performs the same steps in place.
 */
module RateLimit {
  import opened Prelude

  /** The three settings; each is read through a check that it is positive. */
  datatype Settings = Settings(ttlMs: nat, limit: nat, maxEntries: nat)
  type Config = c: Settings | c.ttlMs >= 1 && c.limit >= 1 && c.maxEntries >= 1
    witness Settings(60000, 60, 10000)

  const OVERFLOW: string := "\0rate-limit-overflow"

  datatype Window = Window(count: nat, resetAt: nat)

  /** Insertion order is never read, so a plain map stands for the table. */
  datatype Table = Table(hits: map<string, Window>, nextSweepAt: nat)

  const EMPTY := Table(map[], 0)

  /** The answer to one request: the three X-RateLimit headers, and 429 with Retry-After when not allowed. */
  datatype Reply = Reply(bucket: string, window: Window, allowed: bool,
                         limit: nat, remaining: nat, resetSeconds: nat, retryAfter: Option<nat>)

  function CeilSeconds(ms: nat): nat { (ms + 999) / 1000 }

  function Swept(c: Config, t: Table, now: nat): Table {
    if now < t.nextSweepAt then t
    else Table(map k | k in t.hits && t.hits[k].resetAt > now :: t.hits[k], now + c.ttlMs)
  }

  function BucketOf(c: Config, t: Table, client: string): string {
    if client !in t.hits && |t.hits| >= c.maxEntries - 1 then OVERFLOW else client
  }

  function Counted(c: Config, t: Table, bucket: string, now: nat): Window {
    if bucket !in t.hits || t.hits[bucket].resetAt <= now then Window(1, now + c.ttlMs)
    else Window(t.hits[bucket].count + 1, t.hits[bucket].resetAt)
  }

  function Answer(c: Config, bucket: string, w: Window, now: nat): Reply
    requires now < w.resetAt
  {
    var seconds := CeilSeconds(w.resetAt - now);
    var allowed := w.count <= c.limit;
    Reply(bucket, w, allowed, c.limit, if allowed then c.limit - w.count else 0,
          seconds, if allowed then None else Some(seconds))
  }

  function Step(c: Config, t: Table, now: nat, client: string): (Table, Reply) {
    var s := Swept(c, t, now);
    var bucket := BucketOf(c, s, client);
    var w := Counted(c, s, bucket, now);
    (Table(s.hits[bucket := w], s.nextSweepAt), Answer(c, bucket, w, now))
  }

  // ---------------------------------------------------------------- runs

  datatype Request = Request(now: nat, client: string)

  /** What is remembered about a request: its answer, and when the next sweep was due afterwards. */
  datatype Record = Record(now: nat, client: string, reply: Reply, sweepDue: nat)
  {
    function Bucket(): string { reply.bucket }
    function Count(): nat { reply.window.count }
    function End(): nat { reply.window.resetAt }
  }

  ghost predicate Timely(reqs: seq<Request>) {
    forall i, j | 0 <= i < j < |reqs| :: reqs[i].now <= reqs[j].now
  }

  function Run(c: Config, reqs: seq<Request>): (r: (Table, seq<Record>))
    ensures |r.1| == |reqs|
    ensures forall i | 0 <= i < |reqs| :: r.1[i].now == reqs[i].now && r.1[i].client == reqs[i].client
  {
    if reqs == [] then (EMPTY, [])
    else
      var last := reqs[|reqs| - 1];
      var (t, trace) := Run(c, reqs[..|reqs| - 1]);
      var (t', reply) := Step(c, t, last.now, last.client);
      (t', trace + [Record(last.now, last.client, reply, t'.nextSweepAt)])
  }

  // ---------------------------------------------------------------- the run invariant

  /** A request lies in its window, whose first request opened it. */
  ghost predicate InWindow(c: Config, r: Record) {
    && r.now < r.End() <= r.now + c.ttlMs
    && r.Count() >= 1
    && (r.Count() == 1 ==> r.End() == r.now + c.ttlMs)
    && r.reply.allowed == (r.Count() <= c.limit)
    && r.Bucket() in {r.client, OVERFLOW}
    && r.now < r.sweepDue <= r.now + c.ttlMs
  }

  /** A later request in the same bucket is a later one of the same window, or in a window disjoint from it. */
  ghost predicate Follows(c: Config, a: Record, b: Record) {
    (a.End() == b.End() && a.Count() < b.Count()) || a.End() + c.ttlMs <= b.End()
  }

  /** Sweeps are at least ttlMs apart. */
  ghost predicate Spaced(c: Config, before: nat, after: nat) {
    before == after || before + c.ttlMs <= after
  }

  /**
   * A client leaves its own bucket only after a sweep that found its window ended,
   * and comes back only after a later sweep, to a window opened after that.
   */
  ghost predicate Switches(c: Config, a: Record, b: Record) {
    && (a.Bucket() == a.client && b.Bucket() != b.client ==> a.End() + c.ttlMs <= b.sweepDue)
    && (a.Bucket() != a.client && b.Bucket() == b.client ==>
          a.sweepDue < b.sweepDue && a.now + c.ttlMs <= b.End())
  }

  ghost predicate Ordered(c: Config, a: Record, b: Record) {
    && a.now <= b.now
    && Spaced(c, a.sweepDue, b.sweepDue)
    && (a.Bucket() == b.Bucket() ==> Follows(c, a, b))
    && (a.client == b.client ==> Switches(c, a, b))
  }

  ghost predicate TraceOk(c: Config, trace: seq<Record>) {
    && (forall i | 0 <= i < |trace| :: InWindow(c, trace[i]))
    && (forall i, j | 0 <= i < j < |trace| :: Ordered(c, trace[i], trace[j]))
  }

  /** Ties the table to one past request. A bucket that is absent was swept after its last window ended. */
  ghost predicate Linked(c: Config, t: Table, r: Record, now: nat) {
    && r.now <= now
    && Spaced(c, r.sweepDue, t.nextSweepAt)
    && (if r.Bucket() in t.hits then
          var w := t.hits[r.Bucket()];
          (r.End() == w.resetAt && r.Count() <= w.count) || r.End() + c.ttlMs <= w.resetAt
        else
          r.End() + c.ttlMs <= t.nextSweepAt)
    && (r.Bucket() != r.client ==>
          && (r.sweepDue == t.nextSweepAt ==> r.client !in t.hits && |t.hits| >= c.maxEntries - 1)
          && (r.client in t.hits ==> r.now + c.ttlMs <= t.hits[r.client].resetAt))
  }

  ghost predicate AllLinked(c: Config, t: Table, trace: seq<Record>, now: nat) {
    forall i | 0 <= i < |trace| :: Linked(c, t, trace[i], now)
  }

  /** Windows in the table last at most ttlMs from now. */
  ghost predicate Timed(c: Config, t: Table, now: nat) {
    forall b | b in t.hits :: t.hits[b].resetAt <= now + c.ttlMs && t.hits[b].count >= 1
  }

  /** At most maxEntries entries, at most maxEntries - 1 of them besides the overflow bucket. */
  ghost predicate Bounded(c: Config, t: Table) {
    |t.hits| <= c.maxEntries && |t.hits.Keys - {OVERFLOW}| <= c.maxEntries - 1
  }

  ghost predicate Inv(c: Config, t: Table, trace: seq<Record>, now: nat) {
    && (if trace == [] then t == EMPTY else now < t.nextSweepAt <= now + c.ttlMs)
    && Timed(c, t, now)
    && AllLinked(c, t, trace, now)
    && TraceOk(c, trace)
  }

  lemma SweepKeeps(c: Config, t: Table, trace: seq<Record>, before: nat, now: nat)
    requires Inv(c, t, trace, before) && before <= now
    ensures var s := Swept(c, t, now);
            AllLinked(c, s, trace, now) && Timed(c, s, now) && now < s.nextSweepAt <= now + c.ttlMs
  {
    var s := Swept(c, t, now);
    forall i | 0 <= i < |trace| ensures Linked(c, s, trace[i], now) {
      assert Linked(c, t, trace[i], before);
    }
  }

  function Recorded(now: nat, client: string, answer: (Table, Reply)): Record {
    Record(now, client, answer.1, answer.0.nextSweepAt)
  }

  /** One past request against the request now served: `s` is the table just swept. */
  lemma CountKeeps(c: Config, t: Table, now: nat, client: string, past: Record)
    requires var s := Swept(c, t, now);
             Linked(c, s, past, now) && Timed(c, s, now) && now < s.nextSweepAt <= now + c.ttlMs
    requires InWindow(c, past)
    ensures var answer := Step(c, t, now, client);
            Linked(c, answer.0, past, now) && Ordered(c, past, Recorded(now, client, answer))
  {
    CountLinks(c, t, now, client, past);
    CountOrders(c, t, now, client, past);
  }

  lemma CountLinks(c: Config, t: Table, now: nat, client: string, past: Record)
    requires var s := Swept(c, t, now);
             Linked(c, s, past, now) && Timed(c, s, now) && now < s.nextSweepAt <= now + c.ttlMs
    requires InWindow(c, past)
    ensures Linked(c, Step(c, t, now, client).0, past, now)
  {
    var s := Swept(c, t, now);
    var bucket := BucketOf(c, s, client);
    var t' := Step(c, t, now, client).0;
    assert t'.hits.Keys == s.hits.Keys + {bucket};
    SubsetSize(s.hits.Keys, t'.hits.Keys);
  }

  lemma CountOrders(c: Config, t: Table, now: nat, client: string, past: Record)
    requires var s := Swept(c, t, now);
             Linked(c, s, past, now) && Timed(c, s, now) && now < s.nextSweepAt <= now + c.ttlMs
    requires InWindow(c, past)
    ensures Ordered(c, past, Recorded(now, client, Step(c, t, now, client)))
  {
  }

  lemma StepKeeps(c: Config, t: Table, trace: seq<Record>, before: nat, now: nat, client: string)
    requires Inv(c, t, trace, before) && before <= now
    ensures var answer := Step(c, t, now, client);
            Inv(c, answer.0, trace + [Recorded(now, client, answer)], now)
  {
    SweepKeeps(c, t, trace, before, now);
    var answer := Step(c, t, now, client);
    var r := Recorded(now, client, answer);
    forall i | 0 <= i < |trace| ensures Linked(c, answer.0, trace[i], now) && Ordered(c, trace[i], r) {
      CountKeeps(c, t, now, client, trace[i]);
    }
    assert InWindow(c, r) && Linked(c, answer.0, r, now);
  }

  ghost function LastTime(reqs: seq<Request>): nat {
    if reqs == [] then 0 else reqs[|reqs| - 1].now
  }

  lemma {:induction false} RunKeeps(c: Config, reqs: seq<Request>)
    requires Timely(reqs)
    ensures var (t, trace) := Run(c, reqs); Inv(c, t, trace, LastTime(reqs))
  {
    if reqs != [] {
      var before, last := reqs[..|reqs| - 1], reqs[|reqs| - 1];
      RunKeeps(c, before);
      var (t, trace) := Run(c, before);
      StepKeeps(c, t, trace, LastTime(before), last.now, last.client);
    }
  }

  lemma {:induction false} RunBounded(c: Config, reqs: seq<Request>)
    ensures Bounded(c, Run(c, reqs).0)
  {
    if reqs != [] {
      var before, last := reqs[..|reqs| - 1], reqs[|reqs| - 1];
      RunBounded(c, before);
      StepBounded(c, Run(c, before).0, last.now, last.client);
    }
  }

  lemma StepBounded(c: Config, t: Table, now: nat, client: string)
    requires Bounded(c, t)
    ensures Bounded(c, Step(c, t, now, client).0)
  {
    SweepBounded(c, t, now);
    assert Step(c, t, now, client).0.hits.Keys == Swept(c, t, now).hits.Keys + {BucketOf(c, Swept(c, t, now), client)};
    AdmitBounded(c, Swept(c, t, now), Step(c, t, now, client).0, client);
  }

  lemma AdmitBounded(c: Config, s: Table, t: Table, client: string)
    requires Bounded(c, s) && t.hits.Keys == s.hits.Keys + {BucketOf(c, s, client)}
    ensures Bounded(c, t)
  {
    KeysBounded(c, s.hits.Keys, client, BucketOf(c, s, client));
  }

  lemma SweepBounded(c: Config, t: Table, now: nat)
    requires Bounded(c, t)
    ensures Bounded(c, Swept(c, t, now))
  {
    SubsetSize(Swept(c, t, now).hits.Keys, t.hits.Keys);
    SubsetSize(Swept(c, t, now).hits.Keys - {OVERFLOW}, t.hits.Keys - {OVERFLOW});
  }

  lemma KeysBounded(c: Config, keys: set<string>, client: string, bucket: string)
    requires |keys| <= c.maxEntries && |keys - {OVERFLOW}| <= c.maxEntries - 1
    requires bucket == if client !in keys && |keys| >= c.maxEntries - 1 then OVERFLOW else client
    ensures |keys + {bucket}| <= c.maxEntries && |(keys + {bucket}) - {OVERFLOW}| <= c.maxEntries - 1
  {
    if bucket in keys {
      assert keys + {bucket} == keys;
    } else if bucket == OVERFLOW {
      assert (keys + {bucket}) - {OVERFLOW} == keys == keys - {OVERFLOW};
    } else {
      SubsetSize((keys + {bucket}) - {OVERFLOW}, keys + {bucket});
    }
  }

  // ---------------------------------------------------------------- admission bounds

  /** The requests of a trace admitted in the half-open interval of length ttlMs from `a`. */
  ghost predicate AdmittedIn(c: Config, r: Record, a: nat) {
    r.reply.allowed && a <= r.now < a + c.ttlMs
  }

  ghost function AdmittedThrough(c: Config, trace: seq<Record>, bucket: string, a: nat): set<nat> {
    set i: nat | i < |trace| && AdmittedIn(c, trace[i], a) && trace[i].Bucket() == bucket
  }

  ghost function AdmittedFor(c: Config, trace: seq<Record>, client: string, a: nat): set<nat> {
    set i: nat | i < |trace| && AdmittedIn(c, trace[i], a) && trace[i].client == client
  }

  /**
   * Numbers the admissions of one bucket in an interval starting at `a`. At most one window that
   * meets the interval was opened in it, and at most one before it, whose opening request lies outside.
   */
  ghost function Slot(c: Config, r: Record, a: nat): int {
    if r.End() >= a + c.ttlMs then r.Count() - 1 else c.limit + r.Count() - 2
  }

  lemma SlotInRange(c: Config, r: Record, a: nat)
    requires InWindow(c, r) && AdmittedIn(c, r, a)
    ensures 0 <= Slot(c, r, a) < 2 * c.limit - 1
    ensures r.End() >= a + c.ttlMs ==> Slot(c, r, a) < c.limit
  {
  }

  lemma SlotsDiffer(c: Config, x: Record, y: Record, a: nat)
    requires InWindow(c, x) && InWindow(c, y) && Follows(c, x, y)
    requires AdmittedIn(c, x, a) && AdmittedIn(c, y, a)
    ensures Slot(c, x, a) != Slot(c, y, a)
  {
  }

  /** At most 2 * limit - 1 requests, of any clients, are admitted through one bucket in any ttlMs. */
  lemma BucketAdmissions(c: Config, reqs: seq<Request>, bucket: string, a: nat)
    requires Timely(reqs)
    ensures |AdmittedThrough(c, Run(c, reqs).1, bucket, a)| <= 2 * c.limit - 1
  {
    RunKeeps(c, reqs);
    var trace := Run(c, reqs).1;
    var admitted := AdmittedThrough(c, trace, bucket, a);
    forall i | i in admitted ensures 0 <= Slot(c, trace[i], a) < 2 * c.limit - 1 {
      SlotInRange(c, trace[i], a);
    }
    forall i, j | i in admitted && j in admitted && i < j ensures Slot(c, trace[i], a) != Slot(c, trace[j], a) {
      assert Ordered(c, trace[i], trace[j]);
      SlotsDiffer(c, trace[i], trace[j], a);
    }
    var slots: map<nat, nat> := map i | i in admitted :: Slot(c, trace[i], a);
    assert slots.Keys == admitted;
    InjectionBound(slots, 2 * c.limit - 1);
  }

  /** Once a client has used the overflow bucket in the interval, it sees one window of its own bucket. */
  lemma OneOwnWindow(c: Config, x: Record, y: Record, via: Record, a: nat)
    requires x.client == y.client == via.client
    requires x.Bucket() == x.client && y.Bucket() == y.client && via.Bucket() != via.client
    requires InWindow(c, x) && InWindow(c, y) && InWindow(c, via)
    requires AdmittedIn(c, x, a) && AdmittedIn(c, y, a) && AdmittedIn(c, via, a)
    requires Ordered(c, x, y)
    requires Ordered(c, via, x) || (Ordered(c, x, via) && Ordered(c, via, y)) || Ordered(c, y, via)
    ensures x.End() == y.End() && x.Count() < y.Count()
  {
  }

  /** At most 3 * limit - 1 requests of one client are admitted in any ttlMs, whatever buckets they use. */
  lemma ClientAdmissions(c: Config, reqs: seq<Request>, client: string, a: nat)
    requires Timely(reqs)
    ensures |AdmittedFor(c, Run(c, reqs).1, client, a)| <= 3 * c.limit - 1
  {
    RunKeeps(c, reqs);
    var trace := Run(c, reqs).1;
    var admitted := AdmittedFor(c, trace, client, a);
    if via :| via in admitted && trace[via].Bucket() != client {
      MixedAdmissions(c, trace, client, a, via);
    } else {
      BucketAdmissions(c, reqs, client, a);
      SubsetSize(admitted, AdmittedThrough(c, trace, client, a));
    }
  }

  ghost function MixedSlot(c: Config, r: Record, a: nat): int {
    if r.Bucket() == r.client then 2 * c.limit - 2 + r.Count() else Slot(c, r, a)
  }

  lemma MixedAdmissions(c: Config, trace: seq<Record>, client: string, a: nat, via: nat)
    requires TraceOk(c, trace)
    requires via in AdmittedFor(c, trace, client, a) && trace[via].Bucket() != client
    ensures |AdmittedFor(c, trace, client, a)| <= 3 * c.limit - 1
  {
    var admitted := AdmittedFor(c, trace, client, a);
    forall i | i in admitted ensures 0 <= MixedSlot(c, trace[i], a) < 3 * c.limit - 1 {
      SlotInRange(c, trace[i], a);
    }
    forall i, j | i in admitted && j in admitted && i < j
      ensures MixedSlot(c, trace[i], a) != MixedSlot(c, trace[j], a)
    {
      MixedSlotsDiffer(c, trace, client, a, via, i, j);
    }
    var slots: map<nat, nat> := map i | i in admitted :: MixedSlot(c, trace[i], a);
    assert slots.Keys == admitted;
    InjectionBound(slots, 3 * c.limit - 1);
  }

  lemma MixedSlotsDiffer(c: Config, trace: seq<Record>, client: string, a: nat, via: nat, i: nat, j: nat)
    requires TraceOk(c, trace)
    requires {via, i, j} <= AdmittedFor(c, trace, client, a) && trace[via].Bucket() != client && i < j
    ensures MixedSlot(c, trace[i], a) != MixedSlot(c, trace[j], a)
  {
    assert {via, i, j} <= AdmittedFor(c, trace, client, a);
    assert i in AdmittedFor(c, trace, client, a) && j in AdmittedFor(c, trace, client, a);
    assert via in AdmittedFor(c, trace, client, a);
    var x, y, v := trace[i], trace[j], trace[via];
    assert Ordered(c, x, y) && InWindow(c, x) && InWindow(c, y) && InWindow(c, v);
    if x.Bucket() == client && y.Bucket() == client {
      assert via < i ==> Ordered(c, v, x);
      assert i < via ==> Ordered(c, x, v);
      assert via < j ==> Ordered(c, v, y);
      assert j < via ==> Ordered(c, y, v);
      OneOwnWindow(c, x, y, v, a);
    } else if x.Bucket() == y.Bucket() {
      SlotsDiffer(c, x, y, a);
    } else {
      SlotInRange(c, x, a);
      SlotInRange(c, y, a);
    }
  }

  // ---------------------------------------------------------------- Retry-After

  ghost predicate Held(trace: seq<Record>, bucket: string, count: nat, end: nat) {
    exists m | 0 <= m < |trace| :: trace[m].Bucket() == bucket && trace[m].Count() == count && trace[m].End() == end
  }

  /** A request that did not open its window continues an earlier one of that window. */
  ghost predicate Continues(trace: seq<Record>, j: nat)
    requires j < |trace|
  {
    trace[j].Count() > 1 ==> Held(trace[..j], trace[j].Bucket(), trace[j].Count() - 1, trace[j].End())
  }

  ghost predicate Consecutive(t: Table, trace: seq<Record>) {
    && (forall b | b in t.hits :: t.hits[b].count >= 1 && Held(trace, b, t.hits[b].count, t.hits[b].resetAt))
    && (forall j | 0 <= j < |trace| :: Continues(trace, j))
  }

  lemma {:induction false} RunConsecutive(c: Config, reqs: seq<Request>)
    ensures Consecutive(Run(c, reqs).0, Run(c, reqs).1)
  {
    if reqs != [] {
      var before, last := reqs[..|reqs| - 1], reqs[|reqs| - 1];
      RunConsecutive(c, before);
      StepConsecutive(c, Run(c, before).0, Run(c, before).1, last.now, last.client);
    }
  }

  lemma StepConsecutive(c: Config, t: Table, trace: seq<Record>, now: nat, client: string)
    requires Consecutive(t, trace)
    ensures var answer := Step(c, t, now, client);
            Consecutive(answer.0, trace + [Recorded(now, client, answer)])
  {
    var answer := Step(c, t, now, client);
    var trace' := trace + [Recorded(now, client, answer)];
    var bucket := answer.1.bucket;
    forall b | b in answer.0.hits
      ensures Held(trace', b, answer.0.hits[b].count, answer.0.hits[b].resetAt)
    {
      if b == answer.1.bucket {
        assert trace'[|trace|].Bucket() == b;
      } else {
        assert Held(trace, b, t.hits[b].count, t.hits[b].resetAt);
        HeldLonger(trace, trace', b, t.hits[b].count, t.hits[b].resetAt);
      }
    }
    forall j | 0 <= j < |trace'| ensures Continues(trace', j) {
      if j == |trace| {
        assert trace'[..j] == trace;
      } else {
        assert trace'[..j] == trace[..j] && Continues(trace, j);
      }
    }
  }

  lemma HeldLonger(trace: seq<Record>, longer: seq<Record>, bucket: string, count: nat, end: nat)
    requires trace <= longer && Held(trace, bucket, count, end)
    ensures Held(longer, bucket, count, end)
  {
    var m :| 0 <= m < |trace| && trace[m].Bucket() == bucket && trace[m].Count() == count && trace[m].End() == end;
    assert longer[m] == trace[m];
  }

  /**
   * The next request in a throttled bucket is admitted exactly when the window has ended, and then
   * opens a new one. Retry-After is the least whole number of seconds that waits for that.
   */
  lemma RetryAfterExact(c: Config, reqs: seq<Request>, i: nat, j: nat)
    requires Timely(reqs) && i < j < |reqs|
    requires var trace := Run(c, reqs).1;
             && !trace[i].reply.allowed
             && trace[j].Bucket() == trace[i].Bucket()
             && forall m | i < m < j :: trace[m].Bucket() != trace[i].Bucket()
    ensures var x, y := Run(c, reqs).1[i], Run(c, reqs).1[j];
            && x.reply.retryAfter.Some?
            && (y.reply.allowed <==> y.now >= x.End())
            && (y.reply.allowed ==> y.Count() == 1)
            && (y.now >= x.now + 1000 * x.reply.retryAfter.value ==> y.reply.allowed)
            && x.now + 1000 * (x.reply.retryAfter.value - 1) < x.End()
  {
    RunKeeps(c, reqs);
    RunConsecutive(c, reqs);
    RepliesFrom(c, reqs, i);
    var trace := Run(c, reqs).1;
    assert Ordered(c, trace[i], trace[j]) && InWindow(c, trace[i]) && InWindow(c, trace[j]);
    if trace[j].now >= trace[i].End() {
      FreshAfterGap(c, trace, i, j);
    }
  }

  lemma FreshAfterGap(c: Config, trace: seq<Record>, i: nat, j: nat)
    requires TraceOk(c, trace) && i < j < |trace| && Continues(trace, j)
    requires trace[j].Bucket() == trace[i].Bucket() && trace[j].now >= trace[i].End()
    requires forall m | i < m < j :: trace[m].Bucket() != trace[i].Bucket()
    ensures trace[j].Count() == 1
  {
    assert Ordered(c, trace[i], trace[j]) && InWindow(c, trace[j]);
    forall m | 0 <= m < j && trace[m].Bucket() == trace[j].Bucket() ensures trace[m].End() < trace[j].End() {
      if m != i {
        assert Ordered(c, trace[m], trace[i]);
      }
    }
  }

  /** Every reply of a run states its own window's figures. */
  lemma {:induction false} RepliesFrom(c: Config, reqs: seq<Request>, i: nat)
    requires Timely(reqs) && i < |reqs|
    ensures var x := Run(c, reqs).1[i]; x.now < x.End() && x.reply == Answer(c, x.Bucket(), x.reply.window, x.now)
  {
    if i < |reqs| - 1 {
      RepliesFrom(c, reqs[..|reqs| - 1], i);
    }
  }

  /** The earlier requests of the same window of the same bucket. */
  ghost function Earlier(trace: seq<Record>, i: nat): set<nat>
    requires i < |trace|
  {
    set m: nat | m < i && trace[m].Bucket() == trace[i].Bucket() && trace[m].End() == trace[i].End()
  }

  lemma {:induction false} EarlierCount(trace: seq<Record>, i: nat)
    requires i < |trace| && trace[i].Count() >= 1 && forall j | 0 <= j < |trace| :: Continues(trace, j)
    ensures |Earlier(trace, i)| >= trace[i].Count() - 1
    decreases i
  {
    if trace[i].Count() > 1 {
      assert Continues(trace, i);
      var m :| 0 <= m < i && trace[..i][m].Bucket() == trace[i].Bucket()
        && trace[..i][m].Count() == trace[i].Count() - 1
        && trace[..i][m].End() == trace[i].End();
      assert trace[..i][m] == trace[m];
      EarlierCount(trace, m);
      SubsetSize(Earlier(trace, m) + {m}, Earlier(trace, i));
    }
  }

  /** Only a request after at least `limit` others in the same window of its bucket is throttled. */
  lemma {:induction false} ThrottledAfterLimit(c: Config, reqs: seq<Request>, i: nat)
    requires Timely(reqs) && i < |reqs| && !Run(c, reqs).1[i].reply.allowed
    ensures var trace := Run(c, reqs).1;
            && |Earlier(trace, i)| >= c.limit
            && forall m | m in Earlier(trace, i) :: trace[i].End() - c.ttlMs <= trace[m].now <= trace[i].now
  {
    RunKeeps(c, reqs);
    RunConsecutive(c, reqs);
    var trace := Run(c, reqs).1;
    assert InWindow(c, trace[i]);
    EarlierCount(trace, i);
    forall m | m in Earlier(trace, i) ensures trace[i].End() - c.ttlMs <= trace[m].now <= trace[i].now {
      assert InWindow(c, trace[m]) && Ordered(c, trace[m], trace[i]);
    }
  }

  /** Every request of a window raises its count by one. */
  lemma EarlierExact(c: Config, trace: seq<Record>, i: nat)
    requires TraceOk(c, trace) && i < |trace| && forall j | 0 <= j < |trace| :: Continues(trace, j)
    ensures |Earlier(trace, i)| == trace[i].Count() - 1
  {
    assert InWindow(c, trace[i]);
    EarlierCount(trace, i);
    var earlier := Earlier(trace, i);
    forall m | m in earlier ensures 1 <= trace[m].Count() < trace[i].Count() {
      assert InWindow(c, trace[m]) && Ordered(c, trace[m], trace[i]);
    }
    forall m, n | m in earlier && n in earlier && m < n ensures trace[m].Count() != trace[n].Count() {
      assert Ordered(c, trace[m], trace[n]);
    }
    var slots: map<nat, nat> := map m | m in earlier :: trace[m].Count() - 1;
    assert slots.Keys == earlier;
    InjectionBound(slots, trace[i].Count() - 1);
  }

  /**
   * The figures of every reply: a request is admitted exactly when fewer than `limit` others came before it in the
   * window of its bucket, `remaining` is how many more may, and the seconds are those to the end of the window,
   * rounded up.
   */
  lemma FiguresExact(c: Config, reqs: seq<Request>, i: nat)
    requires Timely(reqs) && i < |reqs|
    ensures var x, n := Run(c, reqs).1[i], |Earlier(Run(c, reqs).1, i)|;
            && (x.reply.allowed <==> n < c.limit)
            && x.reply.limit == c.limit && x.reply.remaining == (if n < c.limit then c.limit - n - 1 else 0)
            && 1000 * (x.reply.resetSeconds - 1) < x.End() - x.now <= 1000 * x.reply.resetSeconds
            && x.reply.retryAfter == if n < c.limit then None else Some(x.reply.resetSeconds)
  {
    RunKeeps(c, reqs);
    RunConsecutive(c, reqs);
    EarlierExact(c, Run(c, reqs).1, i);
    RepliesFrom(c, reqs, i);
  }

  /** The buckets whose window counts against the size of the table: once a sweep is due, those that have not ended. */
  ghost function Standing(t: Table, now: nat): set<string> {
    set b | b in t.hits && (now < t.nextSweepAt || now < t.hits[b].resetAt)
  }

  /**
   * A request is counted with others in the overflow bucket exactly when its client has no standing window and
   * maxEntries - 1 others do.
   */
  lemma OverflowExact(c: Config, t: Table, now: nat, client: string)
    requires client != OVERFLOW
    ensures Step(c, t, now, client).1.bucket
         == if client !in Standing(t, now) && |Standing(t, now)| >= c.maxEntries - 1 then OVERFLOW else client
  {
    assert Swept(c, t, now).hits.Keys == Standing(t, now);
    assert |Swept(c, t, now).hits| == |Swept(c, t, now).hits.Keys|;
  }

  // ---------------------------------------------------------------- refinement

  /** The reference limiter: one window for every client that ever came, never swept, no overflow. */
  function ReferenceStep(c: Config, windows: map<string, Window>, now: nat, client: string)
    : (map<string, Window>, Reply)
  {
    var w := if client !in windows || windows[client].resetAt <= now then Window(1, now + c.ttlMs)
             else Window(windows[client].count + 1, windows[client].resetAt);
    (windows[client := w], Answer(c, client, w, now))
  }

  function Reference(c: Config, reqs: seq<Request>): (r: (map<string, Window>, seq<Reply>))
    ensures |r.1| == |reqs|
  {
    if reqs == [] then (map[], [])
    else
      var last := reqs[|reqs| - 1];
      var (windows, replies) := Reference(c, reqs[..|reqs| - 1]);
      var (windows', reply) := ReferenceStep(c, windows, last.now, last.client);
      (windows', replies + [reply])
  }

  function Clients(reqs: seq<Request>): set<string> {
    set i | 0 <= i < |reqs| :: reqs[i].client
  }

  /** The table is the reference without some windows that have ended. */
  ghost predicate Agrees(t: Table, windows: map<string, Window>, now: nat) {
    && (forall k | k in t.hits :: k in windows && windows[k] == t.hits[k])
    && (forall k | k in windows && k !in t.hits :: windows[k].resetAt <= now)
  }

  /** With at most maxEntries - 1 distinct clients, every answer is the one of the reference. */
  lemma {:induction false} RefinesReference(c: Config, reqs: seq<Request>)
    requires Timely(reqs) && |Clients(reqs)| <= c.maxEntries - 1
    ensures Agrees(Run(c, reqs).0, Reference(c, reqs).0, LastTime(reqs))
    ensures Run(c, reqs).0.hits.Keys <= Clients(reqs)
    ensures forall i | 0 <= i < |reqs| :: Run(c, reqs).1[i].reply == Reference(c, reqs).1[i]
  {
    if reqs != [] {
      var before, last := reqs[..|reqs| - 1], reqs[|reqs| - 1];
      assert Clients(before) <= Clients(reqs);
      SubsetSize(Clients(before), Clients(reqs));
      RefinesReference(c, before);
      assert last.client in Clients(reqs);
      RefinesStep(c, Run(c, before).0, Reference(c, before).0, Clients(reqs), LastTime(before), last.now, last.client);
    }
  }

  lemma RefinesStep(c: Config, t: Table, windows: map<string, Window>, clients: set<string>,
                    before: nat, now: nat, client: string)
    requires Agrees(t, windows, before) && before <= now
    requires t.hits.Keys <= clients && client in clients && |clients| <= c.maxEntries - 1
    ensures var (t', reply) := Step(c, t, now, client);
            var (windows', reply') := ReferenceStep(c, windows, now, client);
            reply == reply' && Agrees(t', windows', now) && t'.hits.Keys <= clients
  {
    var s := Swept(c, t, now);
    SubsetSize(s.hits.Keys, clients);
    assert |s.hits| == |s.hits.Keys|;
  }
}
