/** For every limit a run that meets both admission bounds, so neither can be lowered. */
module RateLimitExample {
  import opened RateLimit

  /** Any limit, windows of ten milliseconds, and room for two clients. */
  ghost predicate Fits(c: Config) { c.ttlMs == 10 && c.maxEntries == 3 }

  ghost predicate Different(a: string, b: string, d: string) {
    a != b && a != d && b != d && OVERFLOW !in {a, b, d}
  }

  /**
   * After four requests, `b` comes limit - 1 times at 13 to an old overflow window, limit times at 14 to a
   * new one, and limit times at 20 to its own bucket, which the sweep at 20 made room for.
   */
  function Requests(c: Config, a: string, b: string, d: string): seq<Request> {
    seq(3 * c.limit + 3, n requires 0 <= n < 3 * c.limit + 3 => RequestAt(c, a, b, d, n))
  }

  function RequestAt(c: Config, a: string, b: string, d: string, n: nat): Request {
    if n == 0 then Request(0, a)
    else if n == 1 then Request(0, d)
    else if n == 2 then Request(4, b)
    else if n == 3 then Request(10, a)
    else if n < c.limit + 3 then Request(13, b)
    else if n < 2 * c.limit + 3 then Request(14, b)
    else Request(20, b)
  }

  /** The table before request n. */
  function Tables(c: Config, a: string, b: string, d: string, n: nat): Table {
    if n == 0 then EMPTY
    else if n == 1 then Table(map[a := Window(1, 10)], 10)
    else if n == 2 then Table(map[a := Window(1, 10), d := Window(1, 10)], 10)
    else if n == 3 then Table(map[a := Window(1, 10), d := Window(1, 10), OVERFLOW := Window(1, 14)], 10)
    else if n <= c.limit + 3 then Table(map[a := Window(1, 20), OVERFLOW := Window(n - 3, 14)], 20)
    else if n <= 2 * c.limit + 3 then Table(map[a := Window(1, 20), OVERFLOW := Window(n - c.limit - 3, 24)], 20)
    else Table(map[b := Window(n - 2 * c.limit - 3, 30), OVERFLOW := Window(c.limit, 24)], 30)
  }

  function BucketAt(c: Config, a: string, b: string, d: string, n: nat): string {
    if n == 2 || 4 <= n < 2 * c.limit + 3 then OVERFLOW else RequestAt(c, a, b, d, n).client
  }

  lemma Serve(c: Config, t: Table, now: nat, client: string, s: map<string, Window>, bucket: string, t': Table)
    requires Fits(c)
    requires t.nextSweepAt > now ==> s == t.hits && t'.nextSweepAt == t.nextSweepAt
    requires t.nextSweepAt <= now ==> s == Swept(c, t, now).hits && t'.nextSweepAt == now + 10
    requires bucket == if client !in s && |s| >= 2 then OVERFLOW else client
    requires t'.hits == s[bucket := Counted(c, Table(s, t'.nextSweepAt), bucket, now)]
    ensures Step(c, t, now, client).0 == t' && Step(c, t, now, client).1.bucket == bucket
    ensures Step(c, t, now, client).1.allowed <==> t'.hits[bucket].count <= c.limit
  {
  }

  /** Request n takes the n-th table to the next one, through its bucket, and is admitted. */
  ghost predicate StepAt(c: Config, a: string, b: string, d: string, n: nat) {
    var r := RequestAt(c, a, b, d, n);
    var (t, reply) := Step(c, Tables(c, a, b, d, n), r.now, r.client);
    t == Tables(c, a, b, d, n + 1) && reply.bucket == BucketAt(c, a, b, d, n) && reply.allowed
  }

  lemma EarlySteps(c: Config, a: string, b: string, d: string, n: nat)
    requires Fits(c) && Different(a, b, d) && n < 4
    ensures StepAt(c, a, b, d, n)
  {
    var r, t := RequestAt(c, a, b, d, n), Tables(c, a, b, d, n);
    var s := if n == 3 then map[OVERFLOW := Window(1, 14)] else t.hits;
    Serve(c, t, r.now, r.client, s, if n == 2 then OVERFLOW else r.client, Tables(c, a, b, d, n + 1));
  }

  lemma OverflowSteps(c: Config, a: string, b: string, d: string, n: nat)
    requires Fits(c) && Different(a, b, d) && 4 <= n < 2 * c.limit + 3
    ensures StepAt(c, a, b, d, n)
  {
    var r, t := RequestAt(c, a, b, d, n), Tables(c, a, b, d, n);
    Serve(c, t, r.now, r.client, t.hits, OVERFLOW, Tables(c, a, b, d, n + 1));
  }

  lemma OwnSteps(c: Config, a: string, b: string, d: string, n: nat)
    requires Fits(c) && Different(a, b, d) && 2 * c.limit + 3 <= n < 3 * c.limit + 3
    ensures StepAt(c, a, b, d, n)
  {
    var r, t := RequestAt(c, a, b, d, n), Tables(c, a, b, d, n);
    var s := if n == 2 * c.limit + 3 then map[OVERFLOW := Window(c.limit, 24)] else t.hits;
    Serve(c, t, r.now, r.client, s, b, Tables(c, a, b, d, n + 1));
  }

  /** Request i went as planned. */
  ghost predicate Planned(c: Config, a: string, b: string, d: string, trace: seq<Record>, i: nat)
    requires i < |trace|
  {
    var r := RequestAt(c, a, b, d, i);
    && trace[i].now == r.now && trace[i].client == r.client
    && trace[i].Bucket() == BucketAt(c, a, b, d, i) && trace[i].reply.allowed
  }

  /** So did the run up to request n. */
  lemma {:induction false} Prefix(c: Config, a: string, b: string, d: string, reqs: seq<Request>)
    requires Fits(c) && Different(a, b, d) && reqs <= Requests(c, a, b, d)
    ensures Run(c, reqs).0 == Tables(c, a, b, d, |reqs|)
    ensures forall i: nat | i < |reqs| :: Planned(c, a, b, d, Run(c, reqs).1, i)
  {
    if reqs != [] {
      var n := |reqs| - 1;
      Prefix(c, a, b, d, reqs[..n]);
      AllSteps(c, a, b, d, n);
      assert reqs[n] == RequestAt(c, a, b, d, n);
      LastPlanned(c, a, b, d, reqs);
    }
  }

  lemma {:induction false} LastPlanned(c: Config, a: string, b: string, d: string, reqs: seq<Request>)
    requires reqs != []
    requires var n := |reqs| - 1;
             && reqs[n] == RequestAt(c, a, b, d, n) && StepAt(c, a, b, d, n)
             && Run(c, reqs[..n]).0 == Tables(c, a, b, d, n)
             && forall i: nat | i < n :: Planned(c, a, b, d, Run(c, reqs[..n]).1, i)
    ensures Run(c, reqs).0 == Tables(c, a, b, d, |reqs|)
    ensures forall i: nat | i < |reqs| :: Planned(c, a, b, d, Run(c, reqs).1, i)
  {
    var n := |reqs| - 1;
    var before, trace := Run(c, reqs[..n]).1, Run(c, reqs).1;
    assert trace[..n] == before;
    forall i: nat | i < |reqs| ensures Planned(c, a, b, d, trace, i) {
      if i < n {
        assert Planned(c, a, b, d, before, i) && trace[i] == before[i];
      }
    }
  }

  lemma AllSteps(c: Config, a: string, b: string, d: string, i: nat)
    requires Fits(c) && Different(a, b, d) && i < 3 * c.limit + 3
    ensures StepAt(c, a, b, d, i)
  {
    if i < 4 {
      EarlySteps(c, a, b, d, i);
    } else if i < 2 * c.limit + 3 {
      OverflowSteps(c, a, b, d, i);
    } else {
      OwnSteps(c, a, b, d, i);
    }
  }

  /** The indices from m up to n. */
  ghost function Between(m: nat, n: nat): (r: set<nat>)
    ensures forall i: nat :: i in r <==> m <= i < n
    ensures |r| == if m < n then n - m else 0
  {
    if n <= m then {} else Between(m, n - 1) + {n - 1}
  }

  /** From request 4 on they all come in the interval, from `b`, at first through the overflow bucket. */
  ghost predicate Expected(c: Config, b: string, trace: seq<Record>, i: nat)
    requires i < |trace|
  {
    && (AdmittedIn(c, trace[i], 13) <==> i >= 4)
    && (i >= 4 ==> trace[i].client == b && (trace[i].Bucket() == OVERFLOW <==> i < 2 * c.limit + 3))
  }

  lemma From13(c: Config, a: string, b: string, d: string, trace: seq<Record>, i: nat)
    requires Fits(c) && Different(a, b, d) && i < |trace| == 3 * c.limit + 3 && Planned(c, a, b, d, trace, i)
    ensures Expected(c, b, trace, i)
  {
  }

  lemma {:induction false} ThroughSize(c: Config, trace: seq<Record>, b: string)
    requires Fits(c) && |trace| == 3 * c.limit + 3 && forall i: nat | i < |trace| :: Expected(c, b, trace, i)
    ensures |AdmittedThrough(c, trace, OVERFLOW, 13)| == 2 * c.limit - 1
  {
    var m := 2 * c.limit + 3;
    forall i: nat ensures i in AdmittedThrough(c, trace, OVERFLOW, 13) <==> i in Between(4, m) {
      assert i < |trace| ==> Expected(c, b, trace, i);
    }
    assert AdmittedThrough(c, trace, OVERFLOW, 13) == Between(4, m);
  }

  lemma {:induction false} ForSize(c: Config, trace: seq<Record>, b: string)
    requires Fits(c) && |trace| == 3 * c.limit + 3 && forall i: nat | i < |trace| :: Expected(c, b, trace, i)
    ensures |AdmittedFor(c, trace, b, 13)| == 3 * c.limit - 1
  {
    forall i: nat ensures i in AdmittedFor(c, trace, b, 13) <==> i in Between(4, |trace|) {
      assert i < |trace| ==> Expected(c, b, trace, i);
    }
    assert AdmittedFor(c, trace, b, 13) == Between(4, |trace|);
  }

  lemma TimelyRequests(c: Config, a: string, b: string, d: string)
    requires Fits(c)
    ensures Timely(Requests(c, a, b, d))
  {
  }

  /** For every limit, both bounds are met by one run, between 13 and 23. */
  lemma {:induction false} BoundsAreMet(c: Config, a: string, b: string, d: string)
    requires Fits(c) && Different(a, b, d)
    ensures Timely(Requests(c, a, b, d))
    ensures |AdmittedThrough(c, Run(c, Requests(c, a, b, d)).1, OVERFLOW, 13)| == 2 * c.limit - 1
    ensures |AdmittedFor(c, Run(c, Requests(c, a, b, d)).1, b, 13)| == 3 * c.limit - 1
  {
    var trace := Run(c, Requests(c, a, b, d)).1;
    TimelyRequests(c, a, b, d);
    Prefix(c, a, b, d, Requests(c, a, b, d));
    forall i: nat | i < |trace| ensures Expected(c, b, trace, i) {
      From13(c, a, b, d, trace, i);
    }
    ThroughSize(c, trace, b);
    ForSize(c, trace, b);
  }
}
