/**
 * The replay cache of src/common/replay-protection.service.ts: a bounded, insertion-ordered map from
 * nonces to the time they may be forgotten, swept only when half full, oldest entry evicted.
 */
module Replay {
  import opened Prelude
  import opened Json
  import opened JsMaps
  import opened Recency
  import T = Text

  datatype Settings = Settings(required: bool, maxSkewMs: nat, maxEntries: nat)
  type Config = c: Settings | c.maxSkewMs >= 1 && c.maxEntries >= 1 witness Settings(false, 60000, 10000)

  datatype Stamp = NoStamp | Num(n: Number) | Text(s: string)

  /** The two fields read here. `Date.parse` is a parameter, None for NaN. */
  datatype Payload = Payload(nonce: Option<string>, stamp: Stamp)

  type DateParse = string -> Option<int>

  const SECONDS_THRESHOLD: real := 1000000000000.0
  const MAX_SAFE_INTEGER: nat := 9007199254740991

  function Milliseconds(value: real): real {
    if value < SECONDS_THRESHOLD then value * 1000.0 else value
  }

  function ParseTimestamp(dateParse: DateParse, v: Stamp): Option<real> {
    match v
    case NoStamp => None
    case Num(NotFinite) => None
    case Num(Finite(value)) => Some(Milliseconds(value))
    case Text(s) =>
      if s != "" && T.AllDigits(s) then
        if T.DecimalValue(s) > MAX_SAFE_INTEGER then None else Some(Milliseconds(T.DecimalValue(s) as real))
      else
        var parsed := dateParse(s);
        if parsed.None? then None else Some(parsed.value as real)
  }

  lemma DigitsRead(dateParse: DateParse, n: nat)
    requires n <= MAX_SAFE_INTEGER
    ensures ParseTimestamp(dateParse, Text(T.Decimal(n))) == Some(Milliseconds(n as real))
  {
    T.DecimalText(n);
  }

  /** A time from 2001 on reads alike in seconds and in milliseconds, as a number and as a text. */
  lemma SameInstant(dateParse: DateParse, seconds: nat)
    requires SECONDS_THRESHOLD <= 1000.0 * seconds as real && 1000 * seconds <= MAX_SAFE_INTEGER
    requires (seconds as real) < SECONDS_THRESHOLD
    ensures var instant := Some(1000.0 * seconds as real);
            && ParseTimestamp(dateParse, Stamp.Num(Finite(seconds as real))) == instant
            && ParseTimestamp(dateParse, Stamp.Num(Finite((1000 * seconds) as real))) == instant
            && ParseTimestamp(dateParse, Text(T.Decimal(seconds))) == instant
            && ParseTimestamp(dateParse, Text(T.Decimal(1000 * seconds))) == instant
  {
    DigitsRead(dateParse, seconds);
    DigitsRead(dateParse, 1000 * seconds);
    InMilliseconds(seconds);
  }

  lemma InMilliseconds(seconds: nat)
    requires SECONDS_THRESHOLD <= 1000.0 * seconds as real && (seconds as real) < SECONDS_THRESHOLD
    ensures Milliseconds(seconds as real) == Milliseconds((1000 * seconds) as real) == 1000.0 * seconds as real
  {
    assert (1000 * seconds) as real == 1000.0 * seconds as real;
  }

  predicate NonceOk(nonce: string) {
    16 <= |nonce| <= 128 && forall i | 0 <= i < |nonce| :: '!' <= nonce[i] <= '~'
  }

  datatype Verdict = NotRequired | Accepted | NonceInvalid | TimestampInvalid | Expired | Replayed

  type Seen = JsMap<string, nat>

  function Swept(c: Config, seen: Seen, now: nat): Seen {
    if 2 * seen.Size() < c.maxEntries then seen
    else seen.Keep(set k | k in seen.dict && seen.dict[k] > now)
  }

  function Trim(c: Config, t: Seen): Seen {
    if t.Size() > c.maxEntries && t.keys != [] then t.Delete(t.keys[0]) else t
  }

  /** The part that touches the cache, for a well-formed and timely nonce. */
  function Consult(c: Config, seen: Seen, nonce: string, now: nat): (Seen, Verdict) {
    var s := Swept(c, seen, now);
    if nonce in s.dict && s.dict[nonce] > now then (s, Replayed)
    else (Trim(c, s.Set(nonce, now + c.maxSkewMs)), Accepted)
  }

  predicate TimelyStamp(c: Config, stamp: real, now: nat) {
    -(c.maxSkewMs as real) <= now as real - stamp <= c.maxSkewMs as real
  }

  /** The checks before the cache, in the source's order; None when they all pass. */
  function Precheck(c: Config, dateParse: DateParse, payload: Payload, now: nat): Option<Verdict> {
    if !c.required then Some(NotRequired)
    else if payload.nonce.None? || !NonceOk(payload.nonce.value) then Some(NonceInvalid)
    else
      var stamp := ParseTimestamp(dateParse, payload.stamp);
      if stamp.None? then Some(TimestampInvalid)
      else if !TimelyStamp(c, stamp.value, now) then Some(Expired)
      else None
  }

  function Judge(c: Config, dateParse: DateParse, seen: Seen, payload: Payload, now: nat): (Seen, Verdict) {
    var early := Precheck(c, dateParse, payload, now);
    if early.Some? then (seen, early.value) else Consult(c, seen, payload.nonce.value, now)
  }

  // ---------------------------------------------------------------- the checks before the cache

  /** The nonce is a text of 16 to 128 visible ASCII characters. */
  predicate Fits(nonce: Option<string>) {
    nonce.Some? && 16 <= |nonce.value| <= 128 && forall c | c in nonce.value :: 33 <= c as int <= 126
  }

  /**
   * The instant a timestamp stands for: a number below 10^12 counts seconds, any other milliseconds; digits that
   * are no safe integer stand for none, and every other text for what `Date.parse` makes of it.
   */
  ghost predicate StandsFor(dateParse: DateParse, stamp: Stamp, t: real) {
    match stamp
    case NoStamp => false
    case Num(NotFinite) => false
    case Num(Finite(n)) => t == if n < 1000000000000.0 then 1000.0 * n else n
    case Text(s) =>
      if s == "" || exists c | c in s :: c !in "0123456789" then
        dateParse(s).Some? && t == dateParse(s).value as real
      else
        var n := T.DecimalValue(s);
        n <= 9007199254740991 && t == if n < 1000000000000 then (1000 * n) as real else n as real
  }

  lemma StandsIff(dateParse: DateParse, stamp: Stamp, t: real)
    ensures ParseTimestamp(dateParse, stamp) == Some(t) <==> StandsFor(dateParse, stamp, t)
  {
    if stamp.Text? {
      DigitsIff(stamp.s);
    }
  }

  lemma DigitsIff(s: string)
    ensures T.AllDigits(s) <==> forall c | c in s :: c in "0123456789"
  {
    forall i | 0 <= i < |s| ensures '0' <= s[i] <= '9' <==> s[i] in "0123456789" {
      IsDigit(s[i]);
    }
    if forall c | c in s :: c in "0123456789" {
      assert forall i | 0 <= i < |s| :: s[i] in s;
    }
  }

  lemma IsDigit(c: char)
    ensures '0' <= c <= '9' <==> c in "0123456789"
  {
    var digits := "0123456789";
    if '0' <= c <= '9' {
      assert digits[c as int - '0' as int] == c;
    }
  }

  /**
   * What each verdict means: protection is off, the nonce does not fit, the timestamp stands for no instant, or for
   * one more than maxSkewMs away; otherwise the cache decides.
   */
  lemma VerdictIs(c: Config, dateParse: DateParse, seen: Seen, payload: Payload, now: nat)
    ensures var v := Judge(c, dateParse, seen, payload, now).1;
            && (v == NotRequired <==> !c.required)
            && (v == NonceInvalid <==> c.required && !Fits(payload.nonce))
            && (v == TimestampInvalid <==>
                  c.required && Fits(payload.nonce) && !exists t :: StandsFor(dateParse, payload.stamp, t))
            && (v == Expired <==> c.required && Fits(payload.nonce) && exists t ::
                  StandsFor(dateParse, payload.stamp, t)
                  && (t > (now + c.maxSkewMs) as real || now as real > t + c.maxSkewMs as real))
  {
    FitsIff(payload.nonce);
    var stamp := ParseTimestamp(dateParse, payload.stamp);
    forall t ensures stamp == Some(t) <==> StandsFor(dateParse, payload.stamp, t) {
      StandsIff(dateParse, payload.stamp, t);
    }
    if stamp.Some? {
      assert StandsFor(dateParse, payload.stamp, stamp.value);
    }
  }

  lemma FitsIff(nonce: Option<string>)
    ensures Fits(nonce) <==> nonce.Some? && NonceOk(nonce.value)
  {
    if nonce.Some? {
      assert forall i | 0 <= i < |nonce.value| :: nonce.value[i] in nonce.value;
    }
  }

  // ---------------------------------------------------------------- what was accepted

  /** When a nonce was last accepted, and the keys then standing after it in the cache. */
  datatype Mark = Mark(at: nat, behind: set<string>)

  /** The accepted nonces in order, and the last acceptance of each. */
  datatype Past = Past(log: seq<string>, last: map<string, Mark>)

  ghost predicate After(keys: seq<string>, a: string, b: string) {
    exists i, j | 0 <= i < j < |keys| :: keys[i] == a && keys[j] == b
  }

  ghost function Behind(keys: seq<string>, k: string): set<string> {
    set x | x in keys && After(keys, k, x)
  }

  ghost function Recall(p: Past, seen: Seen, nonce: string, now: nat): Past {
    Past(p.log + [nonce], p.last[nonce := Mark(now, Behind(seen.keys, nonce))])
  }

  /** Whether `b` may stand after `a`: accepted since `a`, or already there when `a` was accepted in place. */
  ghost predicate MayFollow(p: Past, a: string, b: string) {
    b in Since(p.log, a) || (a in p.last && b in p.last[a].behind)
  }

  ghost predicate Placed(keys: seq<string>, p: Past) {
    Pairwise(keys, (a: string, b: string) => MayFollow(p, a, b))
  }

  /** How many keys can have come to stand after `k`. */
  ghost function Pressure(p: Past, k: string): nat
    requires k in p.last
  {
    |Since(p.log, k)| + |p.last[k].behind|
  }

  ghost predicate Remembers(c: Config, seen: Seen, p: Past, now: nat) {
    seen.Size() <= c.maxEntries && Accounts(c, seen, p, now)
  }

  ghost predicate Accounts(c: Config, seen: Seen, p: Past, now: nat) {
    && seen.Valid()
    && Placed(seen.keys, p)
    && (forall k | k in seen.dict :: k in p.last)
    && (forall k | k in p.last :: Accounted(c, seen.dict, p, k, now))
  }

  /** A nonce is in the cache until its time is over, or until maxEntries keys could have pushed it out. */
  ghost predicate Accounted(c: Config, dict: map<string, nat>, p: Past, k: string, now: nat)
    requires k in p.last
  {
    var m := p.last[k];
    && m.at <= now
    && (m.behind == {} || 2 * (|m.behind| + 1) < c.maxEntries)
    && (if k in dict then dict[k] == m.at + c.maxSkewMs
        else m.at + c.maxSkewMs <= now || Pressure(p, k) >= c.maxEntries)
  }

  /** A sweep drops what has expired exactly when the cache is at least half full, however recent the last one. */
  lemma SweepIff(c: Config, seen: Seen, now: nat, k: string)
    requires seen.Valid() && k in seen.dict
    ensures k !in Swept(c, seen, now).dict <==> seen.dict[k] <= now && 2 * seen.Size() >= c.maxEntries
  {
  }

  lemma KeepPlaced(c: Config, seen: Seen, p: Past, s: set<string>)
    requires seen.Valid() && Placed(seen.keys, p)
    ensures seen.Keep(s).Valid() && Placed(seen.Keep(s).keys, p) && seen.Keep(s).Size() <= seen.Size()
  {
    seen.KeepValid(s);
    SelectNoLonger(seen.keys, s);
    SelectPairwise(seen.keys, s, (a: string, b: string) => MayFollow(p, a, b));
  }

  lemma SweepKeeps(c: Config, seen: Seen, p: Past, before: nat, now: nat)
    requires Remembers(c, seen, p, before) && before <= now
    ensures Remembers(c, Swept(c, seen, now), p, now)
    ensures forall k | k in Swept(c, seen, now).dict && Swept(c, seen, now).dict[k] <= now ::
              2 * Swept(c, seen, now).Size() < c.maxEntries
  {
    KeepPlaced(c, seen, p, set k | k in seen.dict && seen.dict[k] > now);
  }

  lemma BehindSize(seen: Seen, nonce: string)
    requires seen.Valid() && nonce in seen.dict
    ensures |Behind(seen.keys, nonce)| < seen.Size()
  {
    seen.SizeIsCount();
    assert Behind(seen.keys, nonce) <= seen.dict.Keys - {nonce};
    SubsetSize(Behind(seen.keys, nonce), seen.dict.Keys - {nonce});
  }

  /** Accepting a nonce keeps every other key's place justified, and justifies its own. */
  lemma SetPlaced(seen: Seen, p: Past, nonce: string, at: nat, now: nat)
    requires seen.Valid() && Placed(seen.keys, p)
    ensures Placed(seen.Set(nonce, at).keys, Recall(p, seen, nonce, now))
  {
    var keys, p' := seen.Set(nonce, at).keys, Recall(p, seen, nonce, now);
    var follows := (a: string, b: string) => MayFollow(p, a, b);
    forall i, j | 0 <= i < j < |keys| ensures MayFollow(p', keys[i], keys[j]) {
      SinceLonger(p.log, nonce, keys[i]);
      if j < |seen.keys| {
        assert follows(keys[i], keys[j]);
      }
    }
  }

  /** What is pushed out of a full cache had maxEntries keys after it. */
  lemma OldestPressed(c: Config, t: Seen, p: Past)
    requires t.Valid() && t.Size() == c.maxEntries + 1 && Placed(t.keys, p) && t.keys[0] in p.last
    ensures Pressure(p, t.keys[0]) >= c.maxEntries
  {
    var oldest := t.keys[0];
    var follows := (a: string, b: string) => MayFollow(p, a, b);
    t.SizeIsCount();
    var others := Since(p.log, oldest) + p.last[oldest].behind;
    forall k | k in t.dict.Keys - {oldest} ensures k in others {
      var i :| 0 <= i < |t.keys| && t.keys[i] == k;
      assert follows(oldest, t.keys[i]);
    }
    SubsetSize(t.dict.Keys - {oldest}, others);
  }

  lemma SetAccounted(c: Config, seen: Seen, p: Past, nonce: string, now: nat, k: string)
    requires Accounts(c, seen, p, now) && k != nonce && k in p.last
    ensures Accounted(c, seen.dict[nonce := now + c.maxSkewMs], Recall(p, seen, nonce, now), k, now)
  {
    var p' := Recall(p, seen, nonce, now);
    assert Accounted(c, seen.dict, p, k, now);
    SinceLonger(p.log, nonce, k);
    SubsetSize(Since(p.log, k), Since(p'.log, k));
  }

  lemma OwnAccounted(c: Config, seen: Seen, p: Past, nonce: string, now: nat)
    requires seen.Valid() && (nonce in seen.dict ==> 2 * seen.Size() < c.maxEntries)
    ensures Accounted(c, seen.dict[nonce := now + c.maxSkewMs], Recall(p, seen, nonce, now), nonce, now)
  {
    if nonce in seen.dict {
      BehindSize(seen, nonce);
    } else {
      assert Behind(seen.keys, nonce) == {};
    }
  }

  lemma {:induction false} SetKeeps(c: Config, seen: Seen, p: Past, nonce: string, now: nat)
    requires Accounts(c, seen, p, now)
    requires nonce in seen.dict ==> 2 * seen.Size() < c.maxEntries
    ensures Accounts(c, seen.Set(nonce, now + c.maxSkewMs), Recall(p, seen, nonce, now), now)
  {
    var t, p' := seen.Set(nonce, now + c.maxSkewMs), Recall(p, seen, nonce, now);
    seen.SetValid(nonce, now + c.maxSkewMs);
    SetPlaced(seen, p, nonce, now + c.maxSkewMs, now);
    forall k | k in p'.last ensures Accounted(c, t.dict, p', k, now) {
      if k == nonce {
        OwnAccounted(c, seen, p, nonce, now);
      } else {
        SetAccounted(c, seen, p, nonce, now, k);
      }
    }
  }

  lemma EvictKeeps(c: Config, t: Seen, p: Past, now: nat)
    requires Accounts(c, t, p, now) && t.Size() == c.maxEntries + 1
    ensures Remembers(c, t.Delete(t.keys[0]), p, now)
  {
    OldestPressed(c, t, p);
    KeepPlaced(c, t, p, t.dict.Keys - {t.keys[0]});
    SelectNoLonger(t.keys[1..], t.dict.Keys - {t.keys[0]});
  }

  lemma NewIsLast(seen: Seen, nonce: string, at: nat)
    requires seen.Valid() && nonce !in seen.dict && seen.Size() >= 1
    ensures nonce in seen.Set(nonce, at).Delete(seen.Set(nonce, at).keys[0]).dict
  {
    assert seen.keys[0] in seen.dict;
  }

  /** The table after `set`, and after evicting its oldest entry if that made it too large. */
  lemma Trimmed(c: Config, t: Seen, p: Past, now: nat)
    requires Accounts(c, t, p, now) && t.Size() <= c.maxEntries + 1
    ensures Remembers(c, Trim(c, t), p, now)
  {
    if t.Size() > c.maxEntries {
      EvictKeeps(c, t, p, now);
    }
  }

  lemma AdmitKeeps(c: Config, seen: Seen, p: Past, nonce: string, now: nat)
    requires Remembers(c, seen, p, now)
    requires nonce in seen.dict ==> 2 * seen.Size() < c.maxEntries
    ensures Remembers(c, Trim(c, seen.Set(nonce, now + c.maxSkewMs)), Recall(p, seen, nonce, now), now)
  {
    SetKeeps(c, seen, p, nonce, now);
    Trimmed(c, seen.Set(nonce, now + c.maxSkewMs), Recall(p, seen, nonce, now), now);
  }

  lemma AdmitPresent(c: Config, seen: Seen, nonce: string, now: nat)
    requires seen.Valid() && seen.Size() <= c.maxEntries
    ensures nonce in Trim(c, seen.Set(nonce, now + c.maxSkewMs)).dict
  {
    if nonce !in seen.dict && seen.Size() >= 1 {
      NewIsLast(seen, nonce, now + c.maxSkewMs);
    }
  }

  /** The nonce is in the cache, with time left, after the sweep. */
  predicate Live(c: Config, seen: Seen, nonce: string, now: nat) {
    var s := Swept(c, seen, now);
    nonce in s.dict && s.dict[nonce] > now
  }

  /** A refusal keeps the cache's account of what was accepted. */
  lemma ConsultRefuses(c: Config, seen: Seen, p: Past, nonce: string, before: nat, now: nat)
    requires Remembers(c, seen, p, before) && before <= now && Live(c, seen, nonce, now)
    ensures Consult(c, seen, nonce, now).1 == Replayed && Remembers(c, Consult(c, seen, nonce, now).0, p, now)
  {
    SweepKeeps(c, seen, p, before, now);
  }

  lemma SweptFor(c: Config, seen: Seen, p: Past, nonce: string, before: nat, now: nat)
    requires Remembers(c, seen, p, before) && before <= now && !Live(c, seen, nonce, now)
    ensures var s := Swept(c, seen, now); Remembers(c, s, p, now) && (nonce in s.dict ==> 2 * s.Size() < c.maxEntries)
  {
    SweepKeeps(c, seen, p, before, now);
  }

  lemma AcceptedIs(c: Config, seen: Seen, nonce: string, now: nat)
    requires !Live(c, seen, nonce, now)
    ensures Consult(c, seen, nonce, now) == (Trim(c, Swept(c, seen, now).Set(nonce, now + c.maxSkewMs)), Accepted)
  {
  }

  /** So does an acceptance, which leaves the nonce in the cache. */
  lemma {:induction false} ConsultAccepts(c: Config, seen: Seen, p: Past, nonce: string, before: nat, now: nat)
    requires Remembers(c, seen, p, before) && before <= now && !Live(c, seen, nonce, now)
    ensures Consult(c, seen, nonce, now).1 == Accepted && nonce in Consult(c, seen, nonce, now).0.dict
    ensures Remembers(c, Consult(c, seen, nonce, now).0, Recall(p, Swept(c, seen, now), nonce, now), now)
  {
    var s := Swept(c, seen, now);
    SweptFor(c, seen, p, nonce, before, now);
    AcceptedIs(c, seen, nonce, now);
    AdmitKeeps(c, s, p, nonce, now);
    AdmitPresent(c, s, nonce, now);
  }

  /** A nonce accepted less than maxSkewMs ago, and not under pressure, is refused. */
  lemma Retained(c: Config, seen: Seen, p: Past, nonce: string, before: nat, now: nat)
    requires Remembers(c, seen, p, before) && before <= now
    requires nonce in p.last && now < p.last[nonce].at + c.maxSkewMs
    requires Pressure(p, nonce) < c.maxEntries
    ensures Consult(c, seen, nonce, now).1 == Replayed
  {
  }

  /** How many other acceptances a nonce survives that was accepted again in its old place. */
  function Spared(c: Config): nat { c.maxEntries / 2 + 1 }

  /**
   * Up to that many other acceptances are not enough pressure; nor, for a nonce newly inserted, fewer than
   * maxEntries.
   */
  lemma LittlePressure(c: Config, seen: Seen, p: Past, nonce: string, now: nat)
    requires Remembers(c, seen, p, now) && nonce in p.last
    requires |Since(p.log, nonce)| < c.maxEntries
    requires |Since(p.log, nonce)| <= Spared(c) || p.last[nonce].behind == {}
    ensures Pressure(p, nonce) < c.maxEntries
  {
    assert Accounted(c, seen.dict, p, nonce, now);
  }

  // ---------------------------------------------------------------- runs

  datatype Call = Call(payload: Payload, now: nat)
  {
    function Nonce(): string { if payload.nonce.Some? then payload.nonce.value else "" }
  }

  ghost predicate Timely(calls: seq<Call>) {
    forall i, j | 0 <= i < j < |calls| :: calls[i].now <= calls[j].now
  }

  ghost function LastTime(calls: seq<Call>): nat {
    if calls == [] then 0 else calls[|calls| - 1].now
  }

  datatype History = History(seen: Seen, past: Past, verdicts: seq<Verdict>)

  ghost function Serve(c: Config, dateParse: DateParse, h: History, call: Call): History {
    var (seen, v) := Judge(c, dateParse, h.seen, call.payload, call.now);
    History(seen,
            if v == Accepted then Recall(h.past, Swept(c, h.seen, call.now), call.Nonce(), call.now) else h.past,
            h.verdicts + [v])
  }

  ghost function Run(c: Config, dateParse: DateParse, calls: seq<Call>): (h: History)
    ensures |h.verdicts| == |calls|
  {
    if calls == [] then History(EmptyMap(), Past([], map[]), [])
    else Serve(c, dateParse, Run(c, dateParse, calls[..|calls| - 1]), calls[|calls| - 1])
  }

  /** In every run the cache holds at most maxEntries nonces and accounts for every acceptance. */
  lemma {:induction false} RunRemembers(c: Config, dateParse: DateParse, calls: seq<Call>)
    requires Timely(calls)
    ensures var h := Run(c, dateParse, calls);
            Remembers(c, h.seen, h.past, LastTime(calls))
            && (calls != [] && h.verdicts[|calls| - 1] == Accepted ==> calls[|calls| - 1].Nonce() in h.seen.dict)
  {
    if calls != [] {
      var before, call := calls[..|calls| - 1], calls[|calls| - 1];
      RunRemembers(c, dateParse, before);
      var h := Run(c, dateParse, before);
      ServeKeeps(c, dateParse, h, call, LastTime(before));
    }
  }

  lemma {:induction false} JudgeRefuses(c: Config, dateParse: DateParse, seen: Seen, p: Past, call: Call, before: nat)
    requires Remembers(c, seen, p, before) && before <= call.now
    requires Judge(c, dateParse, seen, call.payload, call.now).1 != Accepted
    ensures Remembers(c, Judge(c, dateParse, seen, call.payload, call.now).0, p, call.now)
  {
    if Precheck(c, dateParse, call.payload, call.now).None? {
      ConsultRefuses(c, seen, p, call.Nonce(), before, call.now);
    }
  }

  lemma {:induction false} JudgeAccepts(c: Config, dateParse: DateParse, seen: Seen, p: Past, call: Call, before: nat)
    requires Remembers(c, seen, p, before) && before <= call.now
    requires Judge(c, dateParse, seen, call.payload, call.now).1 == Accepted
    ensures var seen' := Judge(c, dateParse, seen, call.payload, call.now).0;
            && call.Nonce() in seen'.dict
            && Remembers(c, seen', Recall(p, Swept(c, seen, call.now), call.Nonce(), call.now), call.now)
  {
    JudgeIsConsult(c, dateParse, seen, call);
    ConsultAccepts(c, seen, p, call.Nonce(), before, call.now);
  }

  lemma JudgeIsConsult(c: Config, dateParse: DateParse, seen: Seen, call: Call)
    requires Judge(c, dateParse, seen, call.payload, call.now).1 == Accepted
    ensures Judge(c, dateParse, seen, call.payload, call.now) == Consult(c, seen, call.Nonce(), call.now)
    ensures !Live(c, seen, call.Nonce(), call.now)
  {
  }

  lemma {:induction false} ServeKeeps(c: Config, dateParse: DateParse, h: History, call: Call, before: nat)
    requires Remembers(c, h.seen, h.past, before) && before <= call.now
    ensures var h' := Serve(c, dateParse, h, call);
            && Remembers(c, h'.seen, h'.past, call.now)
            && (h'.verdicts[|h.verdicts|] == Accepted ==> call.Nonce() in h'.seen.dict)
  {
    if Judge(c, dateParse, h.seen, call.payload, call.now).1 == Accepted {
      JudgeAccepts(c, dateParse, h.seen, h.past, call, before);
    } else {
      JudgeRefuses(c, dateParse, h.seen, h.past, call, before);
    }
  }

  lemma {:induction false} RunPrefix(c: Config, dateParse: DateParse, calls: seq<Call>, n: nat)
    requires n <= |calls|
    ensures Run(c, dateParse, calls[..n]).verdicts == Run(c, dateParse, calls).verdicts[..n]
  {
    if n == |calls| {
      assert calls[..n] == calls;
    } else {
      RunPrefix(c, dateParse, calls[..|calls| - 1], n);
      assert calls[..|calls| - 1][..n] == calls[..n];
    }
  }

  ghost predicate AcceptedAt(calls: seq<Call>, verdicts: seq<Verdict>, i: int, nonce: string)
    requires |calls| == |verdicts|
  {
    0 <= i < |calls| && verdicts[i] == Accepted && calls[i].Nonce() == nonce
  }

  /** The other nonces accepted strictly between two calls. */
  ghost function Others(calls: seq<Call>, verdicts: seq<Verdict>, i: int, j: int, nonce: string): set<string>
    requires |calls| == |verdicts| && j <= |calls|
  {
    set m | 0 <= m < |calls| && i < m < j && verdicts[m] == Accepted && calls[m].Nonce() != nonce :: calls[m].Nonce()
  }

  /** The nonce of call i was not in the cache when it was accepted. */
  ghost predicate Inserted(c: Config, dateParse: DateParse, calls: seq<Call>, i: nat)
    requires i < |calls|
  {
    calls[i].Nonce() !in Swept(c, Run(c, dateParse, calls[..i]).seen, calls[i].now).dict
  }

  lemma OthersLonger(calls: seq<Call>, verdicts: seq<Verdict>, i: int, nonce: string)
    requires |calls| == |verdicts| && 0 <= i < |calls| - 1
    ensures var n := |calls| - 1;
            Others(calls, verdicts, i, n + 1, nonce) == Others(calls[..n], verdicts[..n], i, n, nonce)
              + Added(verdicts[n], calls[n], nonce)
  {
    var n := |calls| - 1;
    var all, before := Others(calls, verdicts, i, n + 1, nonce), Others(calls[..n], verdicts[..n], i, n, nonce);
    forall x | x in all ensures x in before || (verdicts[n] == Accepted && x == calls[n].Nonce()) {
      var m :| 0 <= m < |calls| && i < m < n + 1 && verdicts[m] == Accepted && calls[m].Nonce() == x;
      if m < n {
        assert calls[..n][m] == calls[m] && verdicts[..n][m] == verdicts[m];
      }
    }
    forall x | x in before ensures x in all {
      var m :| 0 <= m < n && i < m < n && verdicts[..n][m] == Accepted && calls[..n][m].Nonce() == x;
      assert calls[m].Nonce() == x;
    }
  }

  /** Accepted last at `at`, the given nonces accepted since, and nothing behind it if it was inserted then. */
  ghost predicate MarkedIn(past: Past, nonce: string, at: nat, others: set<string>, inserted: bool) {
    && nonce in past.last && past.last[nonce].at == at && Since(past.log, nonce) == others
    && (inserted ==> past.last[nonce].behind == {})
  }

  ghost predicate Remembered(c: Config, dateParse: DateParse, calls: seq<Call>, i: nat, nonce: string)
    requires i < |calls|
  {
    var h := Run(c, dateParse, calls);
    MarkedIn(h.past, nonce, calls[i].now, Others(calls, h.verdicts, i, |calls|, nonce),
      Inserted(c, dateParse, calls, i))
  }

  lemma {:induction false} JustAccepted(c: Config, dateParse: DateParse, calls: seq<Call>)
    requires Timely(calls) && calls != []
    requires Run(c, dateParse, calls).verdicts[|calls| - 1] == Accepted
    ensures Remembered(c, dateParse, calls, |calls| - 1, calls[|calls| - 1].Nonce())
  {
    var n := |calls| - 1;
    var before, nonce := calls[..n], calls[n].Nonce();
    var h, h' := Run(c, dateParse, before), Run(c, dateParse, calls);
    RunRemembers(c, dateParse, before);
    SweepKeeps(c, h.seen, h.past, LastTime(before), calls[n].now);
    SinceLonger(h.past.log, nonce, nonce);
    assert Others(calls, h'.verdicts, n, |calls|, nonce) == {};
    var s := Swept(c, h.seen, calls[n].now);
    if nonce !in s.dict {
      assert Behind(s.keys, nonce) == {};
    }
  }

  lemma {:induction false} StillMarked(c: Config, dateParse: DateParse, h: History, call: Call, nonce: string, at: nat,
                                       others: set<string>, inserted: bool)
    requires MarkedIn(h.past, nonce, at, others, inserted)
    requires Judge(c, dateParse, h.seen, call.payload, call.now).1 == Accepted ==> call.Nonce() != nonce
    ensures var v := Judge(c, dateParse, h.seen, call.payload, call.now).1;
            MarkedIn(Serve(c, dateParse, h, call).past, nonce, at, others + Added(v, call, nonce), inserted)
  {
    SinceLonger(h.past.log, call.Nonce(), nonce);
  }

  lemma {:induction false} InsertedBefore(c: Config, dateParse: DateParse, calls: seq<Call>, i: nat)
    requires i < |calls| - 1
    ensures Inserted(c, dateParse, calls[..|calls| - 1], i) == Inserted(c, dateParse, calls, i)
  {
    assert calls[..|calls| - 1][..i] == calls[..i];
  }

  /** The nonce a call adds to those accepted since, if it does. */
  ghost function Added(v: Verdict, call: Call, nonce: string): set<string> {
    if v == Accepted && call.Nonce() != nonce then {call.Nonce()} else {}
  }

  lemma {:induction false} LaterOthers(c: Config, dateParse: DateParse, calls: seq<Call>, i: nat, nonce: string)
    requires i < |calls| - 1
    ensures var n, v := |calls| - 1, Run(c, dateParse, calls).verdicts;
            Others(calls, v, i, n + 1, nonce)
              == Others(calls[..n], Run(c, dateParse, calls[..n]).verdicts, i, n, nonce) + Added(v[n], calls[n], nonce)
  {
    var n, v := |calls| - 1, Run(c, dateParse, calls).verdicts;
    assert v[..n] == Run(c, dateParse, calls[..n]).verdicts;
    OthersLonger(calls, v, i, nonce);
  }

  lemma {:induction false} LaterMark(c: Config, dateParse: DateParse, calls: seq<Call>, i: nat, nonce: string, at: nat,
                                     inserted: bool)
    requires i < |calls| - 1 && !AcceptedAt(calls, Run(c, dateParse, calls).verdicts, |calls| - 1, nonce)
    requires var before := calls[..|calls| - 1];
             var h := Run(c, dateParse, before);
             MarkedIn(h.past, nonce, at, Others(before, h.verdicts, i, |before|, nonce), inserted)
    ensures var h := Run(c, dateParse, calls);
            MarkedIn(h.past, nonce, at, Others(calls, h.verdicts, i, |calls|, nonce), inserted)
  {
    var before := calls[..|calls| - 1];
    var h := Run(c, dateParse, before);
    StillMarked(c, dateParse, h, calls[|calls| - 1], nonce, at, Others(before, h.verdicts, i, |before|, nonce),
      inserted);
    LaterOthers(c, dateParse, calls, i, nonce);
  }

  /** One more call that does not accept the nonce leaves it remembered. */
  lemma {:induction false} StillRemembered(c: Config, dateParse: DateParse, calls: seq<Call>, i: nat, nonce: string)
    requires i < |calls| - 1 && Remembered(c, dateParse, calls[..|calls| - 1], i, nonce)
    requires !AcceptedAt(calls, Run(c, dateParse, calls).verdicts, |calls| - 1, nonce)
    ensures Remembered(c, dateParse, calls, i, nonce)
  {
    InsertedBefore(c, dateParse, calls, i);
    LaterMark(c, dateParse, calls, i, nonce, calls[i].now, Inserted(c, dateParse, calls, i));
  }

  /** What the history says of a nonce whose last acceptance was call i. */
  lemma {:induction false} LastAcceptance(c: Config, dateParse: DateParse, calls: seq<Call>, i: nat, nonce: string)
    requires Timely(calls)
    requires var v := Run(c, dateParse, calls).verdicts;
             AcceptedAt(calls, v, i, nonce) && forall m | i < m < |calls| :: !AcceptedAt(calls, v, m, nonce)
    ensures Remembered(c, dateParse, calls, i, nonce)
  {
    var n := |calls| - 1;
    if i == n {
      JustAccepted(c, dateParse, calls);
    } else {
      var before := calls[..n];
      forall m: nat | i <= m < n
        ensures AcceptedAt(before, Run(c, dateParse, before).verdicts, m, nonce)
             == AcceptedAt(calls, Run(c, dateParse, calls).verdicts, m, nonce)
      {
        AcceptedInPrefix(c, dateParse, calls, n, m, nonce);
      }
      LastAcceptance(c, dateParse, before, i, nonce);
      StillRemembered(c, dateParse, calls, i, nonce);
    }
  }

  // ---------------------------------------------------------------- retention

  lemma {:induction false} VerdictAt(c: Config, dateParse: DateParse, calls: seq<Call>, j: nat)
    requires j < |calls|
    ensures Run(c, dateParse, calls).verdicts[j]
         == Judge(c, dateParse, Run(c, dateParse, calls[..j]).seen, calls[j].payload, calls[j].now).1
  {
    RunPrefix(c, dateParse, calls, j + 1);
    LastVerdict(c, dateParse, calls[..j + 1]);
    assert calls[..j + 1][..j] == calls[..j];
  }

  /** The last step of a run. */
  lemma {:induction false} LastVerdict(c: Config, dateParse: DateParse, calls: seq<Call>)
    requires calls != []
    ensures var n := |calls| - 1;
            var h, h' := Run(c, dateParse, calls[..n]), Run(c, dateParse, calls);
            && h'.verdicts[..n] == h.verdicts
            && (h'.seen, h'.verdicts[n]) == Judge(c, dateParse, h.seen, calls[n].payload, calls[n].now)
  {
  }

  /**
   * Fewer than maxEntries other nonces accepted in between, and no more than are spared unless the nonce was
   * inserted.
   */
  ghost predicate Quiet(c: Config, dateParse: DateParse, calls: seq<Call>, i: nat, j: nat)
    requires i < j <= |calls|
  {
    var others := |Others(calls, Run(c, dateParse, calls).verdicts, i, j, calls[i].Nonce())|;
    others < c.maxEntries && (others <= Spared(c) || Inserted(c, dateParse, calls, i))
  }

  lemma {:induction false} OthersOfPrefix(c: Config, dateParse: DateParse, calls: seq<Call>, i: nat, j: nat,
                                          nonce: string)
    requires j <= |calls|
    ensures Others(calls[..j], Run(c, dateParse, calls[..j]).verdicts, i, j, nonce)
         == Others(calls, Run(c, dateParse, calls).verdicts, i, j, nonce)
  {
    RunPrefix(c, dateParse, calls, j);
    var v := Run(c, dateParse, calls).verdicts;
    var short, long := Others(calls[..j], v[..j], i, j, nonce), Others(calls, v, i, j, nonce);
    forall x | x in long ensures x in short {
      var m :| 0 <= m < |calls| && i < m < j && v[m] == Accepted && calls[m].Nonce() == x && x != nonce;
      assert calls[..j][m] == calls[m] && v[..j][m] == v[m];
    }
    forall x | x in short ensures x in long {
      var m :| 0 <= m < j && i < m < j && v[..j][m] == Accepted && calls[..j][m].Nonce() == x && x != nonce;
      assert calls[m].Nonce() == x && v[m] == Accepted;
    }
  }

  lemma {:induction false} QuietOfPrefix(c: Config, dateParse: DateParse, calls: seq<Call>, i: nat, j: nat)
    requires i < j <= |calls| && Quiet(c, dateParse, calls, i, j)
    ensures Quiet(c, dateParse, calls[..j], i, j)
  {
    OthersOfPrefix(c, dateParse, calls, i, j, calls[i].Nonce());
    assert calls[..j][..i] == calls[..i];
  }

  lemma {:induction false} AcceptedInPrefix(c: Config, dateParse: DateParse, calls: seq<Call>, j: nat, m: nat,
                                            nonce: string)
    requires m < j <= |calls|
    ensures AcceptedAt(calls[..j], Run(c, dateParse, calls[..j]).verdicts, m, nonce)
         == AcceptedAt(calls, Run(c, dateParse, calls).verdicts, m, nonce)
  {
    RunPrefix(c, dateParse, calls, j);
    assert calls[..j][m] == calls[m];
  }

  lemma {:induction false} RetainedSinceLast(c: Config, dateParse: DateParse, calls: seq<Call>, i: nat, j: nat)
    requires Timely(calls) && i < j < |calls|
    requires var v := Run(c, dateParse, calls).verdicts;
             AcceptedAt(calls, v, i, calls[j].Nonce())
               && forall m | i < m < j :: !AcceptedAt(calls, v, m, calls[j].Nonce())
    requires calls[j].now < calls[i].now + c.maxSkewMs && Quiet(c, dateParse, calls, i, j)
    ensures Run(c, dateParse, calls).verdicts[j] != Accepted
  {
    var nonce, before := calls[j].Nonce(), calls[..j];
    forall m: nat | i <= m < j
      ensures AcceptedAt(before, Run(c, dateParse, before).verdicts, m, nonce)
           == AcceptedAt(calls, Run(c, dateParse, calls).verdicts, m, nonce)
    {
      AcceptedInPrefix(c, dateParse, calls, j, m, nonce);
    }
    LastAcceptance(c, dateParse, before, i, nonce);
    QuietOfPrefix(c, dateParse, calls, i, j);
    RetainedNext(c, dateParse, before, i, calls[j]);
    VerdictAt(c, dateParse, calls, j);
  }

  /** The call after a run, when the run remembers call i and little came since. */
  lemma {:induction false} RetainedNext(c: Config, dateParse: DateParse, before: seq<Call>, i: nat, call: Call)
    requires Timely(before) && i < |before| && LastTime(before) <= call.now < before[i].now + c.maxSkewMs
    requires before[i].Nonce() == call.Nonce() && Remembered(c, dateParse, before, i, call.Nonce())
    requires Quiet(c, dateParse, before, i, |before|)
    ensures Judge(c, dateParse, Run(c, dateParse, before).seen, call.payload, call.now).1 != Accepted
  {
    var h := Run(c, dateParse, before);
    RunRemembers(c, dateParse, before);
    QuietMark(c, dateParse, before, i);
    QuietlyRetained(c, h.seen, h.past, call.Nonce(), LastTime(before), call.now);
    OnlyConsultAccepts(c, dateParse, h.seen, call);
  }

  /** What a quiet run remembers of a nonce. */
  lemma {:induction false} QuietMark(c: Config, dateParse: DateParse, calls: seq<Call>, i: nat)
    requires i < |calls| && Remembered(c, dateParse, calls, i, calls[i].Nonce())
      && Quiet(c, dateParse, calls, i, |calls|)
    ensures var p, nonce := Run(c, dateParse, calls).past, calls[i].Nonce();
            && nonce in p.last && p.last[nonce].at == calls[i].now && |Since(p.log, nonce)| < c.maxEntries
            && (|Since(p.log, nonce)| <= Spared(c) || p.last[nonce].behind == {})
  {
  }

  lemma OnlyConsultAccepts(c: Config, dateParse: DateParse, seen: Seen, call: Call)
    requires Consult(c, seen, call.Nonce(), call.now).1 == Replayed
    ensures Judge(c, dateParse, seen, call.payload, call.now).1 != Accepted
  {
  }

  lemma QuietlyRetained(c: Config, seen: Seen, p: Past, nonce: string, before: nat, now: nat)
    requires Remembers(c, seen, p, before) && before <= now
    requires nonce in p.last && now < p.last[nonce].at + c.maxSkewMs
    requires |Since(p.log, nonce)| < c.maxEntries
    requires |Since(p.log, nonce)| <= Spared(c) || p.last[nonce].behind == {}
    ensures Consult(c, seen, nonce, now).1 == Replayed
  {
    LittlePressure(c, seen, p, nonce, before);
    Retained(c, seen, p, nonce, before, now);
  }

  /** A nonce accepted at call i is refused in every call within maxSkewMs, while the calls in between are quiet. */
  lemma {:induction false} Retention(c: Config, dateParse: DateParse, calls: seq<Call>, i: nat, j: nat)
    requires Timely(calls) && i < j < |calls|
    requires AcceptedAt(calls, Run(c, dateParse, calls).verdicts, i, calls[j].Nonce())
    requires calls[j].now < calls[i].now + c.maxSkewMs && Quiet(c, dateParse, calls, i, j)
    ensures Run(c, dateParse, calls).verdicts[j] != Accepted
    ensures Precheck(c, dateParse, calls[j].payload, calls[j].now).None? ==>
              Run(c, dateParse, calls).verdicts[j] == Replayed
    decreases j
  {
    var v := Run(c, dateParse, calls).verdicts;
    if m: nat :| i < m < j && AcceptedAt(calls, v, m, calls[j].Nonce()) {
      var near, far := Others(calls, v, i, m, calls[j].Nonce()), Others(calls, v, i, j, calls[j].Nonce());
      assert near <= far;
      SubsetSize(near, far);
      Retention(c, dateParse, calls, i, m);
    } else {
      RetainedSinceLast(c, dateParse, calls, i, j);
      VerdictAt(c, dateParse, calls, j);
    }
  }

  // ---------------------------------------------------------------- and nothing else is refused as replayed

  lemma {:induction false} MarksAreAcceptances(c: Config, dateParse: DateParse, calls: seq<Call>, k: string)
    requires k in Run(c, dateParse, calls).past.last
    ensures exists i :: AcceptedAt(calls, Run(c, dateParse, calls).verdicts, i, k)
                        && calls[i].now == Run(c, dateParse, calls).past.last[k].at
  {
    var n, v := |calls| - 1, Run(c, dateParse, calls).verdicts;
    if AcceptedAt(calls, v, n, k) {
    } else {
      var before := calls[..n];
      MarksAreAcceptances(c, dateParse, before, k);
      var i :| AcceptedAt(before, Run(c, dateParse, before).verdicts, i, k)
        && before[i].now == Run(c, dateParse, before).past.last[k].at;
      assert before[i] == calls[i] && v[i] == Run(c, dateParse, before).verdicts[i];
    }
  }

  /** A call is refused as a replay only when its nonce was accepted less than maxSkewMs before. */
  lemma {:induction false} ReplayedOnlyAfter(c: Config, dateParse: DateParse, calls: seq<Call>, j: nat)
    requires Timely(calls) && j < |calls| && Run(c, dateParse, calls).verdicts[j] == Replayed
    ensures exists i :: i < j && AcceptedAt(calls, Run(c, dateParse, calls).verdicts, i, calls[j].Nonce())
                        && calls[j].now < calls[i].now + c.maxSkewMs
  {
    var before, nonce := calls[..j], calls[j].Nonce();
    var h := Run(c, dateParse, before);
    VerdictAt(c, dateParse, calls, j);
    RunRemembers(c, dateParse, before);
    StillCached(c, h.seen, h.past, nonce, LastTime(before), calls[j].now);
    MarksAreAcceptances(c, dateParse, before, nonce);
    var i: nat :| AcceptedAt(before, h.verdicts, i, nonce) && before[i].now == h.past.last[nonce].at;
    AcceptedInPrefix(c, dateParse, calls, j, i, nonce);
    assert before[i] == calls[i];
  }

  lemma StillCached(c: Config, seen: Seen, p: Past, nonce: string, before: nat, now: nat)
    requires Remembers(c, seen, p, before) && Consult(c, seen, nonce, now).1 == Replayed
    ensures nonce in p.last && now < p.last[nonce].at + c.maxSkewMs
  {
    assert Accounted(c, seen.dict, p, nonce, before);
  }

  // ---------------------------------------------------------------- how often one request is accepted

  /** Between any two acceptances of the nonce with none in between, the run is quiet. */
  ghost predicate QuietFor(c: Config, dateParse: DateParse, calls: seq<Call>, nonce: string) {
    var v := Run(c, dateParse, calls).verdicts;
    forall i: nat, j: nat | i < j < |calls| && AcceptedAt(calls, v, i, nonce) && AcceptedAt(calls, v, j, nonce)
      && (forall m: nat | i < m < j :: !AcceptedAt(calls, v, m, nonce)) :: Quiet(c, dateParse, calls, i, j)
  }

  /** Then its acceptances are at least maxSkewMs apart. */
  lemma {:induction false} Spaced(c: Config, dateParse: DateParse, calls: seq<Call>, nonce: string, i: nat, j: nat)
    requires Timely(calls) && QuietFor(c, dateParse, calls, nonce) && i < j < |calls|
    requires var v := Run(c, dateParse, calls).verdicts;
             AcceptedAt(calls, v, i, nonce) && AcceptedAt(calls, v, j, nonce)
    ensures calls[j].now >= calls[i].now + c.maxSkewMs
    decreases j - i
  {
    var v := Run(c, dateParse, calls).verdicts;
    if m: nat :| i < m < j && AcceptedAt(calls, v, m, nonce) {
      Spaced(c, dateParse, calls, nonce, i, m);
    } else if calls[j].now < calls[i].now + c.maxSkewMs {
      Retention(c, dateParse, calls, i, j);
    }
  }

  /** Every earlier acceptance of the nonce was at least maxSkewMs ago. */
  ghost predicate SpacedFrom(c: Config, dateParse: DateParse, calls: seq<Call>, j: nat)
    requires j < |calls|
  {
    forall m: nat | m < j && AcceptedAt(calls, Run(c, dateParse, calls).verdicts, m, calls[j].Nonce()) ::
      calls[m].now + c.maxSkewMs <= calls[j].now
  }

  /** So a call gets through exactly when it comes that long after every acceptance of its nonce. */
  lemma {:induction false} AcceptedIffSpaced(c: Config, dateParse: DateParse, calls: seq<Call>, j: nat)
    requires Timely(calls) && j < |calls| && QuietFor(c, dateParse, calls, calls[j].Nonce())
    ensures Run(c, dateParse, calls).verdicts[j] == Accepted
       <==> Precheck(c, dateParse, calls[j].payload, calls[j].now).None? && SpacedFrom(c, dateParse, calls, j)
  {
    var v := Run(c, dateParse, calls).verdicts;
    VerdictAt(c, dateParse, calls, j);
    if v[j] == Accepted {
      forall m: nat | m < j && AcceptedAt(calls, v, m, calls[j].Nonce())
        ensures calls[m].now + c.maxSkewMs <= calls[j].now
      {
        Spaced(c, dateParse, calls, calls[j].Nonce(), m, j);
      }
    } else if v[j] == Replayed {
      ReplayedOnlyAfter(c, dateParse, calls, j);
    }
  }

  /** The acceptances of one nonce with one timestamp. */
  ghost function AcceptancesOf(c: Config, dateParse: DateParse, calls: seq<Call>, nonce: string, stamp: Stamp)
    : set<nat>
  {
    set i: nat | i < |calls| && AcceptedAt(calls, Run(c, dateParse, calls).verdicts, i, nonce)
      && calls[i].payload.stamp == stamp
  }

  lemma {:induction false} AcceptedInTime(c: Config, dateParse: DateParse, calls: seq<Call>, i: nat)
    requires i < |calls| && Run(c, dateParse, calls).verdicts[i] == Accepted
    ensures ParseTimestamp(dateParse, calls[i].payload.stamp).Some?
    ensures TimelyStamp(c, ParseTimestamp(dateParse, calls[i].payload.stamp).value, calls[i].now)
  {
    VerdictAt(c, dateParse, calls, i);
  }

  /** One nonce with one timestamp is accepted at most three times in a run quiet for that nonce. */
  lemma {:induction false} AtMostThree(c: Config, dateParse: DateParse, calls: seq<Call>, nonce: string, stamp: Stamp)
    requires Timely(calls) && QuietFor(c, dateParse, calls, nonce)
    ensures |AcceptancesOf(c, dateParse, calls, nonce, stamp)| <= 3
  {
    var times := AcceptancesOf(c, dateParse, calls, nonce, stamp);
    if i :| i in times {
      AcceptedInTime(c, dateParse, calls, i);
      var t := ParseTimestamp(dateParse, stamp).value;
      var slots: map<nat, nat> := map k | k in times :: Third(c, t, calls[k].now);
      forall k | k in times ensures TimelyStamp(c, t, calls[k].now) {
        AcceptedInTime(c, dateParse, calls, k);
      }
      forall k, l | k in times && l in times && k < l ensures slots[k] != slots[l] {
        Spaced(c, dateParse, calls, nonce, k, l);
      }
      assert slots.Keys == times;
      InjectionBound(slots, 3);
    }
  }

  /** The half of the window around the timestamp in which a time lies; its last instant counts on its own. */
  ghost function Third(c: Config, stamp: real, now: nat): nat {
    if now as real < stamp then 0 else if (now as real) < stamp + c.maxSkewMs as real then 1 else 2
  }

  /** A request is accepted once if its timestamp lies strictly before the first acceptance. */
  lemma {:induction false} OnceIfStampEarlier(c: Config, dateParse: DateParse, calls: seq<Call>, i: nat, j: nat)
    requires Timely(calls) && i < j < |calls| && QuietFor(c, dateParse, calls, calls[i].Nonce())
    requires Run(c, dateParse, calls).verdicts[i] == Accepted
    requires calls[j].payload == calls[i].payload
    requires ParseTimestamp(dateParse, calls[i].payload.stamp).Some?
    requires ParseTimestamp(dateParse, calls[i].payload.stamp).value < calls[i].now as real
    ensures Run(c, dateParse, calls).verdicts[j] != Accepted
  {
    if Run(c, dateParse, calls).verdicts[j] == Accepted {
      Spaced(c, dateParse, calls, calls[i].Nonce(), i, j);
      AcceptedInTime(c, dateParse, calls, j);
    }
  }

  // ---------------------------------------------------------------- when a request is accepted again

  /** The nonce of call j was last accepted at call i, and the run is quiet in between. */
  ghost predicate LastQuietly(c: Config, dateParse: DateParse, calls: seq<Call>, i: nat, j: nat)
    requires i < j < |calls|
  {
    var v, nonce := Run(c, dateParse, calls).verdicts, calls[j].Nonce();
    && AcceptedAt(calls, v, i, nonce) && (forall m | i < m < j :: !AcceptedAt(calls, v, m, nonce))
    && Quiet(c, dateParse, calls, i, j)
  }

  lemma {:induction false} OnlyReplayed(c: Config, dateParse: DateParse, calls: seq<Call>, j: nat)
    requires j < |calls|
    ensures var v := Run(c, dateParse, calls).verdicts[j];
            v == Accepted <==> Precheck(c, dateParse, calls[j].payload, calls[j].now).None? && v != Replayed
  {
    VerdictAt(c, dateParse, calls, j);
  }

  lemma {:induction false} NoLongerReplayed(c: Config, dateParse: DateParse, calls: seq<Call>, i: nat, j: nat)
    requires Timely(calls) && i < j < |calls| && calls[i].now + c.maxSkewMs <= calls[j].now
    requires forall m | i < m < j :: !AcceptedAt(calls, Run(c, dateParse, calls).verdicts, m, calls[j].Nonce())
    ensures Run(c, dateParse, calls).verdicts[j] != Replayed
  {
    if Run(c, dateParse, calls).verdicts[j] == Replayed {
      ReplayedOnlyAfter(c, dateParse, calls, j);
      assert false;
    }
  }

  /** The cache lets a nonce through again exactly from maxSkewMs after it last did. */
  lemma {:induction false} AcceptedAgainIff(c: Config, dateParse: DateParse, calls: seq<Call>, i: nat, j: nat)
    requires Timely(calls) && i < j < |calls| && LastQuietly(c, dateParse, calls, i, j)
    ensures Run(c, dateParse, calls).verdicts[j] == Accepted
       <==> Precheck(c, dateParse, calls[j].payload, calls[j].now).None? && calls[i].now + c.maxSkewMs <= calls[j].now
  {
    OnlyReplayed(c, dateParse, calls, j);
    if calls[j].now < calls[i].now + c.maxSkewMs {
      Retention(c, dateParse, calls, i, j);
    } else {
      NoLongerReplayed(c, dateParse, calls, i, j);
    }
  }

  /**
   * So the very same request is accepted again exactly when maxSkewMs have passed and its timestamp is still in
   * time: a nonce can be used more than once inside the window around its timestamp.
   */
  lemma {:induction false} ResentAcceptedIff(c: Config, dateParse: DateParse, calls: seq<Call>, i: nat, j: nat)
    requires Timely(calls) && i < j < |calls| && LastQuietly(c, dateParse, calls, i, j)
    requires calls[j].payload == calls[i].payload
    ensures ParseTimestamp(dateParse, calls[i].payload.stamp).Some?
    ensures Run(c, dateParse, calls).verdicts[j] == Accepted
       <==> calls[i].now + c.maxSkewMs <= calls[j].now
            && calls[j].now as real <= ParseTimestamp(dateParse, calls[i].payload.stamp).value + c.maxSkewMs as real
  {
    AcceptedInTime(c, dateParse, calls, i);
    PassedBefore(c, dateParse, calls, i);
    AcceptedAgainIff(c, dateParse, calls, i, j);
  }

  lemma {:induction false} PassedBefore(c: Config, dateParse: DateParse, calls: seq<Call>, i: nat)
    requires i < |calls| && Run(c, dateParse, calls).verdicts[i] == Accepted
    ensures Precheck(c, dateParse, calls[i].payload, calls[i].now).None?
  {
    VerdictAt(c, dateParse, calls, i);
  }

  /** The run and then its last request once more. */
  ghost function Resent(calls: seq<Call>, now: nat): seq<Call>
    requires calls != []
  {
    calls + [Call(calls[|calls| - 1].payload, now)]
  }

  /** A request just accepted can be accepted a second time iff its timestamp is not before the first. */
  lemma {:induction false} TwiceIff(c: Config, dateParse: DateParse, calls: seq<Call>)
    requires Timely(calls) && calls != [] && Run(c, dateParse, calls).verdicts[|calls| - 1] == Accepted
    ensures ParseTimestamp(dateParse, calls[|calls| - 1].payload.stamp).Some?
    ensures (exists now: nat ::
               LastTime(calls) <= now && Run(c, dateParse, Resent(calls, now)).verdicts[|calls|] == Accepted)
       <==> LastTime(calls) as real <= ParseTimestamp(dateParse, calls[|calls| - 1].payload.stamp).value
  {
    AcceptedInTime(c, dateParse, calls, |calls| - 1);
    forall now: nat | LastTime(calls) <= now
      ensures Run(c, dateParse, Resent(calls, now)).verdicts[|calls|] == Accepted
         <==> LastTime(calls) + c.maxSkewMs <= now && now as real
                <= ParseTimestamp(dateParse, calls[|calls| - 1].payload.stamp).value + c.maxSkewMs as real
    {
      ResentQuietly(c, dateParse, calls, now);
      ResentAcceptedIff(c, dateParse, Resent(calls, now), |calls| - 1, |calls|);
    }
    var soonest := LastTime(calls) + c.maxSkewMs;
    assert Run(c, dateParse, Resent(calls, soonest)).verdicts[|calls|] == Accepted
      <==> soonest as real <= ParseTimestamp(dateParse, calls[|calls| - 1].payload.stamp).value + c.maxSkewMs as real;
  }

  lemma ResentCalls(calls: seq<Call>, now: nat)
    requires Timely(calls) && calls != [] && LastTime(calls) <= now
    ensures var all := Resent(calls, now);
            && Timely(all) && |all| == |calls| + 1 && all[..|calls|] == calls
            && all[|calls| - 1].Nonce() == all[|calls|].Nonce()
  {
  }

  lemma {:induction false} ResentQuietly(c: Config, dateParse: DateParse, calls: seq<Call>, now: nat)
    requires Timely(calls) && calls != [] && Run(c, dateParse, calls).verdicts[|calls| - 1] == Accepted
    requires LastTime(calls) <= now
    ensures Timely(Resent(calls, now)) && LastQuietly(c, dateParse, Resent(calls, now), |calls| - 1, |calls|)
  {
    ResentCalls(calls, now);
    RightAfter(c, dateParse, calls, Resent(calls, now));
  }

  /** Nothing comes between the last call of a run and the next. */
  lemma {:induction false} RightAfter(c: Config, dateParse: DateParse, before: seq<Call>, calls: seq<Call>)
    requires before != [] && |calls| == |before| + 1 && calls[..|before|] == before
    requires calls[|before| - 1].Nonce() == calls[|before|].Nonce()
    requires Run(c, dateParse, before).verdicts[|before| - 1] == Accepted
    ensures LastQuietly(c, dateParse, calls, |before| - 1, |before|)
  {
    var i, v := |before| - 1, Run(c, dateParse, calls).verdicts;
    RunPrefix(c, dateParse, calls, |before|);
    assert v[i] == v[..|before|][i];
    assert Others(calls, v, i, |before|, calls[i].Nonce()) == {};
  }

  // ---------------------------------------------------------------- refinement

  /** The reference cache: the time every nonce was last accepted, never forgotten. */
  ghost function ReferenceServe(c: Config, dateParse: DateParse, last: map<string, nat>, call: Call)
    : (map<string, nat>, Verdict)
  {
    var early := Precheck(c, dateParse, call.payload, call.now);
    if early.Some? then (last, early.value)
    else if Recent(c, last, call.Nonce(), call.now) then (last, Replayed)
    else (last[call.Nonce() := call.now], Accepted)
  }

  ghost function Reference(c: Config, dateParse: DateParse, calls: seq<Call>): (r: (map<string, nat>, seq<Verdict>))
    ensures |r.1| == |calls|
  {
    if calls == [] then (map[], [])
    else
      var (last, verdicts) := Reference(c, dateParse, calls[..|calls| - 1]);
      var (last', v) := ReferenceServe(c, dateParse, last, calls[|calls| - 1]);
      (last', verdicts + [v])
  }

  /** The cache is the reference without some nonces whose time is over. */
  ghost predicate Agrees(c: Config, seen: Seen, last: map<string, nat>, now: nat) {
    && seen.Valid()
    && (forall k | k in seen.dict :: k in last && seen.dict[k] == last[k] + c.maxSkewMs)
    && (forall k | k in last && k !in seen.dict :: last[k] + c.maxSkewMs <= now)
  }

  lemma SweptAgrees(c: Config, seen: Seen, last: map<string, nat>, before: nat, now: nat)
    requires Agrees(c, seen, last, before) && before <= now
    ensures Agrees(c, Swept(c, seen, now), last, now)
  {
    seen.KeepValid(set k | k in seen.dict && seen.dict[k] > now);
  }

  lemma AdmitAgrees(c: Config, s: Seen, last: map<string, nat>, nonce: string, now: nat)
    requires Agrees(c, s, last, now) && |last[nonce := now]| <= c.maxEntries
    ensures Agrees(c, Trim(c, s.Set(nonce, now + c.maxSkewMs)), last[nonce := now], now)
  {
    SetAgrees(c, s, last, nonce, now);
    NoTrim(c, s.Set(nonce, now + c.maxSkewMs), last[nonce := now].Keys);
  }

  lemma {:induction false} SetAgrees(c: Config, s: Seen, last: map<string, nat>, nonce: string, now: nat)
    requires Agrees(c, s, last, now)
    ensures Agrees(c, s.Set(nonce, now + c.maxSkewMs), last[nonce := now], now)
  {
    s.SetValid(nonce, now + c.maxSkewMs);
  }

  lemma NoTrim(c: Config, t: Seen, nonces: set<string>)
    requires t.Valid() && t.dict.Keys <= nonces && |nonces| <= c.maxEntries
    ensures Trim(c, t) == t
  {
    t.SizeIsCount();
    SubsetSize(t.dict.Keys, nonces);
  }

  ghost predicate Recent(c: Config, last: map<string, nat>, nonce: string, now: nat) {
    nonce in last && now < last[nonce] + c.maxSkewMs
  }

  lemma VerdictAgrees(c: Config, seen: Seen, last: map<string, nat>, before: nat, nonce: string, now: nat)
    requires Agrees(c, seen, last, before) && before <= now
    ensures Consult(c, seen, nonce, now).1 == if Recent(c, last, nonce, now) then Replayed else Accepted
    ensures Recent(c, last, nonce, now) ==> Consult(c, seen, nonce, now).0 == Swept(c, seen, now)
    ensures !Recent(c, last, nonce, now) ==>
              Consult(c, seen, nonce, now).0 == Trim(c, Swept(c, seen, now).Set(nonce, now + c.maxSkewMs))
  {
    SweptAgrees(c, seen, last, before, now);
  }

  lemma StateAgrees(c: Config, seen: Seen, last: map<string, nat>, before: nat, nonce: string, now: nat)
    requires Agrees(c, seen, last, before) && before <= now
    requires Recent(c, last, nonce, now) || |last[nonce := now]| <= c.maxEntries
    ensures Agrees(c, Consult(c, seen, nonce, now).0,
                   if Recent(c, last, nonce, now) then last else last[nonce := now], now)
  {
    SweptAgrees(c, seen, last, before, now);
    VerdictAgrees(c, seen, last, before, nonce, now);
    if !Recent(c, last, nonce, now) {
      AdmitAgrees(c, Swept(c, seen, now), last, nonce, now);
    }
  }

  lemma AgreesStep(c: Config, dateParse: DateParse, seen: Seen, last: map<string, nat>, before: nat, call: Call)
    requires Agrees(c, seen, last, before) && before <= call.now
    requires |ReferenceServe(c, dateParse, last, call).0| <= c.maxEntries
    ensures var (seen', v) := Judge(c, dateParse, seen, call.payload, call.now);
            var (last', v') := ReferenceServe(c, dateParse, last, call);
            v == v' && Agrees(c, seen', last', call.now)
  {
    if Precheck(c, dateParse, call.payload, call.now).None? {
      VerdictAgrees(c, seen, last, before, call.Nonce(), call.now);
      StateAgrees(c, seen, last, before, call.Nonce(), call.now);
    }
  }

  lemma {:induction false} ReferenceGrows(c: Config, dateParse: DateParse, calls: seq<Call>, n: nat)
    requires n <= |calls|
    ensures Reference(c, dateParse, calls[..n]).0.Keys <= Reference(c, dateParse, calls).0.Keys
  {
    if n == |calls| {
      assert calls[..n] == calls;
    } else {
      ReferenceGrows(c, dateParse, calls[..|calls| - 1], n);
      assert calls[..|calls| - 1][..n] == calls[..n];
    }
  }

  /** With at most maxEntries distinct accepted nonces, every verdict is the reference's. */
  lemma {:induction false} RefinesReference(c: Config, dateParse: DateParse, calls: seq<Call>)
    requires Timely(calls) && |Reference(c, dateParse, calls).0| <= c.maxEntries
    ensures Run(c, dateParse, calls).verdicts == Reference(c, dateParse, calls).1
    ensures Agrees(c, Run(c, dateParse, calls).seen, Reference(c, dateParse, calls).0, LastTime(calls))
  {
    if calls != [] {
      var before, call := calls[..|calls| - 1], calls[|calls| - 1];
      ReferenceGrows(c, dateParse, calls, |calls| - 1);
      SubsetSize(Reference(c, dateParse, before).0.Keys, Reference(c, dateParse, calls).0.Keys);
      RefinesReference(c, dateParse, before);
      AgreesStep(c, dateParse, Run(c, dateParse, before).seen, Reference(c, dateParse, before).0, LastTime(before),
        call);
    }
  }

  // ---------------------------------------------------------------- the service in place

  /** A finished sweep leaves what is swept. */
  lemma SweptLeft(c: Config, seen: Seen, over: nat -> bool, now: nat)
    requires seen.Valid() && 2 * seen.Size() >= c.maxEntries && forall at: nat :: over(at) <==> at <= now
    ensures seen.Keep(seen.Unswept(over, |seen.keys|)) == Swept(c, seen, now)
  {
    seen.KeepAgree(seen.Unswept(over, |seen.keys|), set k | k in seen.dict && seen.dict[k] > now);
  }

  class ReplayProtectionService {
    const config: Config
    const dateParse: DateParse
    var seen: Seen

    ghost predicate Valid()
      reads this
    {
      seen.Valid()
    }

    constructor (config: Config, dateParse: DateParse)
      ensures Valid() && seen == EmptyMap() && this.config == config && this.dateParse == dateParse
    {
      this.config, this.dateParse := config, dateParse;
      seen := EmptyMap();
    }

    /** Throws, by a verdict other than NotRequired and Accepted, or remembers the nonce. */
    method AssertFresh(payload: Payload, now: nat) returns (verdict: Verdict)
      requires Valid()
      modifies this
      ensures Valid() && (seen, verdict) == Judge(config, dateParse, old(seen), payload, now)
    {
      if !config.required {
        return NotRequired;
      }
      if payload.nonce.None? || !NonceOk(payload.nonce.value) {
        return NonceInvalid;
      }
      var stamp := ParseTimestamp(dateParse, payload.stamp);
      if stamp.None? {
        return TimestampInvalid;
      }
      if !TimelyStamp(config, stamp.value, now) {
        return Expired;
      }
      verdict := Remember(payload.nonce.value, now);
    }

    method Remember(nonce: string, now: nat) returns (verdict: Verdict)
      requires Valid()
      modifies this
      ensures Valid() && (seen, verdict) == Consult(config, old(seen), nonce, now)
    {
      Sweep(now);
      if nonce in seen.dict && seen.dict[nonce] > now {
        return Replayed;
      }
      seen.SetValid(nonce, now + config.maxSkewMs);
      seen := seen.Set(nonce, now + config.maxSkewMs);
      if seen.Size() > config.maxEntries && seen.keys != [] {
        seen.KeepValid(seen.dict.Keys - {seen.keys[0]});
        seen := seen.Delete(seen.keys[0]);
      }
      return Accepted;
    }

    method Sweep(now: nat)
      requires Valid()
      modifies this
      ensures Valid() && seen == Swept(config, old(seen), now)
    {
      if 2 * seen.Size() < config.maxEntries {
        return;
      }
      var all := seen.keys;
      ghost var start, over := seen, (expiresAt: nat) => expiresAt <= now;
      start.UnsweptAll(over);
      for i := 0 to |all|
        invariant Valid() && seen == start.Keep(start.Unswept(over, i))
      {
        start.SweepOne(over, i);
        if seen.dict[all[i]] <= now {
          seen.KeepValid(seen.dict.Keys - {all[i]});
          seen := seen.Delete(all[i]);
        }
      }
      SweptLeft(config, start, over, now);
    }
  }
}
