/** The rate-limit guard as it runs, one request after another over its two fields. */
module RateLimitGuards {
  import opened Prelude
  import opened RateLimit
  import ClientIp

  /** `req.ip ?? req.socket.remoteAddress`. */
  function AddressOf(ip: Option<string>, remoteAddress: Option<string>): Option<string> {
    if ip.Some? then ip else remoteAddress
  }

  class RateLimitGuard {
    const config: Config
    const isIP: ClientIp.IsIP
    var hits: map<string, Window>
    var nextSweepAt: nat

    function State(): Table
      reads this
    {
      Table(hits, nextSweepAt)
    }

    constructor (config: Config, isIP: ClientIp.IsIP)
      ensures State() == EMPTY && this.config == config && this.isIP == isIP
    {
      this.config, this.isIP := config, isIP;
      hits, nextSweepAt := map[], 0;
    }

    /** A skipped route is admitted without a reply header; any other request is counted and answered. */
    method CanActivate(skip: bool, ip: Option<string>, remoteAddress: Option<string>, now: nat)
      returns (admitted: bool, reply: Option<Reply>)
      modifies this
      ensures skip ==> admitted && reply == None && State() == old(State())
      ensures !skip ==>
        && reply.Some? && admitted == reply.value.allowed
        && (State(), reply.value)
           == Step(config, old(State()), now, ClientIp.ClientIpKey(isIP, if ip.Some? then ip else remoteAddress))
    {
      if skip {
        return true, None;
      }
      Sweep(now);
      var answer := Count(ClientIp.ClientIpKey(isIP, AddressOf(ip, remoteAddress)), now);
      return answer.allowed, Some(answer);
    }

    /** Counts a request of the client in its bucket, after the sweep, and answers it. */
    method Count(client: string, now: nat) returns (reply: Reply)
      modifies this
      ensures var s := old(State());
              var bucket := BucketOf(config, s, client);
              var w := Counted(config, s, bucket, now);
              State() == Table(s.hits[bucket := w], s.nextSweepAt) && reply == Answer(config, bucket, w, now)
    {
      var key := client;
      if key !in hits && |hits| >= config.maxEntries - 1 {
        key := OVERFLOW;
      }
      var entry := if key in hits then hits[key] else Window(0, now);
      if entry.resetAt <= now {
        entry := Window(0, now + config.ttlMs);
      }
      entry := entry.(count := entry.count + 1);
      hits := hits[key := entry];
      var resetSeconds := CeilSeconds(entry.resetAt - now);
      var remaining := if config.limit >= entry.count then config.limit - entry.count else 0;
      var allowed := entry.count <= config.limit;
      reply := Reply(key, entry, allowed, config.limit, remaining, resetSeconds,
                     if allowed then None else Some(resetSeconds));
    }

    method Sweep(now: nat)
      modifies this
      ensures State() == Swept(config, old(State()), now)
    {
      if now < nextSweepAt {
        return;
      }
      nextSweepAt := now + config.ttlMs;
      ghost var start := hits;
      var pending := hits.Keys;
      while pending != {}
        invariant pending <= start.Keys && nextSweepAt == now + config.ttlMs
        invariant hits == map k | k in start && (k in pending || start[k].resetAt > now) :: start[k]
        decreases |pending|
      {
        var key :| key in pending;
        if hits[key].resetAt <= now {
          hits := hits - {key};
        }
        pending := pending - {key};
      }
    }
  }
}
