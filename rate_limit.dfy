/** The middleware `createRateLimiter` returns: a fixed-window counter per
    client address, kept in a map that the middleware sweeps on every request. */
module RateLimit {
  import opened Wrappers

  const DefaultWindowMs := 15 * 60 * 1000
  const DefaultMaxRequests := 100
  const DefaultMessage := "Too many requests, please try again later"

  /** The `options` object; an absent field takes its default. */
  datatype Options = Options(windowMs: Option<int>, maxRequests: Option<int>, message: Option<string>)

  /** The entry `{ count, resetTime }` kept for one client. */
  datatype Window = Window(count: int, resetTime: int)

  /** `next()`, or the 429 response with its JSON body. */
  datatype Verdict = Allowed | Limited(error: string, retryAfter: int)

  /** The new map and the verdict of one request. */
  datatype Outcome = Outcome(verdict: Verdict, requests: map<string, Window>)

  /** `Math.ceil(x / d)` for a positive divisor. */
  function CeilDiv(x: int, d: int): (q: int)
    requires d > 0
    ensures (q - 1) * d < x <= q * d
  {
    var r := -((-x) / d);
    assert -x == d * ((-x) / d) + (-x) % d;
    r
  }

  /** `req.ip || req.connection.remoteAddress` */
  function ClientKey(ip: Option<string>, remoteAddress: string): (key: string)
    ensures ip.Some? && ip.value != "" ==> key == ip.value
    ensures ip.None? || ip.value == "" ==> key == remoteAddress
  {
    if ip.Some? && ip.value != "" then ip.value else remoteAddress
  }

  /** The map after the loop that deletes the entries whose window has passed. */
  function Sweep(requests: map<string, Window>, now: int, windowMs: int): (live: map<string, Window>)
    ensures live.Keys <= requests.Keys
    ensures forall k :: k in live ==> live[k] == requests[k]
  {
    map k | k in requests && now - requests[k].resetTime <= windowMs :: requests[k]
  }

  /** The client's entry after the sweep, created if missing. */
  function Current(requests: map<string, Window>, key: string, now: int, windowMs: int): Window {
    var live := Sweep(requests, now, windowMs);
    if key in live then live[key] else Window(0, now)
  }

  /** The in-place reset of an entry whose window has passed. */
  function Reset(w: Window, now: int, windowMs: int): Window {
    if now - w.resetTime > windowMs then Window(0, now) else w
  }

  /** One request from client `key` at time `now`. */
  function Step(requests: map<string, Window>, key: string, now: int, windowMs: int,
                maxRequests: int, message: string): (o: Outcome)
    ensures key in o.requests
    ensures o.requests.Keys <= Sweep(requests, now, windowMs).Keys + {key}
  {
    var live := Sweep(requests, now, windowMs);
    var w := Reset(Current(requests, key, now, windowMs), now, windowMs);
    if w.count >= maxRequests then
      Outcome(Limited(message, CeilDiv(w.resetTime + windowMs - now, 1000)), live[key := w])
    else Outcome(Allowed, live[key := w.(count := w.count + 1)])
  }

  /** Every count lies between 0 and the limit (0 when the limit is not
      positive), and no window starts in the future. */
  predicate Valid(requests: map<string, Window>, maxRequests: int, now: int) {
    forall k :: k in requests ==>
      0 <= requests[k].count <= (if maxRequests < 0 then 0 else maxRequests)
      && requests[k].resetTime <= now
  }

  class RateLimiter {
    const windowMs: int
    const maxRequests: int
    const message: string
    var requests: map<string, Window>

    /** `createRateLimiter(options)` */
    constructor (options: Options)
      ensures windowMs == (if options.windowMs.Some? then options.windowMs.value else DefaultWindowMs)
      ensures maxRequests == (if options.maxRequests.Some? then options.maxRequests.value else DefaultMaxRequests)
      ensures message == (if options.message.Some? then options.message.value else DefaultMessage)
      ensures requests == map[]
    {
      windowMs := if options.windowMs.Some? then options.windowMs.value else DefaultWindowMs;
      maxRequests := if options.maxRequests.Some? then options.maxRequests.value else DefaultMaxRequests;
      message := if options.message.Some? then options.message.value else DefaultMessage;
      requests := map[];
    }

    /** The loop over `requests.entries()` deleting expired windows. */
    method SweepStale(now: int)
      modifies this
      ensures requests == Sweep(old(requests), now, windowMs)
    {
      ghost var before := requests;
      var keys := requests.Keys;
      while keys != {}
        invariant keys <= before.Keys
        invariant forall k :: k in requests <==> k in before && (k in keys || now - before[k].resetTime <= windowMs)
        invariant forall k :: k in requests ==> requests[k] == before[k]
        decreases |keys|
      {
        var key :| key in keys;
        if now - requests[key].resetTime > windowMs {
          requests := requests - {key};
        }
        keys := keys - {key};
      }
      assert requests.Keys == Sweep(before, now, windowMs).Keys;
    }

    /** The middleware function, for a request from `ip` (or, without one,
        from `remoteAddress`) arriving at time `now`. */
    method Handle(ip: Option<string>, remoteAddress: string, now: int) returns (v: Verdict)
      modifies this
      ensures Outcome(v, requests)
           == Step(old(requests), ClientKey(ip, remoteAddress), now, windowMs, maxRequests, message)
    {
      var key := ClientKey(ip, remoteAddress);
      SweepStale(now);
      var requestData: Window;
      if key in requests {
        requestData := requests[key];
      } else {
        requestData := Window(0, now);
        requests := requests[key := requestData];
      }
      if now - requestData.resetTime > windowMs {
        requestData := Window(0, now);
        requests := requests[key := requestData];
      }
      if requestData.count >= maxRequests {
        return Limited(message, CeilDiv(requestData.resetTime + windowMs - now, 1000));
      }
      requests := requests[key := requestData.(count := requestData.count + 1)];
      return Allowed;
    }
  }

  /** After the sweep no expired window is left, and the surviving entries
      are unchanged. */
  lemma SweepKeepsLiveWindows(requests: map<string, Window>, now: int, windowMs: int)
    ensures forall k :: (k in Sweep(requests, now, windowMs)
      <==> k in requests && now - requests[k].resetTime <= windowMs)
    ensures forall k :: (k in Sweep(requests, now, windowMs)
      ==> Sweep(requests, now, windowMs)[k] == requests[k])
  {
  }

  /** The reset at lines 106-109 never fires on a change: the sweep has
      removed every entry it would apply to, and a new entry starts now. */
  lemma ResetIsNoOp(requests: map<string, Window>, key: string, now: int, windowMs: int)
    ensures Reset(Current(requests, key, now, windowMs), now, windowMs)
         == Current(requests, key, now, windowMs)
  {
  }

  /** Other clients' entries change only by the sweep's removals. */
  lemma OtherClientsOnlySwept(requests: map<string, Window>, key: string, now: int, windowMs: int,
                              maxRequests: int, message: string, other: string)
    requires other != key
    ensures var after := Step(requests, key, now, windowMs, maxRequests, message).requests;
      (other in after <==> other in requests && now - requests[other].resetTime <= windowMs)
      && (other in after ==> after[other] == requests[other])
  {
  }

  /** A request is allowed exactly when the client's current count is below
      the limit; then the count goes up by one, and otherwise the entry keeps
      its count and window start. The window start is the old one for a
      client with a live entry, and `now` for a new one. */
  lemma AllowedIff(requests: map<string, Window>, key: string, now: int, windowMs: int,
                   maxRequests: int, message: string)
    ensures var w := Current(requests, key, now, windowMs);
      var o := Step(requests, key, now, windowMs, maxRequests, message);
      && key in o.requests
      && (o.verdict.Allowed? <==> w.count < maxRequests)
      && (o.verdict.Allowed? ==> o.requests[key] == Window(w.count + 1, w.resetTime))
      && (o.verdict.Limited? ==> o.requests[key] == w && o.verdict.error == message)
      && (key in requests && now - requests[key].resetTime <= windowMs
          ==> o.requests[key].resetTime == requests[key].resetTime)
      && (!(key in requests && now - requests[key].resetTime <= windowMs)
          ==> o.requests[key].resetTime == now)
  {
    ResetIsNoOp(requests, key, now, windowMs);
  }

  lemma CeilDivNonNegative(x: int, d: int)
    requires d > 0 && x >= 0
    ensures CeilDiv(x, d) >= 0
  {
  }

  lemma CeilDivMonotone(x: int, y: int, d: int)
    requires d > 0 && x <= y
    ensures CeilDiv(x, d) <= CeilDiv(y, d)
  {
  }

  /** `retryAfter` on a denial is the whole seconds left in the window:
      between 0 and `ceil(windowMs / 1000)`. */
  lemma RetryAfterBounds(requests: map<string, Window>, key: string, now: int, windowMs: int,
                         maxRequests: int, message: string)
    requires windowMs >= 0
    requires forall k :: k in requests ==> requests[k].resetTime <= now
    ensures var o := Step(requests, key, now, windowMs, maxRequests, message);
      o.verdict.Limited? ==> 0 <= o.verdict.retryAfter <= CeilDiv(windowMs, 1000)
  {
    ResetIsNoOp(requests, key, now, windowMs);
    var w := Current(requests, key, now, windowMs);
    var x := w.resetTime + windowMs - now;
    assert 0 <= x <= windowMs;
    CeilDivNonNegative(x, 1000);
    CeilDivMonotone(x, windowMs, 1000);
  }

  /** A request never breaks the bounds on counts and window starts. */
  lemma StepKeepsValid(requests: map<string, Window>, key: string, now: int, windowMs: int,
                       maxRequests: int, message: string)
    requires Valid(requests, maxRequests, now)
    ensures Valid(Step(requests, key, now, windowMs, maxRequests, message).requests, maxRequests, now)
  {
    ResetIsNoOp(requests, key, now, windowMs);
  }

  /** The number of requests allowed when `key` asks at the given times. */
  function Allowances(requests: map<string, Window>, key: string, times: seq<int>, windowMs: int,
                      maxRequests: int, message: string): nat
    decreases |times|
  {
    if times == [] then 0
    else
      var o := Step(requests, key, times[0], windowMs, maxRequests, message);
      (if o.verdict.Allowed? then 1 else 0)
      + Allowances(o.requests, key, times[1..], windowMs, maxRequests, message)
  }

  /** Within one window a client with `count` requests already counted gets
      at most `maxRequests - count` more through. */
  lemma {:induction false} WindowBound(requests: map<string, Window>, key: string, times: seq<int>,
                                       windowMs: int, maxRequests: int, message: string)
    requires key in requests && 0 <= requests[key].count
    requires forall i :: 0 <= i < |times| ==>
      requests[key].resetTime <= times[i] <= requests[key].resetTime + windowMs
    ensures Allowances(requests, key, times, windowMs, maxRequests, message)
         <= if maxRequests - requests[key].count < 0 then 0 else maxRequests - requests[key].count
    decreases |times|
  {
    if times != [] {
      var w := requests[key];
      var o := Step(requests, key, times[0], windowMs, maxRequests, message);
      AllowedIff(requests, key, times[0], windowMs, maxRequests, message);
      assert Current(requests, key, times[0], windowMs) == w;
      assert o.requests[key].resetTime == w.resetTime;
      WindowBound(o.requests, key, times[1..], windowMs, maxRequests, message);
    }
  }

  /** A client without a live window (a new one, or one whose entry the
      sweep removes) that sends requests within `windowMs` of its first one
      gets at most `maxRequests` of them through. */
  lemma FreshWindowBound(requests: map<string, Window>, key: string, times: seq<int>,
                         windowMs: int, maxRequests: int, message: string)
    requires times != [] && key !in Sweep(requests, times[0], windowMs)
    requires forall i :: 0 <= i < |times| ==> times[0] <= times[i] <= times[0] + windowMs
    ensures Allowances(requests, key, times, windowMs, maxRequests, message)
         <= if maxRequests < 0 then 0 else maxRequests
  {
    var o := Step(requests, key, times[0], windowMs, maxRequests, message);
    AllowedIff(requests, key, times[0], windowMs, maxRequests, message);
    assert Current(requests, key, times[0], windowMs) == Window(0, times[0]);
    WindowBound(o.requests, key, times[1..], windowMs, maxRequests, message);
  }
}
