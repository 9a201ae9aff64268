/** `getDomainInfo` and the module-wide `NodeCache` it consults: answers
    are kept for one hour under the key `domain_<name>`, failures are never
    kept, and the caller learns whether the answer came from the cache. */
module WhoisCache {
  import opened Wrappers
  import opened WhoisRecord
  import opened WhoisLookup

  /** `stdTTL`, in seconds. */
  const StdTtlSeconds := 3600

  /** A stored value and the millisecond time after which it has expired. */
  datatype CacheEntry = CacheEntry(value: DomainRecord, expires: int)

  /** `{ ...result, fromCache }` */
  datatype DomainInfo = DomainInfo(record: DomainRecord, fromCache: bool)

  /** `` `domain_${domain}` ``: the name is used as given, without trimming
      or lowercasing. */
  function CacheKey(domain: string): (key: string)
    ensures |key| == 7 + |domain| && key[7..] == domain
  {
    "domain_" + domain
  }

  /** Distinct names never share a cache entry. */
  lemma CacheKeyInjective(a: string, b: string)
    requires CacheKey(a) == CacheKey(b)
    ensures a == b
  {
    assert a == CacheKey(a)[7..];
  }

  /** The value `get` returns at time `now`: present and not yet expired. */
  function Peek(entries: map<string, CacheEntry>, key: string, now: int): (v: Option<DomainRecord>)
    ensures v.Some? <==> key in entries && now <= entries[key].expires
    ensures v.Some? ==> v.value == entries[key].value
  {
    if key in entries && now <= entries[key].expires then Some(entries[key].value) else None
  }

  /** The entries after `get`: an expired entry is dropped when it is read. */
  function AfterGet(entries: map<string, CacheEntry>, key: string, now: int): (after: map<string, CacheEntry>)
    ensures forall k :: k in after <==> k in entries && (k == key ==> now <= entries[k].expires)
    ensures forall k :: k in after ==> after[k] == entries[k]
  {
    if key in entries && now > entries[key].expires then entries - {key} else entries
  }

  /** The module's `NodeCache({ stdTTL: 3600 })` instance. */
  class DomainCache {
    const ttlSeconds: int
    var entries: map<string, CacheEntry>

    constructor ()
      ensures ttlSeconds == StdTtlSeconds && entries == map[]
    {
      ttlSeconds := StdTtlSeconds;
      entries := map[];
    }

    /** `get(key)`, at time `now`. */
    method Get(key: string, now: int) returns (v: Option<DomainRecord>)
      modifies this
      ensures v == Peek(old(entries), key, now)
      ensures entries == AfterGet(old(entries), key, now)
    {
      v := None;
      if key in entries {
        if entries[key].expires < now {
          entries := entries - {key};
        } else {
          v := Some(entries[key].value);
        }
      }
    }

    /** `set(key, value)` with the standard time to live, at time `now`. */
    method Set(key: string, value: DomainRecord, now: int)
      modifies this
      ensures entries == old(entries)[key := CacheEntry(value, now + ttlSeconds * 1000)]
    {
      entries := entries[key := CacheEntry(value, now + ttlSeconds * 1000)];
    }
  }

  /** The answer of one `getDomainInfo` call and the new cache contents. */
  datatype Served = Served(answer: Result<DomainInfo>, entries: map<string, CacheEntry>)

  /** `getDomainInfo(domain)` asked at time `now`, given the cache contents
      and the WHOIS client's answer, which is only consulted on a miss. The
      lookup is awaited, so the `set` happens later, at time `done`. */
  function Serve(entries: map<string, CacheEntry>, ttlSeconds: int, domain: string, now: int,
                 done: int, outcome: LookupOutcome): (s: Served)
    ensures s.answer.Success? ==>
      (s.answer.value.fromCache <==> Peek(entries, CacheKey(domain), now).Some?)
    ensures s.answer.Failure? ==> CacheKey(domain) !in s.entries
  {
    var key := CacheKey(domain);
    var cached := Peek(entries, key, now);
    var after := AfterGet(entries, key, now);
    if cached.Some? then Served(Success(DomainInfo(cached.value, true)), after)
    else match Lookup(domain, outcome)
      case Success(rec) =>
        Served(Success(DomainInfo(rec, false)), after[key := CacheEntry(rec, done + ttlSeconds * 1000)])
      case Failure(message) => Served(Failure("Failed to lookup domain: " + message), after)
  }

  /** `getDomainInfo`: the `get` reads the clock at `now`, the `set` after
      the awaited lookup at `done`. */
  method GetDomainInfo(cache: DomainCache, domain: string, now: int, done: int, outcome: LookupOutcome)
    returns (r: Result<DomainInfo>)
    modifies cache
    ensures r == Serve(old(cache.entries), cache.ttlSeconds, domain, now, done, outcome).answer
    ensures cache.entries == Serve(old(cache.entries), cache.ttlSeconds, domain, now, done, outcome).entries
  {
    var cacheKey := CacheKey(domain);
    var cachedResult := cache.Get(cacheKey, now);
    if cachedResult.Some? {
      return Success(DomainInfo(cachedResult.value, true));
    }
    var result := PerformWhoisLookup(domain, outcome);
    if result.Failure? {
      return Failure("Failed to lookup domain: " + result.error);
    }
    cache.Set(cacheKey, result.value, done);
    return Success(DomainInfo(result.value, false));
  }

  /** A live entry answers without a lookup, marked as coming from the
      cache, and leaves the cache as it was. */
  lemma HitAnswersFromCache(entries: map<string, CacheEntry>, ttlSeconds: int, domain: string,
                            now: int, done: int, outcome: LookupOutcome, rec: DomainRecord)
    requires Peek(entries, CacheKey(domain), now) == Some(rec)
    ensures Serve(entries, ttlSeconds, domain, now, done, outcome) == Served(Success(DomainInfo(rec, true)), entries)
  {
  }

  /** Without a live entry the answer is the lookup's, marked as fresh, and
      a resolved record (a fallback record included) is stored for the time
      to live; a rejection is reported with the prefix and nothing is stored. */
  lemma MissPerformsLookup(entries: map<string, CacheEntry>, ttlSeconds: int, domain: string,
                           now: int, done: int, outcome: LookupOutcome)
    requires Peek(entries, CacheKey(domain), now) == None
    ensures var s := Serve(entries, ttlSeconds, domain, now, done, outcome);
      match Lookup(domain, outcome)
      case Success(rec) =>
        s.answer == Success(DomainInfo(rec, false))
        && s.entries == AfterGet(entries, CacheKey(domain), now)[CacheKey(domain) := CacheEntry(rec, done + ttlSeconds * 1000)]
      case Failure(message) =>
        s.answer == Failure("Failed to lookup domain: " + message)
        && CacheKey(domain) !in s.entries
        && forall k :: k in s.entries ==> k in entries && s.entries[k] == entries[k]
  {
  }

  /** A call touches the entry of its own domain only. */
  lemma OtherDomainsUntouched(entries: map<string, CacheEntry>, ttlSeconds: int, domain: string,
                              now: int, done: int, outcome: LookupOutcome, other: string)
    requires other != domain
    ensures var after := Serve(entries, ttlSeconds, domain, now, done, outcome).entries;
      (CacheKey(other) in after <==> CacheKey(other) in entries)
      && (CacheKey(other) in after ==> after[CacheKey(other)] == entries[CacheKey(other)])
  {
    if CacheKey(other) == CacheKey(domain) {
      CacheKeyInjective(other, domain);
    }
  }

  /** After a fresh answer stored at `d0`, the same domain asked again within
      the hour after `d0` is answered from the cache with the same record,
      whatever the WHOIS server would now say. */
  lemma RepeatWithinTtlIsCached(entries: map<string, CacheEntry>, ttlSeconds: int, domain: string,
                                t0: int, d0: int, o0: LookupOutcome, t1: int, d1: int, o1: LookupOutcome)
    requires var s := Serve(entries, ttlSeconds, domain, t0, d0, o0);
      s.answer.Success? && !s.answer.value.fromCache
    requires t1 <= d0 + ttlSeconds * 1000
    ensures var s := Serve(entries, ttlSeconds, domain, t0, d0, o0);
      Serve(s.entries, ttlSeconds, domain, t1, d1, o1)
        == Served(Success(DomainInfo(s.answer.value.record, true)), s.entries)
  {
  }

  /** Once the hour after the `set` at `d0` has passed, the stored record is
      no longer used: the domain is looked up again. */
  lemma RepeatAfterTtlLooksUp(entries: map<string, CacheEntry>, ttlSeconds: int, domain: string,
                              t0: int, d0: int, o0: LookupOutcome, t1: int, d1: int, o1: LookupOutcome)
    requires var s := Serve(entries, ttlSeconds, domain, t0, d0, o0);
      s.answer.Success? && !s.answer.value.fromCache
    requires t1 > d0 + ttlSeconds * 1000
    ensures var s := Serve(entries, ttlSeconds, domain, t0, d0, o0);
      var s1 := Serve(s.entries, ttlSeconds, domain, t1, d1, o1);
      (s1.answer.Success? ==> !s1.answer.value.fromCache && Lookup(domain, o1) == Success(s1.answer.value.record))
      && (s1.answer.Failure? ==> Lookup(domain, o1).Failure?)
  {
  }

  /** A WHOIS server outage is remembered: the fallback record is cached
      like any other answer and served for the rest of the hour. */
  lemma OutageIsCached(entries: map<string, CacheEntry>, ttlSeconds: int, domain: string,
                       t0: int, d0: int, message: string, t1: int, d1: int, o1: LookupOutcome)
    requires Peek(entries, CacheKey(domain), t0) == None && IsTransportFailure(message)
    requires t1 <= d0 + ttlSeconds * 1000
    ensures var s := Serve(entries, ttlSeconds, domain, t0, d0, ClientError(message));
      Serve(s.entries, ttlSeconds, domain, t1, d1, o1).answer == Success(DomainInfo(FallbackRecord(domain), true))
  {
  }

  /** A failed lookup is not remembered: the next call looks up again. */
  lemma FailureIsNotCached(entries: map<string, CacheEntry>, ttlSeconds: int, domain: string,
                           t0: int, d0: int, message: string, t1: int)
    requires Peek(entries, CacheKey(domain), t0) == None && !IsTransportFailure(message)
    ensures var s := Serve(entries, ttlSeconds, domain, t0, d0, ClientError(message));
      s.answer == Failure("Failed to lookup domain: " + message)
      && Peek(s.entries, CacheKey(domain), t1) == None
  {
  }
}
