/** `performWhoisLookup`: the WHOIS client's answer, handed in as a value,
    becomes a record, a fallback record for a transport error, or a
    rejection carrying the client's error. */
module WhoisLookup {
  import opened Wrappers
  import opened Text
  import opened WhoisRecord

  /** What the WHOIS client hands its callback: the response text, or an
      error and its message. */
  datatype LookupOutcome = Response(text: string) | ClientError(message: string)

  /** Error messages that count as "the WHOIS server could not be reached". */
  const TransportFailures: seq<string> := ["ENOTFOUND", "timeout", "ECONNREFUSED"]

  predicate IsTransportFailure(message: string) {
    ContainsAny(message, TransportFailures)
  }

  /** `domain.split('.').pop().toLowerCase()`: the lowercased text after the
      last dot, or the whole name when it has no dot. */
  function TopLevelLabel(domain: string): (tld: string)
    ensures '.' !in tld
    ensures exists k :: (0 <= k <= |domain| && (k == 0 || domain[k - 1] == '.')
      && tld == Lower(domain[k..]))
  {
    var parts := Split(domain, '.');
    SplitLast(domain, '.');
    var last := parts[|parts| - 1];
    assert '.' !in last;
    Lower(last)
  }

  /** The record that stands in for a WHOIS server that could not be reached. */
  function FallbackRecord(domain: string): (r: DomainRecord)
    ensures r.domain == domain && r.fallback && !r.available
  {
    var tld := TopLevelLabel(domain);
    DomainRecord(domain, false, Some("Information not available (" + tld + " WHOIS server issue)"),
                 None, None, None, [], Internal, Some("WHOIS lookup failed for ." + tld + " domains"), true)
  }

  /** The promise `performWhoisLookup(domain)` settles to, given the client's
      answer: `Success` for a resolved record, `Failure` for a rejection. */
  function Lookup(domain: string, outcome: LookupOutcome): (r: Result<DomainRecord>)
    ensures r.Success? ==> r.value.domain == domain && (r.value.fallback <==> outcome.ClientError?)
    ensures r.Failure? ==> outcome.ClientError? && r.error == outcome.message
  {
    match outcome
    case ClientError(message) =>
      if IsTransportFailure(message) then Success(FallbackRecord(domain)) else Failure(message)
    case Response(text) => Success(Build(domain, text))
  }

  /** The lookup rejects exactly on a client error that is not a transport
      failure, and then with the client's own message. */
  lemma RejectsIff(domain: string, outcome: LookupOutcome)
    ensures Lookup(domain, outcome).Failure?
      <==> outcome.ClientError? && !IsTransportFailure(outcome.message)
    ensures Lookup(domain, outcome).Failure? ==> Lookup(domain, outcome).error == outcome.message
  {
  }

  /** A transport failure resolves with a record that is marked as a fallback,
      reports the domain as not available, names the top-level label in its
      registrar and error texts, and holds no dates and no name servers. */
  lemma FallbackShape(domain: string, message: string)
    requires IsTransportFailure(message)
    ensures var r := Lookup(domain, ClientError(message));
      && r.Success? && r.value.fallback && !r.value.available && r.value.domain == domain
      && r.value.registrar == Some("Information not available (" + TopLevelLabel(domain) + " WHOIS server issue)")
      && r.value.error == Some("WHOIS lookup failed for ." + TopLevelLabel(domain) + " domains")
      && r.value.createdDate == None && r.value.updatedDate == None && r.value.expiryDate == None
      && r.value.nameServers == [] && r.value.source == Internal
  {
  }

  /** A response is never a fallback and never rejects. */
  lemma ResponseIsRecord(domain: string, text: string)
    ensures var r := Lookup(domain, Response(text));
      r.Success? && r.value == Build(domain, text) && !r.value.fallback && r.value.error == None
  {
  }

  /** The top-level label is the lowercased text after the last dot. */
  lemma TopLevelLabelAfterLastDot(name: string, last: string)
    requires '.' !in last
    ensures TopLevelLabel(name + "." + last) == Lower(last)
  {
    assert name + "." + last == name + ['.'] + last;
    SplitEndsWith(name, '.', last);
  }

  /** The resolver's "getaddrinfo ENOTFOUND" message is a transport failure. */
  lemma NotFoundIsTransportFailure()
    ensures IsTransportFailure("getaddrinfo ENOTFOUND whois.nic.xyz")
  {
    var m := "getaddrinfo ENOTFOUND whois.nic.xyz";
    assert m == "getaddrinfo " + "ENOTFOUND" + " whois.nic.xyz";
    assert m[12..21] == "ENOTFOUND";
    assert OccursAt(m, TransportFailures[0], 12);
  }

  /** For `name.last` the fallback texts name the lowercased `last`. */
  lemma FallbackNamesLastLabel(name: string, last: string, message: string)
    requires '.' !in last && IsTransportFailure(message)
    ensures var r := Lookup(name + "." + last, ClientError(message));
      && r.Success? && r.value.fallback
      && r.value.registrar == Some("Information not available (" + Lower(last) + " WHOIS server issue)")
      && r.value.error == Some("WHOIS lookup failed for ." + Lower(last) + " domains")
  {
    TopLevelLabelAfterLastDot(name, last);
  }

  /** `performWhoisLookup` with the client's callback inlined. */
  method PerformWhoisLookup(domain: string, outcome: LookupOutcome) returns (r: Result<DomainRecord>)
    ensures r == Lookup(domain, outcome)
  {
    if outcome.ClientError? {
      var message := outcome.message;
      if Contains(message, "ENOTFOUND") || Contains(message, "timeout") || Contains(message, "ECONNREFUSED") {
        assert Contains(message, TransportFailures[0]) || Contains(message, TransportFailures[1])
            || Contains(message, TransportFailures[2]);
        return Success(FallbackRecord(domain));
      }
      return Failure(message);
    }
    var result := BuildRecord(domain, outcome.text);
    return Success(result);
  }
}
