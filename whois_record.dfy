/** The WHOIS record builder of `performWhoisLookup`: an availability decision
    taken on the whole lowercased text, then, unless that decision already
    says "available", a line-by-line scan that fills the registrar, the three
    dates and the name-server list. */
module WhoisRecord {
  import opened Wrappers
  import opened Text
  import opened WhoisDate

  datatype Source = Internal | External

  /** The object the lookup resolves with. `error` and `fallback` are only
      present on the fallback record; elsewhere they read `None` and `false`. */
  datatype DomainRecord = DomainRecord(
    domain: string,
    available: bool,
    registrar: Option<string>,
    createdDate: Option<string>,
    updatedDate: Option<string>,
    expiryDate: Option<string>,
    nameServers: seq<string>,
    source: Source,
    error: Option<string>,
    fallback: bool)

  const RegistrationIndicators: seq<string> := [
    "registrar:", "creation date:", "created:", "registry expiry date:",
    "registrar registration expiration date:", "expires:", "name server:",
    "nameserver:", "registry domain id:", "domain status:"
  ]

  const AvailabilityIndicators: seq<string> := [
    "no match", "not found", "no matching record", "status: available",
    "no data found", "no entries found", "domain not found", "not registered",
    "no records matching", "no matching record found",
    "domain status: no object found", "object does not exist", "status: free"
  ]

  const CreationFields: seq<string> := [
    "creation date:", "created:", "created on:", "registered:", "registered on:",
    "registration date:", "domain registered:", "created date:"
  ]

  const UpdatedFields: seq<string> := [
    "updated date:", "updated:", "updated on:", "last updated:", "last modified:",
    "changed:", "modified:", "last update:"
  ]

  const ExpiryFields: seq<string> := [
    "expiry date:", "expires:", "registry expiry date:",
    "registrar registration expiration date:", "expiration date:", "expire date:",
    "expires on:", "domain expires:", "paid-till:", "renewal date:",
    "expiration time:", "expire:", "valid until:"
  ]

  const NameServerLabels: seq<string> := ["name server:", "nameserver:"]

  predicate HasRegistrationData(data: string) {
    ContainsAny(Lower(data), RegistrationIndicators)
  }

  predicate HasAvailabilitySignal(data: string) {
    ContainsAny(Lower(data), AvailabilityIndicators)
  }

  /** JavaScript truthiness of a string that may be `undefined`. */
  predicate Truthy(v: Option<string>) { v.Some? && v.value != "" }

  /** `line.split(':')[1]`: the text between the first and the second colon. */
  function SecondField(line: string): Option<string> {
    var parts := Split(line, ':');
    if |parts| >= 2 then Some(parts[1]) else None
  }

  /** `v?.trim()` */
  function TrimOpt(v: Option<string>): Option<string> {
    if v.Some? then Some(Trim(v.value)) else None
  }

  datatype DateKind = Created | Updated | Expiry

  function Labels(kind: DateKind): seq<string> {
    match kind
    case Created => CreationFields
    case Updated => UpdatedFields
    case Expiry => ExpiryFields
  }

  /** The fields the line scan fills. */
  datatype Scan = Scan(
    registrar: Option<string>,
    created: Option<string>,
    updated: Option<string>,
    expiry: Option<string>,
    nameServers: seq<string>)

  function DateOf(sc: Scan, kind: DateKind): Option<string> {
    match kind
    case Created => sc.created
    case Updated => sc.updated
    case Expiry => sc.expiry
  }

  predicate IsRegistrarLine(line: string) { Contains(Lower(line), "registrar:") }

  /** The value a registrar line assigns. */
  function RegistrarOffer(line: string): Option<string> { TrimOpt(SecondField(line)) }

  /** A registrar line whose value trims to something non-empty. */
  predicate OffersRegistrar(line: string) { IsRegistrarLine(line) && Truthy(RegistrarOffer(line)) }

  /** The date a line offers for field `kind`: the parsed fragment of a line
      carrying one of the field's labels. */
  function LineDate(line: string, kind: DateKind): Option<string> {
    if ContainsAny(Lower(line), Labels(kind)) then
      var datePart := SecondField(line);
      if Truthy(datePart) then ParseDate(datePart.value) else None
    else None
  }

  /** The name server a line offers, possibly empty. */
  function NameServerOffer(line: string): Option<string> {
    if ContainsAny(Lower(line), NameServerLabels) then TrimOpt(SecondField(line)) else None
  }

  predicate OffersNameServer(line: string, x: string) {
    NameServerOffer(line) == Some(x) && x != ""
  }

  /** The body of the `lines.forEach` callback, on the fields it changes. */
  function ScanLine(acc: Scan, line: string): (sc: Scan)
    ensures Truthy(acc.registrar) ==> sc.registrar == acc.registrar
    ensures sc.nameServers == acc.nameServers
      || (|sc.nameServers| == |acc.nameServers| + 1 && sc.nameServers[|acc.nameServers|] !in acc.nameServers)
  {
    var lowerLine := Lower(line);
    var registrar :=
      if Contains(lowerLine, "registrar:") && !Truthy(acc.registrar) then TrimOpt(SecondField(line))
      else acc.registrar;
    var ns := TrimOpt(SecondField(line));
    var nameServers :=
      if ContainsAny(lowerLine, NameServerLabels) && Truthy(ns) && ns.value !in acc.nameServers
      then acc.nameServers + [ns.value]
      else acc.nameServers;
    Scan(registrar, StepDate(acc.created, line, Created), StepDate(acc.updated, line, Updated),
         StepDate(acc.expiry, line, Expiry), nameServers)
  }

  /** One date field's update: written only while still empty, and only with
      a fragment that parses. */
  function StepDate(cur: Option<string>, line: string, kind: DateKind): (d: Option<string>)
    ensures Truthy(cur) ==> d == cur
    ensures d != cur ==> d.Some? && IsCanonical(d.value)
  {
    if ContainsAny(Lower(line), Labels(kind)) && !Truthy(cur) then
      var datePart := SecondField(line);
      if Truthy(datePart) then
        var parsedDate := ParseDate(datePart.value);
        if parsedDate.Some? then parsedDate else cur
      else cur
    else cur
  }

  const EmptyScan := Scan(None, None, None, None, [])

  /** The fields after scanning `lines` in order. A date field is `null` or a
      canonical date, never a malformed string. */
  function ScanLines(lines: seq<string>): (sc: Scan)
    ensures sc.created.Some? ==> IsCanonical(sc.created.value)
    ensures sc.updated.Some? ==> IsCanonical(sc.updated.value)
    ensures sc.expiry.Some? ==> IsCanonical(sc.expiry.value)
    decreases |lines|
  {
    if lines == [] then EmptyScan
    else ScanLine(ScanLines(lines[..|lines| - 1]), lines[|lines| - 1])
  }

  function Unavailable(domain: string, sc: Scan): DomainRecord {
    DomainRecord(domain, false, sc.registrar, sc.created, sc.updated, sc.expiry,
                 sc.nameServers, Internal, None, false)
  }

  /** The record built from a successful WHOIS response. */
  function Build(domain: string, data: string): (r: DomainRecord)
    ensures r.domain == domain && !r.fallback && r.error == None && r.source == Internal
  {
    if !HasRegistrationData(data) && HasAvailabilitySignal(data) then
      DomainRecord(domain, true, None, None, None, None, [], Internal, None, false)
    else Unavailable(domain, ScanLines(Split(data, '\n')))
  }

  lemma ScanLinesStep(lines: seq<string>, i: int)
    requires 0 <= i < |lines|
    ensures ScanLines(lines[..i + 1]) == ScanLine(ScanLines(lines[..i]), lines[i])
  {
    assert lines[..i + 1][..i] == lines[..i];
  }

  /** One date field's part of the callback: `labels.some(...)`, the
      emptiness check, the fragment check and the call to `parseWhoisDate`. */
  method ScanDate(cur: Option<string>, line: string, kind: DateKind) returns (d: Option<string>)
    ensures d == StepDate(cur, line, kind)
  {
    d := cur;
    if ContainsAny(Lower(line), Labels(kind)) && !Truthy(cur) {
      var datePart := SecondField(line);
      if Truthy(datePart) {
        var parsedDate := ParseWhoisDate(datePart.value);
        if parsedDate.Some? {
          d := parsedDate;
        }
      }
    }
  }

  /** The fields of a record that the scan reads and writes. */
  function ScanOf(r: DomainRecord): Scan {
    Scan(r.registrar, r.createdDate, r.updatedDate, r.expiryDate, r.nameServers)
  }

  /** One run of the `lines.forEach` callback on the record being built: it
      changes the scanned fields as `ScanLine` says and nothing else. */
  method ScanRecordLine(result: DomainRecord, line: string) returns (next: DomainRecord)
    ensures var sc := ScanLine(ScanOf(result), line);
      next == result.(registrar := sc.registrar, createdDate := sc.created,
                      updatedDate := sc.updated, expiryDate := sc.expiry,
                      nameServers := sc.nameServers)
  {
    next := result;
    var lowerLine := Lower(line);
    if Contains(lowerLine, "registrar:") && !Truthy(next.registrar) {
      next := next.(registrar := TrimOpt(SecondField(line)));
    }
    var createdDate := ScanDate(next.createdDate, line, Created);
    var updatedDate := ScanDate(next.updatedDate, line, Updated);
    var expiryDate := ScanDate(next.expiryDate, line, Expiry);
    next := next.(createdDate := createdDate, updatedDate := updatedDate, expiryDate := expiryDate);
    if ContainsAny(lowerLine, NameServerLabels) {
      var ns := TrimOpt(SecondField(line));
      if Truthy(ns) && ns.value !in next.nameServers {
        next := next.(nameServers := next.nameServers + [ns.value]);
      }
    }
  }

  /** The `try` block of the lookup callback: the availability decision, then
      the scan that mutates the result's fields line by line. */
  method BuildRecord(domain: string, data: string) returns (result: DomainRecord)
    ensures result == Build(domain, data)
  {
    var lines := Split(data, '\n');
    result := DomainRecord(domain, false, None, None, None, None, [], Internal, None, false);
    var lowerData := Lower(data);
    var hasRegistrationData := ContainsAny(lowerData, RegistrationIndicators);
    if hasRegistrationData {
      result := result.(available := false);
    } else {
      var isAvailable := ContainsAny(lowerData, AvailabilityIndicators);
      if isAvailable {
        result := result.(available := true);
        return;
      } else {
        result := result.(available := false);
      }
    }
    var i := 0;
    while i < |lines|
      invariant 0 <= i <= |lines|
      invariant result == Unavailable(domain, ScanLines(lines[..i]))
    {
      ScanLinesStep(lines, i);
      result := ScanRecordLine(result, lines[i]);
      i := i + 1;
    }
    assert lines[..|lines|] == lines;
  }

  // ---------------------------------------------------------------------
  // The availability decision

  /** Every registration indicator ends in a colon. */
  lemma ColonFreeTextHasNoRegistrationData(data: string)
    requires ':' !in data
    ensures !HasRegistrationData(data)
  {
    var lower := Lower(data);
    forall k, i | 0 <= k < |RegistrationIndicators| && 0 <= i <= |lower| - |RegistrationIndicators[k]|
      ensures !OccursAt(lower, RegistrationIndicators[k], i)
    {
      var p := RegistrationIndicators[k];
      assert p[|p| - 1] == ':';
      var c := lower[i + |p| - 1];
      assert c == LowerChar(data[i + |p| - 1]) && data[i + |p| - 1] != ':';
      assert lower[i..i + |p|][|p| - 1] == c;
    }
  }

  /** "Domain Status: No Object Found" holds the availability phrase
      "domain status: no object found", yet the registration indicator
      "domain status:" decides first: the domain reads as registered. */
  lemma NoObjectFoundIsRegistered(domain: string)
    ensures !Build(domain, "Domain Status: No Object Found").available
  {
    var data := "Domain Status: No Object Found";
    var lower := Lower(data);
    assert data[..14] == "Domain Status:";
    assert Lower("Domain Status:") == "domain status:";
    assert lower[..14] == Lower(data[..14]);
    assert OccursAt(lower, RegistrationIndicators[9], 0);
  }

  const NoMatchAnswer := "No match for domain \"FREE123.COM\"."

  lemma NoMatchUnregistered()
    ensures !HasRegistrationData(NoMatchAnswer)
  {
    ColonFreeTextHasNoRegistrationData(NoMatchAnswer);
  }

  lemma NoMatchSignal()
    ensures HasAvailabilitySignal(NoMatchAnswer)
  {
    var lower := Lower(NoMatchAnswer);
    assert NoMatchAnswer[..8] == "No match";
    assert Lower("No match") == "no match";
    assert lower[..8] == Lower(NoMatchAnswer[..8]);
    assert OccursAt(lower, AvailabilityIndicators[0], 0);
  }

  /** A "No match" answer with no registration indicator is an available
      domain with every detail absent. */
  lemma NoMatchIsAvailable(domain: string)
    ensures Build(domain, NoMatchAnswer)
         == DomainRecord(domain, true, None, None, None, None, [], Internal, None, false)
  {
    NoMatchUnregistered();
    NoMatchSignal();
  }

  // ---------------------------------------------------------------------
  // First match wins

  lemma {:induction false} RegistrarUnset(lines: seq<string>)
    requires forall j :: 0 <= j < |lines| ==> !OffersRegistrar(lines[j])
    ensures !Truthy(ScanLines(lines).registrar)
    decreases |lines|
  {
    if lines != [] {
      var init := lines[..|lines| - 1];
      assert forall j :: 0 <= j < |init| ==> init[j] == lines[j];
      RegistrarUnset(init);
    }
  }

  /** The registrar is the value of the first registrar line whose value is
      not blank; no later line overwrites it. */
  lemma {:induction false} RegistrarFirstWins(lines: seq<string>, k: int)
    requires 0 <= k < |lines| && OffersRegistrar(lines[k])
    requires forall j :: 0 <= j < k ==> !OffersRegistrar(lines[j])
    ensures ScanLines(lines).registrar == RegistrarOffer(lines[k])
    decreases |lines|
  {
    var init := lines[..|lines| - 1];
    assert forall j :: 0 <= j < |init| ==> init[j] == lines[j];
    if k == |lines| - 1 {
      RegistrarUnset(init);
    } else {
      RegistrarFirstWins(init, k);
    }
  }

  /** Without a registrar line the registrar stays `null`. */
  lemma {:induction false} RegistrarAbsent(lines: seq<string>)
    requires forall j :: 0 <= j < |lines| ==> !IsRegistrarLine(lines[j])
    ensures ScanLines(lines).registrar == None
    decreases |lines|
  {
    if lines != [] {
      var init := lines[..|lines| - 1];
      assert forall j :: 0 <= j < |init| ==> init[j] == lines[j];
      RegistrarAbsent(init);
    }
  }

  /** A line holding `registrar:` has a colon, so its second field exists. */
  lemma RegistrarLineHasField(line: string)
    requires IsRegistrarLine(line)
    ensures SecondField(line).Some?
  {
    var lower := Lower(line);
    var i :| 0 <= i <= |lower| - 10 && OccursAt(lower, "registrar:", i);
    assert lower[i..i + 10][9] == ':';
    assert line[i + 9] == ':';
    assert IndexOf(line, ':') < |line|;
  }

  /** When every registrar line is blank, the registrar is the empty string:
      JavaScript's `!""` lets each such line write it again. */
  lemma {:induction false} RegistrarBlank(lines: seq<string>, k: int)
    requires 0 <= k < |lines| && IsRegistrarLine(lines[k])
    requires forall j :: 0 <= j < |lines| ==> !OffersRegistrar(lines[j])
    ensures ScanLines(lines).registrar == Some("")
    decreases |lines|
  {
    var init := lines[..|lines| - 1];
    assert forall j :: 0 <= j < |init| ==> init[j] == lines[j];
    var last := lines[|lines| - 1];
    if IsRegistrarLine(last) {
      RegistrarLineHasField(last);
      RegistrarUnset(init);
    } else {
      RegistrarBlank(init, k);
    }
  }

  lemma StepDateMeaning(acc: Scan, line: string, kind: DateKind)
    requires DateOf(acc, kind).None? || IsCanonical(DateOf(acc, kind).value)
    ensures DateOf(ScanLine(acc, line), kind)
         == if DateOf(acc, kind).Some? then DateOf(acc, kind) else LineDate(line, kind)
  {
  }

  /** The last line's effect on a date field. */
  lemma DateOfLast(init: seq<string>, last: string, kind: DateKind)
    ensures DateOf(ScanLines(init + [last]), kind)
         == if DateOf(ScanLines(init), kind).Some? then DateOf(ScanLines(init), kind)
            else LineDate(last, kind)
  {
    assert (init + [last])[..|init|] == init;
    StepDateMeaning(ScanLines(init), last, kind);
  }

  /** The dates the lines offer for field `kind`, line by line. */
  function Offers(lines: seq<string>, kind: DateKind): (offers: seq<Option<string>>)
    ensures |offers| == |lines|
    decreases |lines|
  {
    if lines == [] then []
    else Offers(lines[..|lines| - 1], kind) + [LineDate(lines[|lines| - 1], kind)]
  }

  lemma {:induction false} OffersAt(lines: seq<string>, kind: DateKind, j: int)
    requires 0 <= j < |lines|
    ensures Offers(lines, kind)[j] == LineDate(lines[j], kind)
    decreases |lines|
  {
    if j < |lines| - 1 {
      OffersAt(lines[..|lines| - 1], kind, j);
    }
  }

  /** The first value present, reading from the front. */
  function FirstPresent(offers: seq<Option<string>>): Option<string>
    decreases |offers|
  {
    if offers == [] then None
    else if offers[0].Some? then offers[0]
    else FirstPresent(offers[1..])
  }

  lemma {:induction false} FirstPresentSnoc(offers: seq<Option<string>>, x: Option<string>)
    ensures FirstPresent(offers + [x])
         == if FirstPresent(offers).Some? then FirstPresent(offers) else x
    decreases |offers|
  {
    if offers != [] {
      assert (offers + [x])[1..] == offers[1..] + [x];
      FirstPresentSnoc(offers[1..], x);
    }
  }

  lemma {:induction false} FirstPresentAt(offers: seq<Option<string>>, k: int)
    requires 0 <= k < |offers| && offers[k].Some?
    requires forall j :: 0 <= j < k ==> offers[j].None?
    ensures FirstPresent(offers) == offers[k]
    decreases k
  {
    if k > 0 {
      FirstPresentAt(offers[1..], k - 1);
    }
  }

  lemma {:induction false} FirstPresentNone(offers: seq<Option<string>>)
    requires forall j :: 0 <= j < |offers| ==> offers[j].None?
    ensures FirstPresent(offers) == None
    decreases |offers|
  {
    if offers != [] {
      FirstPresentNone(offers[1..]);
    }
  }

  lemma DateIsFirstOfferStep(init: seq<string>, last: string, kind: DateKind)
    requires DateOf(ScanLines(init), kind) == FirstPresent(Offers(init, kind))
    ensures DateOf(ScanLines(init + [last]), kind) == FirstPresent(Offers(init + [last], kind))
  {
    assert (init + [last])[..|init|] == init;
    DateOfLast(init, last, kind);
    FirstPresentSnoc(Offers(init, kind), LineDate(last, kind));
  }

  /** A date field after the scan is the first date any line offers for it. */
  lemma {:induction false} DateIsFirstOffer(lines: seq<string>, kind: DateKind)
    ensures DateOf(ScanLines(lines), kind) == FirstPresent(Offers(lines, kind))
    decreases |lines|
  {
    if lines != [] {
      var init, last := lines[..|lines| - 1], lines[|lines| - 1];
      DateIsFirstOffer(init, kind);
      DateIsFirstOfferStep(init, last, kind);
      assert lines == init + [last];
    }
  }

  lemma NoDateOffer(lines: seq<string>, kind: DateKind)
    requires forall j :: 0 <= j < |lines| ==> LineDate(lines[j], kind).None?
    ensures FirstPresent(Offers(lines, kind)) == None
  {
    forall j | 0 <= j < |lines| ensures Offers(lines, kind)[j].None? {
      OffersAt(lines, kind, j);
    }
    FirstPresentNone(Offers(lines, kind));
  }

  lemma FirstDateOffer(lines: seq<string>, kind: DateKind, k: int)
    requires 0 <= k < |lines| && LineDate(lines[k], kind).Some?
    requires forall j :: 0 <= j < k ==> LineDate(lines[j], kind).None?
    ensures FirstPresent(Offers(lines, kind)) == LineDate(lines[k], kind)
  {
    forall j | 0 <= j <= k ensures Offers(lines, kind)[j] == LineDate(lines[j], kind) {
      OffersAt(lines, kind, j);
    }
    FirstPresentAt(Offers(lines, kind), k);
  }

  /** Without a line offering a parseable date for a field, it stays `null`. */
  lemma DateAbsent(lines: seq<string>, kind: DateKind)
    requires forall j :: 0 <= j < |lines| ==> LineDate(lines[j], kind).None?
    ensures DateOf(ScanLines(lines), kind) == None
  {
    NoDateOffer(lines, kind);
    DateIsFirstOffer(lines, kind);
  }

  /** A date field holds the date of the first line that has one of its
      labels and a fragment that parses; lines before it with an unparseable
      fragment do not block it, and later lines do not overwrite it. */
  lemma DateFirstWins(lines: seq<string>, kind: DateKind, k: int)
    requires 0 <= k < |lines| && LineDate(lines[k], kind).Some?
    requires forall j :: 0 <= j < k ==> LineDate(lines[j], kind).None?
    ensures DateOf(ScanLines(lines), kind) == LineDate(lines[k], kind)
  {
    FirstDateOffer(lines, kind, k);
    DateIsFirstOffer(lines, kind);
  }

  // ---------------------------------------------------------------------
  // The name-server list

  lemma NameServerStep(acc: Scan, line: string)
    ensures ScanLine(acc, line).nameServers ==
      if Truthy(NameServerOffer(line)) && NameServerOffer(line).value !in acc.nameServers
      then acc.nameServers + [NameServerOffer(line).value]
      else acc.nameServers
  {
  }

  /** The list holds no name server twice (exact comparison). */
  lemma {:induction false} NameServersDistinct(lines: seq<string>)
    ensures forall i, j :: 0 <= i < j < |ScanLines(lines).nameServers| ==>
      ScanLines(lines).nameServers[i] != ScanLines(lines).nameServers[j]
    decreases |lines|
  {
    if lines != [] {
      var init := lines[..|lines| - 1];
      NameServersDistinct(init);
      NameServerStep(ScanLines(init), lines[|lines| - 1]);
    }
  }

  /** Some line of `lines` offers name server `x`. */
  predicate Offered(lines: seq<string>, x: string) {
    exists k :: 0 <= k < |lines| && OffersNameServer(lines[k], x)
  }

  lemma OfferedAppend(init: seq<string>, last: string, x: string)
    ensures Offered(init + [last], x) <==> Offered(init, x) || OffersNameServer(last, x)
  {
    var lines := init + [last];
    if Offered(init, x) {
      var k :| 0 <= k < |init| && OffersNameServer(init[k], x);
      assert lines[k] == init[k];
    }
    if OffersNameServer(last, x) {
      assert lines[|init|] == last;
    }
    if Offered(lines, x) {
      var k :| 0 <= k < |lines| && OffersNameServer(lines[k], x);
      assert k < |init| ==> lines[k] == init[k];
    }
  }

  /** One name server's membership after one more line, given its
      membership before it. */
  lemma OfferedAfterLast(init: seq<string>, last: string, x: string)
    requires x in ScanLines(init).nameServers <==> Offered(init, x)
    ensures x in ScanLines(init + [last]).nameServers <==> Offered(init + [last], x)
  {
    assert (init + [last])[..|init|] == init;
    NameServerStep(ScanLines(init), last);
    OfferedAppend(init, last, x);
  }

  /** The list holds exactly the non-empty name servers the lines offer. */
  lemma {:induction false} NameServersOffered(lines: seq<string>)
    ensures forall x :: x in ScanLines(lines).nameServers <==> Offered(lines, x)
    decreases |lines|
  {
    if lines != [] {
      var init, last := lines[..|lines| - 1], lines[|lines| - 1];
      NameServersOffered(init);
      assert lines == init + [last];
      forall x ensures x in ScanLines(lines).nameServers <==> Offered(lines, x) {
        OfferedAfterLast(init, last, x);
      }
    }
  }

  /** Line `a` is the first to offer name server `x`. */
  predicate FirstOffer(lines: seq<string>, x: string, a: int) {
    0 <= a < |lines| && OffersNameServer(lines[a], x)
    && forall j :: 0 <= j < a ==> !OffersNameServer(lines[j], x)
  }

  /** A name server already listed before the last line was first offered
      before it. */
  lemma FirstOfferBeforeLast(lines: seq<string>, x: string, a: int)
    requires lines != [] && x in ScanLines(lines[..|lines| - 1]).nameServers
    requires FirstOffer(lines, x, a)
    ensures a < |lines| - 1 && FirstOffer(lines[..|lines| - 1], x, a)
  {
    var init := lines[..|lines| - 1];
    NameServersOffered(init);
    var k :| 0 <= k < |init| && OffersNameServer(init[k], x);
    assert lines[k] == init[k];
  }

  /** A name server not listed before the last line is first offered by it. */
  lemma FirstOfferIsLast(lines: seq<string>, x: string, b: int)
    requires lines != [] && x !in ScanLines(lines[..|lines| - 1]).nameServers
    requires FirstOffer(lines, x, b)
    ensures b == |lines| - 1
  {
    var init := lines[..|lines| - 1];
    NameServersOffered(init);
    assert forall k :: 0 <= k < |init| ==> lines[k] == init[k] && !OffersNameServer(init[k], x);
  }

  /** The list is in first-seen order. */
  lemma {:induction false} NameServersFirstSeen(lines: seq<string>)
    ensures forall i, j, a, b :: (0 <= i < j < |ScanLines(lines).nameServers|
      && FirstOffer(lines, ScanLines(lines).nameServers[i], a)
      && FirstOffer(lines, ScanLines(lines).nameServers[j], b)) ==> a < b
    decreases |lines|
  {
    if lines != [] {
      var init := lines[..|lines| - 1];
      var ns0 := ScanLines(init).nameServers;
      var ns := ScanLines(lines).nameServers;
      NameServersFirstSeen(init);
      NameServerStep(ScanLines(init), lines[|lines| - 1]);
      assert ns[..|ns0|] == ns0;
      forall i, j, a, b | 0 <= i < j < |ns| && FirstOffer(lines, ns[i], a) && FirstOffer(lines, ns[j], b)
        ensures a < b
      {
        assert ns[i] == ns0[i];
        FirstOfferBeforeLast(lines, ns[i], a);
        if j < |ns0| {
          assert ns[j] == ns0[j];
          FirstOfferBeforeLast(lines, ns[j], b);
        } else {
          FirstOfferIsLast(lines, ns[j], b);
        }
      }
    }
  }

  // ---------------------------------------------------------------------
  // The record

  /** The record: available only without any registration indicator and
      with an availability phrase, and then bare; otherwise the scanned
      fields, with dates that are canonical or `null`. */
  lemma {:induction false} RecordShape(domain: string, data: string)
    ensures var r := Build(domain, data);
      && r.domain == domain && r.source == Internal && r.error == None && !r.fallback
      && (r.available <==> !HasRegistrationData(data) && HasAvailabilitySignal(data))
      && (r.available ==> r.registrar == None && r.createdDate == None && r.updatedDate == None
                          && r.expiryDate == None && r.nameServers == [])
      && (r.createdDate.Some? ==> IsCanonical(r.createdDate.value))
      && (r.updatedDate.Some? ==> IsCanonical(r.updatedDate.value))
      && (r.expiryDate.Some? ==> IsCanonical(r.expiryDate.value))
  {
  }
}
