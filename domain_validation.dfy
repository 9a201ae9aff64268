/** The `validateDomain` middleware: a required `domain` query parameter that
    must match `^[a-zA-Z0-9][a-zA-Z0-9-]{0,61}[a-zA-Z0-9]?\.[a-zA-Z]{2,}$`. */
module DomainValidation {
  import opened Wrappers
  import opened Text

  /** `next()`, or a JSON error response with its status. */
  datatype Reply = Next | Reject(status: int, error: string)

  /** `[a-zA-Z0-9-]` */
  predicate LabelChar(c: char) { IsAlnum(c) || c == '-' }

  /** `[a-zA-Z0-9][a-zA-Z0-9-]{0,61}[a-zA-Z0-9]?` matching all of `s`: the
      mandatory first character, a middle `s[1..j]` of at most 61
      characters, and an optional last character. */
  predicate LabelPattern(s: string) {
    exists j :: 1 <= j <= 62 && LabelMatchesAt(s, j)
  }

  /** The label pattern matching `s` with its middle ending at `j`. */
  predicate LabelMatchesAt(s: string, j: int) {
    1 <= j <= 62 && j <= |s| && IsAlnum(s[0])
    && (forall i :: 1 <= i < j ==> LabelChar(s[i]))
    && (|s| == j || (|s| == j + 1 && IsAlnum(s[j])))
  }

  /** `[a-zA-Z]{2,}` matching all of `s`. */
  predicate TldPattern(s: string) {
    |s| >= 2 && forall i :: 0 <= i < |s| ==> IsAsciiLetter(s[i])
  }

  /** `domainRegex.test(s)`: the anchored pattern splits `s` at some dot into
      a label part and a top-level part. */
  predicate DomainPattern(s: string) {
    exists k :: 0 <= k < |s| && s[k] == '.' && LabelPattern(s[..k]) && TldPattern(s[k + 1..])
  }

  /** A label the pattern admits, stated directly: 1 to 63 characters of
      `[A-Za-z0-9-]`, starting with a letter or digit; only a 63-character
      label must also end with one. */
  predicate ValidLabel(l: string) {
    1 <= |l| <= 63 && IsAlnum(l[0])
    && (forall i :: 0 <= i < |l| ==> LabelChar(l[i]))
    && (|l| == 63 ==> IsAlnum(l[62]))
  }

  /** A name the format check admits, stated directly: the text before its
      first dot is a valid label, and the rest is two or more ASCII letters
      (so the name holds exactly one dot). */
  predicate WellFormedName(s: string) {
    var k := IndexOf(s, '.');
    k < |s| && ValidLabel(s[..k]) && TldPattern(s[k + 1..])
  }

  /** The `validateDomain` middleware on `req.query.domain`. */
  function ValidateDomain(domain: Option<string>): (reply: Reply)
    ensures reply.Next? <==> domain.Some? && DomainPattern(domain.value)
    ensures reply.Reject? ==> reply.status == 400
  {
    if domain.None? || domain.value == "" then Reject(400, "Domain parameter is required")
    else if !DomainPattern(domain.value) then Reject(400, "Invalid domain format")
    else Next
  }

  lemma LabelPatternIff(l: string)
    ensures LabelPattern(l) <==> ValidLabel(l)
  {
    if ValidLabel(l) {
      var j := if |l| <= 62 then |l| else 62;
      assert LabelMatchesAt(l, j);
    }
    if LabelPattern(l) {
      var j :| 1 <= j <= 62 && LabelMatchesAt(l, j);
      assert forall i :: 0 <= i < |l| ==> LabelChar(l[i]) by {
        forall i | 0 <= i < |l| ensures LabelChar(l[i]) {
          if i == 0 || i == j {
          }
        }
      }
    }
  }

  /** The regular expression admits exactly the well-formed names. */
  lemma DomainPatternIff(s: string)
    ensures DomainPattern(s) <==> WellFormedName(s)
  {
    var k := IndexOf(s, '.');
    if WellFormedName(s) {
      LabelPatternIff(s[..k]);
    }
    if DomainPattern(s) {
      var k' :| 0 <= k' < |s| && s[k'] == '.' && LabelPattern(s[..k']) && TldPattern(s[k' + 1..]);
      LabelPatternIff(s[..k']);
      assert forall i :: 0 <= i < k' ==> s[i] == s[..k'][i] && s[i] != '.';
      assert k == k';
    }
  }

  /** A missing or empty parameter is reported before the format is looked at. */
  lemma RequiredBeforeFormat(domain: Option<string>)
    requires domain.None? || domain.value == ""
    ensures ValidateDomain(domain) == Reject(400, "Domain parameter is required")
  {
  }

  /** The middleware passes the request on exactly for a well-formed name;
      any other non-empty value is answered with 400 "Invalid domain format". */
  lemma ValidateIff(domain: Option<string>)
    ensures ValidateDomain(domain) == Next <==> domain.Some? && WellFormedName(domain.value)
    ensures domain.Some? && domain.value != "" && !WellFormedName(domain.value)
      ==> ValidateDomain(domain) == Reject(400, "Invalid domain format")
  {
    if domain.Some? {
      DomainPatternIff(domain.value);
      if WellFormedName(domain.value) {
        assert domain.value != "";
      }
    }
  }

  /** A name with two dots is refused: the top-level part would hold a dot. */
  lemma SubdomainRejected(a: string, b: string, c: string)
    requires '.' !in a
    ensures ValidateDomain(Some(a + "." + b + "." + c)) == Reject(400, "Invalid domain format")
  {
    var s := a + "." + b + "." + c;
    assert s == a + ['.'] + (b + "." + c);
    IndexOfAfter(a, '.', b + "." + c);
    var tld := s[|a| + 1..];
    assert tld == b + "." + c && tld[|b|] == '.';
    assert !TldPattern(tld);
    ValidateIff(Some(s));
  }

  /** `sub.example.com` in particular. */
  lemma SubExampleComRejected()
    ensures ValidateDomain(Some("sub.example.com")) == Reject(400, "Invalid domain format")
  {
    assert "sub.example.com" == "sub" + "." + "example" + "." + "com";
    SubdomainRejected("sub", "example", "com");
  }

  /** A label of up to 62 characters may end in a hyphen. */
  lemma TrailingHyphenAccepted(a: string, tld: string)
    requires 1 <= |a| <= 61 && IsAlnum(a[0]) && forall i :: 0 <= i < |a| ==> LabelChar(a[i])
    requires TldPattern(tld)
    ensures ValidateDomain(Some(a + "-." + tld)) == Next
  {
    var l := a + "-";
    var s := l + ['.'] + tld;
    assert a + "-." + tld == s;
    assert forall i :: 0 <= i < |l| ==> LabelChar(l[i]);
    assert ValidLabel(l);
    IndexOfAfter(l, '.', tld);
    assert s[..|l|] == l && s[|l| + 1..] == tld;
    ValidateIff(Some(s));
  }
}
