/** The WHOIS date normalizer (`parseWhoisDate`): a date fragment is trimmed and
    tried against nine regular expressions in a fixed order; the first one
    that matches and whose match, after separator rewriting, has the shape
    `YYYY-MM-DD` decides the result. There is no month-name table, so the two
    textual formats can match but never produce a date. */
module WhoisDate {
  import opened Wrappers
  import opened Text

  /** One position of a fixed-width pattern: `\d` or a literal character. */
  datatype Atom = Digit | Lit(c: char)

  predicate Fits(c: char, a: Atom) {
    match a
    case Digit => IsDigit(c)
    case Lit(x) => c == x
  }

  /** The fixed-width pattern `shape` matches `s` at index `i`. */
  predicate MatchesAt(s: string, shape: seq<Atom>, i: int) {
    0 <= i && i + |shape| <= |s| && forall j :: 0 <= j < |shape| ==> Fits(s[i + j], shape[j])
  }

  /** Leftmost index at or after `from` where `shape` matches (regex search). */
  function FindShape(s: string, shape: seq<Atom>, from: nat): (r: Option<nat>)
    ensures r.Some? ==> from <= r.value && MatchesAt(s, shape, r.value)
    ensures forall j :: from <= j && (r.None? || j < r.value) ==> !MatchesAt(s, shape, j)
    decreases |s| - from
  {
    if from + |shape| > |s| then None
    else if MatchesAt(s, shape, from) then Some(from)
    else FindShape(s, shape, from + 1)
  }

  /** `\d{4}<sep>\d{2}<sep>\d{2}` */
  function YearFirst(sep: char): seq<Atom> {
    [Digit, Digit, Digit, Digit, Lit(sep), Digit, Digit, Lit(sep), Digit, Digit]
  }

  /** `\d{2}<sep>\d{2}<sep>\d{4}` */
  function DayFirst(sep: char): seq<Atom> {
    [Digit, Digit, Lit(sep), Digit, Digit, Lit(sep), Digit, Digit, Digit, Digit]
  }

  /** `\d{4}-\d{2}-\d{2}T\d{2}:\d{2}:\d{2}` */
  const IsoDateTime: seq<Atom> :=
    [Digit, Digit, Digit, Digit, Lit('-'), Digit, Digit, Lit('-'), Digit, Digit,
     Lit('T'), Digit, Digit, Lit(':'), Digit, Digit, Lit(':'), Digit, Digit]

  /** The fixed-width patterns, and the two with a textual month:
      `DayMonthYear` is `\d{1,2}\s+\w+\s+\d{4}`,
      `MonthDayYear` is `\w+\s+\d{1,2},?\s+\d{4}`. */
  datatype Pattern = Fixed(shape: seq<Atom>) | DayMonthYear | MonthDayYear

  /** `dateFormats`, in priority order. */
  const DateFormats: seq<Pattern> := [
    Fixed(YearFirst('-')),   // 2024-12-31
    Fixed(DayFirst('-')),    // 31-12-2024
    Fixed(DayFirst('/')),    // 31/12/2024
    Fixed(YearFirst('/')),   // 2024/12/31
    Fixed(DayFirst('.')),    // 31.12.2024
    Fixed(YearFirst('.')),   // 2024.12.31
    DayMonthYear,            // 31 Dec 2024
    MonthDayYear,            // December 31, 2024
    Fixed(IsoDateTime)       // ISO format with time
  ]

  /** Characters that no separator rewriting reacts to. */
  predicate Plain(c: char) { c != '-' && c != '/' && c != '.' }

  predicate PlainSpan(s: string, i: int, e: int) {
    0 <= i <= e <= |s| && forall k :: i <= k < e ==> Plain(s[k])
  }

  /** End of the run of white space starting at `i` (greedy `\s*`). */
  function SpaceEnd(s: string, i: nat): (e: nat)
    requires i <= |s|
    ensures i <= e <= |s|
    ensures forall k :: i <= k < e ==> IsSpace(s[k])
    ensures e < |s| ==> !IsSpace(s[e])
    decreases |s| - i
  {
    if i < |s| && IsSpace(s[i]) then SpaceEnd(s, i + 1) else i
  }

  /** End of the run of word characters starting at `i` (greedy `\w*`). */
  function WordEnd(s: string, i: nat): (e: nat)
    requires i <= |s|
    ensures i <= e <= |s|
    ensures forall k :: i <= k < e ==> IsWordChar(s[k])
    ensures e < |s| ==> !IsWordChar(s[e])
    decreases |s| - i
  {
    if i < |s| && IsWordChar(s[i]) then WordEnd(s, i + 1) else i
  }

  predicate DigitsAt(s: string, i: int, n: nat) {
    0 <= i && i + n <= |s| && forall k :: i <= k < i + n ==> IsDigit(s[k])
  }

  // In the matchers below a `\s+` or `\w+` takes its whole run: the element
  // that follows it can never start with a character of that run, so the
  // backtracking engine gains nothing by giving characters back. The choices
  // that can matter, `\d{1,2}` and `,?`, are tried longest first and then
  // shorter, as the engine does.

  /** `\s+\d{4}` at `j`; the end of the match. */
  function SpaceYear(s: string, j: nat): (r: Option<nat>)
    requires j <= |s|
    ensures r.Some? ==> PlainSpan(s, j, r.value)
  {
    var a := SpaceEnd(s, j);
    if a > j && DigitsAt(s, a, 4) then Some(a + 4) else None
  }

  /** `,?\s+\d{4}` at `j`. */
  function CommaSpaceYear(s: string, j: nat): (r: Option<nat>)
    requires j <= |s|
    ensures r.Some? ==> PlainSpan(s, j, r.value)
  {
    var withComma := if j < |s| && s[j] == ',' then SpaceYear(s, j + 1) else None;
    if withComma.Some? then withComma else SpaceYear(s, j)
  }

  /** `\d{1,2},?\s+\d{4}` at `j`. */
  function DayCommaYear(s: string, j: nat): (r: Option<nat>)
    requires j <= |s|
    ensures r.Some? ==> PlainSpan(s, j, r.value)
  {
    if !DigitsAt(s, j, 1) then None
    else
      var two := if DigitsAt(s, j, 2) then CommaSpaceYear(s, j + 2) else None;
      if two.Some? then two else CommaSpaceYear(s, j + 1)
  }

  /** `\s+\w+\s+\d{4}` at `j`. */
  function SpaceWordSpaceYear(s: string, j: nat): (r: Option<nat>)
    requires j <= |s|
    ensures r.Some? ==> PlainSpan(s, j, r.value)
  {
    var a := SpaceEnd(s, j);
    if a == j then None
    else
      var b := WordEnd(s, a);
      if b == a then None else SpaceYear(s, b)
  }

  /** `\d{1,2}\s+\w+\s+\d{4}` at `i`. */
  function DayMonthYearAt(s: string, i: nat): (r: Option<nat>)
    requires i <= |s|
    ensures r.Some? ==> PlainSpan(s, i, r.value)
  {
    if !DigitsAt(s, i, 1) then None
    else
      var two := if DigitsAt(s, i, 2) then SpaceWordSpaceYear(s, i + 2) else None;
      if two.Some? then two else SpaceWordSpaceYear(s, i + 1)
  }

  /** `\w+\s+\d{1,2},?\s+\d{4}` at `i`. */
  function MonthDayYearAt(s: string, i: nat): (r: Option<nat>)
    requires i <= |s|
    ensures r.Some? ==> PlainSpan(s, i, r.value)
  {
    var a := WordEnd(s, i);
    if a == i then None
    else
      var b := SpaceEnd(s, a);
      if b == a then None else DayCommaYear(s, b)
  }

  /** Leftmost match of a textual pattern at or after `from`: start and end. */
  function FindTextual(s: string, monthFirst: bool, from: nat): (r: Option<(nat, nat)>)
    ensures r.Some? ==> from <= r.value.0 && PlainSpan(s, r.value.0, r.value.1)
    decreases |s| - from
  {
    if from >= |s| then None
    else
      var m := if monthFirst then MonthDayYearAt(s, from) else DayMonthYearAt(s, from);
      if m.Some? then Some((from, m.value)) else FindTextual(s, monthFirst, from + 1)
  }

  /** `match[1]` of `s.match(format)`: the text of the leftmost match. */
  function MatchPattern(p: Pattern, s: string): (r: Option<string>)
    ensures p.Fixed? && r.Some? ==> MatchesAt(r.value, p.shape, 0) && |r.value| == |p.shape|
    ensures !p.Fixed? && r.Some? ==> forall k :: 0 <= k < |r.value| ==> Plain(r.value[k])
  {
    match p
    case Fixed(shape) =>
      var i := FindShape(s, shape, 0);
      if i.Some? then Some(s[i.value..i.value + |shape|]) else None
    case DayMonthYear =>
      var m := FindTextual(s, false, 0);
      if m.Some? then Some(s[m.value.0..m.value.1]) else None
    case MonthDayYear =>
      var m := FindTextual(s, true, 0);
      if m.Some? then Some(s[m.value.0..m.value.1]) else None
  }

  /** `padStart(2, '0')` */
  function Pad2(x: string): string {
    if |x| >= 2 then x else seq(2 - |x|, _ => '0') + x
  }

  /** `${parts[2]}-${parts[1].padStart(2, '0')}-${parts[0].padStart(2, '0')}` */
  function Reorder(parts: seq<string>): string
    requires |parts| >= 3
  {
    parts[2] + "-" + Pad2(parts[1]) + "-" + Pad2(parts[0])
  }

  /** The rewriting of the match never reads `parts[2]` of a split with fewer
      than three pieces (which would throw). */
  predicate Convertible(d: string) {
    if '/' in d then |Split(d, '/')[0]| == 4 || |Split(d, '/')| >= 3
    else if '.' in d then |Split(d, '.')[0]| == 4 || |Split(d, '.')| >= 3
    else if '-' in d && |Split(d, '-')[0]| == 2 then |Split(d, '-')| >= 3
    else true
  }

  /** The separator rewriting applied to a match; a date already in the
      final form is left as it is. */
  function Convert(d: string): (r: string)
    requires Convertible(d)
    ensures IsCanonical(d) ==> r == d
  {
    CanonicalShape(d);
    if '/' in d then
      var parts := Split(d, '/');
      if |parts[0]| == 4 then Join(parts, '-')
      else if |parts[2]| == 4 then Reorder(parts)
      else d
    else if '.' in d then
      var parts := Split(d, '.');
      if |parts[0]| == 4 then Join(parts, '-')
      else if |parts[2]| == 4 then Reorder(parts)
      else d
    else if '-' in d && |Split(d, '-')[0]| == 2 then
      var parts := Split(d, '-');
      if |parts[2]| == 4 then Reorder(parts) else d
    else if 'T' in d then Split(d, 'T')[0]
    else d
  }

  /** `/^\d{4}-\d{2}-\d{2}$/.test(x)` */
  predicate IsCanonical(x: string) {
    |x| == 10 && MatchesAt(x, YearFirst('-'), 0)
  }

  /** A date in the final form holds no `/`, `.` or `T`, and its text
      before the first `-` is the four-digit year. */
  lemma CanonicalShape(d: string)
    ensures IsCanonical(d) ==> '/' !in d && '.' !in d && 'T' !in d && |Split(d, '-')[0]| == 4
  {
    if IsCanonical(d) {
      ShapeChars(d, '-', true);
      NumericDateSplit(d, '-', 4, 7);
    }
  }

  /** The loop over `dateFormats` from index `k` on. */
  function TryFormats(clean: string, k: nat): (r: Option<string>)
    requires k <= |DateFormats|
    ensures r.Some? ==> IsCanonical(r.value)
    decreases |DateFormats| - k
  {
    if k == |DateFormats| then None
    else
      var m := MatchPattern(DateFormats[k], clean);
      if m.None? then TryFormats(clean, k + 1)
      else
        MatchIsConvertible(DateFormats[k], m.value);
        var d := Convert(m.value);
        if IsCanonical(d) then Some(d) else TryFormats(clean, k + 1)
  }

  /** `parseWhoisDate(dateString)`: `None` for `null`. */
  function ParseDate(dateString: string): (r: Option<string>)
    ensures r.Some? ==> IsCanonical(r.value)
  {
    if dateString == "" then None else TryFormats(Trim(dateString), 0)
  }

  /** One pass of the loop of `parseWhoisDate`: the match of format `k`,
      its rewriting and the final check. A result ends the loop with it;
      `None` moves on to the next format. */
  method TryFormat(clean: string, k: nat) returns (dateStr: Option<string>)
    requires k < |DateFormats|
    ensures dateStr.Some? ==> TryFormats(clean, k) == dateStr && IsCanonical(dateStr.value)
    ensures dateStr.None? ==> TryFormats(clean, k) == TryFormats(clean, k + 1)
  {
    dateStr := None;
    var m := MatchPattern(DateFormats[k], clean);
    if m.Some? {
      MatchIsConvertible(DateFormats[k], m.value);
      var d := Convert(m.value);
      if IsCanonical(d) {
        dateStr := Some(d);
      }
    }
  }

  /** The loop of `parseWhoisDate`, with its early return. */
  method ParseWhoisDate(dateString: string) returns (r: Option<string>)
    ensures r == ParseDate(dateString)
    ensures r.Some? ==> IsCanonical(r.value)
  {
    if dateString == "" {
      return None;
    }
    var clean := Trim(dateString);
    var k := 0;
    while k < |DateFormats|
      invariant 0 <= k <= |DateFormats|
      invariant TryFormats(clean, k) == ParseDate(dateString)
    {
      var dateStr := TryFormat(clean, k);
      if dateStr.Some? {
        return dateStr;
      }
      k := k + 1;
    }
    return None;
  }

  // ---------------------------------------------------------------------
  // What each format turns its match into

  /** The reference result for a numeric format: year-first matches keep
      their groups in order, day-first matches have them reversed; the
      separators become `-`. */
  function Rearranged(yearFirst: bool, w: string): string
    requires |w| == 10
  {
    if yearFirst then w[..4] + "-" + w[5..7] + "-" + w[8..]
    else w[6..] + "-" + w[3..5] + "-" + w[..2]
  }

  lemma Unpack(w: string, shape: seq<Atom>)
    requires MatchesAt(w, shape, 0)
    ensures forall j :: 0 <= j < |shape| ==> Fits(w[j], shape[j])
  {
    forall j | 0 <= j < |shape| ensures Fits(w[j], shape[j]) {
      assert Fits(w[0 + j], shape[j]);
    }
  }

  /** The characters of a ten-character numeric date: digits except at the
      two separator positions `a` and `b`. */
  predicate NumericDate(w: string, sep: char, a: int, b: int) {
    |w| == 10 && 0 < a < b - 1 && b < 9 && w[a] == sep && w[b] == sep
    && forall j :: 0 <= j < 10 && j != a && j != b ==> IsDigit(w[j])
  }

  lemma ShapeChars(w: string, sep: char, yearFirst: bool)
    requires |w| == 10 && MatchesAt(w, if yearFirst then YearFirst(sep) else DayFirst(sep), 0)
    ensures yearFirst ==> NumericDate(w, sep, 4, 7)
    ensures !yearFirst ==> NumericDate(w, sep, 2, 5)
  {
    var shape := if yearFirst then YearFirst(sep) else DayFirst(sep);
    Unpack(w, shape);
    if yearFirst {
      assert forall j :: 0 <= j < 10 && j != 4 && j != 7 ==> shape[j] == Digit;
      assert shape[4] == Lit(sep) && shape[7] == Lit(sep);
    } else {
      assert forall j :: 0 <= j < 10 && j != 2 && j != 5 ==> shape[j] == Digit;
      assert shape[2] == Lit(sep) && shape[5] == Lit(sep);
    }
  }

  /** A numeric date splits at its separator into its three groups, and holds
      no other separator character. */
  lemma NumericDateSplit(w: string, sep: char, a: int, b: int)
    requires NumericDate(w, sep, a, b) && !IsDigit(sep)
    ensures Split(w, sep) == [w[..a], w[a + 1..b], w[b + 1..]]
    ensures forall c :: c in w && !IsDigit(c) ==> c == sep
  {
    assert w == w[..a] + [sep] + w[a + 1..b] + [sep] + w[b + 1..];
    assert forall j :: 0 <= j < a ==> w[..a][j] == w[j];
    SplitThree(w[..a], w[a + 1..b], w[b + 1..], sep);
  }

  lemma ConvertYearFirst(w: string, sep: char)
    requires sep == '-' || sep == '/' || sep == '.'
    requires |w| == 10 && MatchesAt(w, YearFirst(sep), 0)
    ensures Convertible(w) && Convert(w) == Rearranged(true, w)
  {
    ShapeChars(w, sep, true);
    NumericDateSplit(w, sep, 4, 7);
    if sep == '-' {
      assert '/' !in w && '.' !in w && 'T' !in w;
      assert w == w[..4] + "-" + w[5..7] + "-" + w[8..];
    } else {
      assert sep == '.' ==> '/' !in w;
      JoinThree(w[..4], w[5..7], w[8..], '-');
    }
  }

  lemma ConvertDayFirst(w: string, sep: char)
    requires sep == '-' || sep == '/' || sep == '.'
    requires |w| == 10 && MatchesAt(w, DayFirst(sep), 0)
    ensures Convertible(w) && Convert(w) == Rearranged(false, w)
  {
    ShapeChars(w, sep, false);
    NumericDateSplit(w, sep, 2, 5);
    assert sep != '/' ==> '/' !in w;
    assert sep == '-' ==> '.' !in w;
  }

  /** The characters of a `YYYY-MM-DDThh:mm:ss` match. */
  lemma IsoDateTimeChars(w: string)
    requires |w| == 19 && MatchesAt(w, IsoDateTime, 0)
    ensures '/' !in w && '.' !in w && w[4] == '-' && w[10] == 'T'
    ensures '-' !in w[..4] && 'T' !in w[..10]
  {
    Unpack(w, IsoDateTime);
    assert forall j :: 0 <= j < 19 ==> w[j] != '/' && w[j] != '.' && (j < 10 ==> w[j] != 'T') && (j < 4 ==> w[j] != '-');
  }

  lemma ConvertIsoDateTime(w: string)
    requires |w| == 19 && MatchesAt(w, IsoDateTime, 0)
    ensures Convertible(w) && Convert(w) == w[..10]
  {
    IsoDateTimeChars(w);
    assert w == w[..4] + ['-'] + w[5..];
    IndexOfAfter(w[..4], '-', w[5..]);
    SplitFirst(w, '-');
    assert w == w[..10] + ['T'] + w[11..];
    IndexOfAfter(w[..10], 'T', w[11..]);
    SplitFirst(w, 'T');
  }

  /** Text without separators is converted to at most a prefix of itself,
      which cannot be a canonical date. */
  lemma ConvertPlain(d: string)
    requires forall k :: 0 <= k < |d| ==> Plain(d[k])
    ensures Convertible(d) && !IsCanonical(Convert(d))
  {
    assert '/' !in d && '.' !in d && '-' !in d;
    var c := Convert(d);
    if 'T' in d {
      SplitFirst(d, 'T');
    }
    assert c == d[..|c|];
    if |c| == 10 {
      assert c[4] == d[4] && Plain(d[4]);
      assert !Fits(c[0 + 4], YearFirst('-')[4]);
    }
  }

  /** No match throws in the rewriting. */
  lemma MatchIsConvertible(p: Pattern, d: string)
    requires p.Fixed? ==> p in DateFormats && |d| == |p.shape| && MatchesAt(d, p.shape, 0)
    requires !p.Fixed? ==> forall k :: 0 <= k < |d| ==> Plain(d[k])
    ensures Convertible(d)
  {
    if p.Fixed? {
      if p.shape == YearFirst('-') { ConvertYearFirst(d, '-'); }
      else if p.shape == YearFirst('/') { ConvertYearFirst(d, '/'); }
      else if p.shape == YearFirst('.') { ConvertYearFirst(d, '.'); }
      else if p.shape == DayFirst('-') { ConvertDayFirst(d, '-'); }
      else if p.shape == DayFirst('/') { ConvertDayFirst(d, '/'); }
      else if p.shape == DayFirst('.') { ConvertDayFirst(d, '.'); }
      else { ConvertIsoDateTime(d); }
    } else {
      ConvertPlain(d);
    }
  }

  // ---------------------------------------------------------------------
  // Priority among the formats

  /** A fixed pattern that is not empty and has no white-space position,
      so that `trim` cannot cut into a match of it. */
  predicate Solid(shape: seq<Atom>) {
    |shape| > 0 && forall j :: 0 <= j < |shape| ==> shape[j].Digit? || !IsSpace(shape[j].c)
  }

  /** The patterns keep their match when the fragment is trimmed ... */
  lemma MatchInTrim(s: string, shape: seq<Atom>, i: int)
    requires Solid(shape) && MatchesAt(s, shape, i)
    ensures TrimLo(s) <= i && i + |shape| <= TrimHi(s)
    ensures MatchesAt(Trim(s), shape, i - TrimLo(s))
  {
    var last := |shape| - 1;
    assert Fits(s[i + 0], shape[0]) && Fits(s[i + last], shape[last]);
    assert !IsSpace(s[i]) && !IsSpace(s[i + last]);
    var t, lo := Trim(s), TrimLo(s);
    forall j | 0 <= j < |shape| ensures Fits(t[i - lo + j], shape[j]) {
      assert t[i - lo + j] == s[i + j];
      assert Fits(s[i + j], shape[j]);
    }
  }

  /** ... and gain none. */
  lemma MatchFromTrim(s: string, shape: seq<Atom>, j: int)
    requires MatchesAt(Trim(s), shape, j)
    ensures MatchesAt(s, shape, j + TrimLo(s))
  {
    var t, lo := Trim(s), TrimLo(s);
    forall m | 0 <= m < |shape| ensures Fits(s[j + lo + m], shape[m]) {
      assert Fits(t[j + m], shape[m]);
      assert t[j + m] == s[j + lo + m];
    }
  }

  /** The leftmost match in the trimmed fragment is the leftmost in the fragment. */
  lemma LeftmostSurvivesTrim(s: string, shape: seq<Atom>, i: int)
    requires Solid(shape) && MatchesAt(s, shape, i)
    requires forall j :: 0 <= j < i ==> !MatchesAt(s, shape, j)
    ensures FindShape(Trim(s), shape, 0) == Some(i - TrimLo(s))
  {
    MatchInTrim(s, shape, i);
    var r := FindShape(Trim(s), shape, 0);
    if r.Some? && r.value < i - TrimLo(s) {
      MatchFromTrim(s, shape, r.value);
    }
  }

  lemma AbsentAfterTrim(s: string, shape: seq<Atom>)
    requires forall j :: !MatchesAt(s, shape, j)
    ensures FindShape(Trim(s), shape, 0) == None
  {
    var r := FindShape(Trim(s), shape, 0);
    if r.Some? {
      MatchFromTrim(s, shape, r.value);
    }
  }

  lemma TrimSlice(s: string, a: int, b: int)
    requires TrimLo(s) <= a <= b <= TrimHi(s)
    ensures Trim(s)[a - TrimLo(s)..b - TrimLo(s)] == s[a..b]
  {
  }

  lemma FixedMatchText(clean: string, shape: seq<Atom>, p: nat)
    requires FindShape(clean, shape, 0) == Some(p)
    ensures MatchPattern(Fixed(shape), clean) == Some(clean[p..p + |shape|])
  {
  }

  /** Formats that no longer match are passed over by the loop. */
  lemma {:induction false} SkipFormats(clean: string, m: nat, k: nat)
    requires m <= k <= |DateFormats|
    requires forall n :: m <= n < k ==> MatchPattern(DateFormats[n], clean).None?
    ensures TryFormats(clean, m) == TryFormats(clean, k)
    decreases k - m
  {
    if m < k {
      SkipFormats(clean, m + 1, k);
    }
  }

  /** Formats 1, 4 and 6 (indexes 0, 3 and 5) put the year first. */
  predicate YearFirstFormat(k: nat) { k == 0 || k == 3 || k == 5 }

  lemma RearrangedCanonical(w: string, yearFirst: bool, sep: char)
    requires |w| == 10
    requires MatchesAt(w, if yearFirst then YearFirst(sep) else DayFirst(sep), 0)
    ensures IsCanonical(Rearranged(yearFirst, w))
  {
    var shape := if yearFirst then YearFirst(sep) else DayFirst(sep);
    Unpack(w, shape);
    var r := Rearranged(yearFirst, w);
    var target := YearFirst('-');
    forall j | 0 <= j < 10 ensures Fits(r[0 + j], target[j]) {
      if yearFirst {
        assert r[j] == if j == 4 || j == 7 then '-' else w[j];
      } else {
        assert r[j] == if j == 4 || j == 7 then '-' else if j < 4 then w[6 + j] else if j < 7 then w[j - 2] else w[j - 8];
      }
    }
  }

  /** What the loop does with a match of one of the first six formats. */
  lemma NumericMatchAccepted(clean: string, k: nat, w: string)
    requires k < 6 && MatchPattern(DateFormats[k], clean) == Some(w)
    ensures |w| == 10
    ensures TryFormats(clean, k) == Some(Rearranged(YearFirstFormat(k), w))
  {
    if k == 0 {
      ConvertYearFirst(w, '-'); RearrangedCanonical(w, true, '-');
    } else if k == 1 {
      ConvertDayFirst(w, '-'); RearrangedCanonical(w, false, '-');
    } else if k == 2 {
      ConvertDayFirst(w, '/'); RearrangedCanonical(w, false, '/');
    } else if k == 3 {
      ConvertYearFirst(w, '/'); RearrangedCanonical(w, true, '/');
    } else if k == 4 {
      ConvertDayFirst(w, '.'); RearrangedCanonical(w, false, '.');
    } else {
      ConvertYearFirst(w, '.'); RearrangedCanonical(w, true, '.');
    }
  }

  lemma NumericShapeSolid(k: nat)
    requires k < 6
    ensures DateFormats[k].Fixed? && |DateFormats[k].shape| == 10 && Solid(DateFormats[k].shape)
  {
    var sep := if k < 2 then '-' else if k < 4 then '/' else '.';
    assert !IsSpace(sep);
    assert DateFormats[k].shape == if YearFirstFormat(k) then YearFirst(sep) else DayFirst(sep);
  }

  /** The leftmost match of a solid pattern in the fragment is the text
      `match[1]` of the trimmed fragment. */
  lemma FixedMatchInTrim(s: string, shape: seq<Atom>, i: int)
    requires Solid(shape) && MatchesAt(s, shape, i)
    requires forall j :: 0 <= j < i ==> !MatchesAt(s, shape, j)
    ensures MatchPattern(Fixed(shape), Trim(s)) == Some(s[i..i + |shape|])
  {
    LeftmostSurvivesTrim(s, shape, i);
    MatchInTrim(s, shape, i);
    TrimSlice(s, i, i + |shape|);
    FixedMatchText(Trim(s), shape, i - TrimLo(s));
  }

  lemma NumericMatchInTrim(s: string, k: nat, i: int)
    requires k < 6
    requires MatchesAt(s, DateFormats[k].shape, i)
    requires forall j :: 0 <= j < i ==> !MatchesAt(s, DateFormats[k].shape, j)
    ensures MatchPattern(DateFormats[k], Trim(s)) == Some(s[i..i + 10])
  {
    NumericShapeSolid(k);
    FixedMatchInTrim(s, DateFormats[k].shape, i);
  }

  /** The loop, once the formats before `k` have failed to match. */
  lemma NumericFormatAccepted(clean: string, k: nat, w: string)
    requires k < 6
    requires forall n :: 0 <= n < k ==> MatchPattern(DateFormats[n], clean).None?
    requires MatchPattern(DateFormats[k], clean) == Some(w)
    ensures |w| == 10 && TryFormats(clean, 0) == Some(Rearranged(YearFirstFormat(k), w))
  {
    SkipFormats(clean, 0, k);
    NumericMatchAccepted(clean, k, w);
  }

  /** The first six formats in priority order: when none of the formats
      before format `k` occurs anywhere in the fragment, the leftmost
      occurrence of format `k` decides the date, with its groups reordered to
      year, month, day (the year is the four-digit group, the day is the
      first group of a day-first date). */
  lemma NumericFormatDecides(s: string, k: nat, i: int)
    requires k < 6
    requires forall n, j :: 0 <= n < k ==> !MatchesAt(s, DateFormats[n].shape, j)
    requires MatchesAt(s, DateFormats[k].shape, i)
    requires forall j :: 0 <= j < i ==> !MatchesAt(s, DateFormats[k].shape, j)
    ensures ParseDate(s) == Some(Rearranged(YearFirstFormat(k), s[i..i + 10]))
  {
    var clean := Trim(s);
    forall n | 0 <= n < k ensures MatchPattern(DateFormats[n], clean).None? {
      NumericShapeSolid(n);
      AbsentAfterTrim(s, DateFormats[n].shape);
    }
    NumericMatchInTrim(s, k, i);
    NumericFormatAccepted(clean, k, s[i..i + 10]);
    assert s != "";
  }

  /** Rewriting a `YYYY-MM-DD` match changes nothing. */
  lemma RearrangedIsoDate(w: string)
    requires |w| == 10 && MatchesAt(w, YearFirst('-'), 0)
    ensures Rearranged(true, w) == w
  {
    ShapeChars(w, '-', true);
    assert w == w[..4] + "-" + w[5..7] + "-" + w[8..];
  }

  /** The leftmost `YYYY-MM-DD` in the fragment is the result, unchanged,
      whatever else the fragment holds. */
  lemma IsoDateWins(s: string, i: int)
    requires MatchesAt(s, YearFirst('-'), i)
    requires forall j :: 0 <= j < i ==> !MatchesAt(s, YearFirst('-'), j)
    ensures ParseDate(s) == Some(s[i..i + 10])
  {
    NumericFormatDecides(s, 0, i);
    var w := s[i..i + 10];
    assert MatchesAt(w, YearFirst('-'), 0) by {
      forall j | 0 <= j < 10 ensures Fits(w[0 + j], YearFirst('-')[j]) {
        assert w[j] == s[i + j];
      }
    }
    RearrangedIsoDate(w);
  }

  /** A `YYYY-MM-DDThh:mm:ss` with no earlier `YYYY-MM-DD` gives its date
      part: format 9 is never the one that decides. */
  lemma IsoDateTimeDropsTime(s: string, i: int)
    requires MatchesAt(s, IsoDateTime, i)
    requires forall j :: 0 <= j < i ==> !MatchesAt(s, YearFirst('-'), j)
    ensures ParseDate(s) == Some(s[i..i + 10])
  {
    IsoDateTimeHasIsoDate(s, i);
    IsoDateWins(s, i);
  }

  lemma IsoDateTimeHasIsoDate(s: string, i: int)
    requires MatchesAt(s, IsoDateTime, i)
    ensures MatchesAt(s, YearFirst('-'), i)
  {
    var short := YearFirst('-');
    forall j | 0 <= j < 10 ensures Fits(s[i + j], short[j]) {
      assert IsoDateTime[j] == short[j];
      assert Fits(s[i + j], IsoDateTime[j]);
    }
  }

  /** Without a numeric date the result is `null`: the textual formats match
      but produce no date, and format 9 cannot match. */
  lemma NoNumericDateIsNull(s: string)
    requires forall n, j :: 0 <= n < 6 ==> !MatchesAt(s, DateFormats[n].shape, j)
    ensures ParseDate(s) == None
  {
    if s != "" {
      var clean := Trim(s);
      forall n | 0 <= n < 6 ensures MatchPattern(DateFormats[n], clean).None? {
        AbsentAfterTrim(s, DateFormats[n].shape);
      }
      SkipFormats(clean, 0, 6);
      var m6 := MatchPattern(DateFormats[6], clean);
      if m6.Some? { ConvertPlain(m6.value); }
      assert TryFormats(clean, 6) == TryFormats(clean, 7);
      var m7 := MatchPattern(DateFormats[7], clean);
      if m7.Some? { ConvertPlain(m7.value); }
      assert TryFormats(clean, 7) == TryFormats(clean, 8);
      assert DateFormats[0].shape == YearFirst('-');
      var r := FindShape(clean, IsoDateTime, 0);
      if r.Some? {
        IsoDateTimeHasIsoDate(clean, r.value);
        MatchFromTrim(s, YearFirst('-'), r.value);
      }
      assert MatchPattern(DateFormats[8], clean).None?;
    }
  }

  /** A fragment without a digit, the empty one included, gives `null`. */
  lemma NoDigitIsNull(s: string)
    requires forall k :: 0 <= k < |s| ==> !IsDigit(s[k])
    ensures ParseDate(s) == None
  {
    forall n, j | 0 <= n < 6 ensures !MatchesAt(s, DateFormats[n].shape, j) {
      assert DateFormats[n].shape[0] == Digit;
      if 0 <= j < |s| {
        assert !Fits(s[j + 0], DateFormats[n].shape[0]);
      }
    }
    NoNumericDateIsNull(s);
  }
}
