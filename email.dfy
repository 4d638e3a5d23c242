/**
 * The Email value object: an immutable, trimmed and lower-cased address
 * that matches the simplified shape `local@host.tld` of the pattern
 * `^[A-Za-z0-9+_.-]+@[A-Za-z0-9.-]+\.[A-Za-z]{2,}$` (not RFC 5322).
 */
module EmailAddresses {
  import opened Results
  import opened JavaText

  predicate IsLetter(c: char) {
    'A' <= c <= 'Z' || 'a' <= c <= 'z'
  }

  /** `[A-Za-z0-9+_.-]` */
  predicate IsLocalChar(c: char) {
    IsLetter(c) || IsDigit(c) || c == '+' || c == '_' || c == '.' || c == '-'
  }

  /** `[A-Za-z0-9.-]` */
  predicate IsHostChar(c: char) {
    IsLetter(c) || IsDigit(c) || c == '.' || c == '-'
  }

  predicate AllLocal(s: string) {
    forall i :: 0 <= i < |s| ==> IsLocalChar(s[i])
  }

  predicate AllHost(s: string) {
    forall i :: 0 <= i < |s| ==> IsHostChar(s[i])
  }

  predicate AllLetters(s: string) {
    forall i :: 0 <= i < |s| ==> IsLetter(s[i])
  }

  /** The three runs the pattern asks for: `[..]+`, `[..]+` and `[A-Za-z]{2,}`. */
  predicate IsPatternSplit(local: string, host: string, tld: string) {
    && |local| > 0 && AllLocal(local)
    && |host| > 0 && AllHost(host)
    && |tld| >= 2 && AllLetters(tld)
  }

  function Assemble(local: string, host: string, tld: string): string {
    local + "@" + host + "." + tld
  }

  /** What `EMAIL_PATTERN.matcher(s).matches()` means: `s` can be cut into
      the three runs with `@` and `.` between them. */
  ghost predicate MatchesRegex(s: string) {
    exists local, host, tld :: IsPatternSplit(local, host, tld) && s == Assemble(local, host, tld)
  }

  /** The pattern as a decision procedure: the local run ends at the first
      `@`, the host run at the last `.`, and letters follow that dot. */
  predicate MatchesPattern(s: string) {
    match (IndexOf(s, '@'), LastIndexOf(s, '.'))
    case (Some(at), Some(dot)) =>
      && 0 < at && at + 1 < dot && |s| - dot - 1 >= 2
      && AllLocal(s[..at]) && AllHost(s[at + 1..dot]) && AllLetters(s[dot + 1..])
    case _ => false
  }

  /** A matching string is the assembly of the three runs found at its first
      `@` and its last `.`. */
  lemma PatternParts(s: string)
    requires MatchesPattern(s)
    ensures var at, dot := IndexOf(s, '@').value, LastIndexOf(s, '.').value;
      && IsPatternSplit(s[..at], s[at + 1..dot], s[dot + 1..])
      && s == Assemble(s[..at], s[at + 1..dot], s[dot + 1..])
  {
    var at, dot := IndexOf(s, '@').value, LastIndexOf(s, '.').value;
    assert s == s[..at] + "@" + s[at + 1..dot] + "." + s[dot + 1..];
  }

  /** The decision procedure accepts exactly the strings the regex matches. */
  lemma MatchesPatternIffRegex(s: string)
    ensures MatchesPattern(s) <==> MatchesRegex(s)
  {
    if MatchesPattern(s) {
      PatternParts(s);
      var at, dot := IndexOf(s, '@').value, LastIndexOf(s, '.').value;
      assert IsPatternSplit(s[..at], s[at + 1..dot], s[dot + 1..]);
    }
    if MatchesRegex(s) {
      var local, host, tld :| IsPatternSplit(local, host, tld) && s == Assemble(local, host, tld);
      SplitIsFound(s, local, host, tld);
    }
  }

  /** The pieces of an assembled address sit where their lengths put them. */
  lemma AssembleSlices(s: string, local: string, host: string, tld: string)
    requires s == Assemble(local, host, tld)
    ensures |s| == |local| + |host| + |tld| + 2
    ensures s[|local|] == '@' && s[|local| + 1 + |host|] == '.'
    ensures s[..|local|] == local
    ensures s[|local| + 1..|local| + 1 + |host|] == host
    ensures s[|local| + 2 + |host|..] == tld
    ensures s[|local| + 1..] == host + "." + tld
  {
    assert s == local + ("@" + (host + "." + tld));
    assert s[|local| + 1..] == host + "." + tld;
    assert host + "." + tld == host + ("." + tld);
  }

  /** An index where `c` occurs with no earlier `c` is what `indexOf` returns. */
  lemma IndexOfIs(s: string, c: char, k: nat)
    requires k < |s| && s[k] == c
    requires forall i :: 0 <= i < k ==> s[i] != c
    ensures IndexOf(s, c) == Some(k)
  {
  }

  /** An index where `c` occurs with no later `c` is what `lastIndexOf` returns. */
  lemma LastIndexOfIs(s: string, c: char, k: nat)
    requires k < |s| && s[k] == c
    requires forall i :: k < i < |s| ==> s[i] != c
    ensures LastIndexOf(s, c) == Some(k)
  {
  }

  /** Where the regex can cut, `indexOf('@')` and `lastIndexOf('.')` find the cuts. */
  lemma SplitPositions(s: string, local: string, host: string, tld: string)
    requires IsPatternSplit(local, host, tld) && s == Assemble(local, host, tld)
    ensures IndexOf(s, '@') == Some(|local|)
    ensures LastIndexOf(s, '.') == Some(|local| + 1 + |host|)
  {
    AssembleSlices(s, local, host, tld);
    var at, dot := |local|, |local| + 1 + |host|;
    forall i | 0 <= i < at ensures s[i] != '@' {
      assert s[i] == local[i];
    }
    IndexOfIs(s, '@', at);
    forall i | dot < i < |s| ensures s[i] != '.' {
      assert s[i] == tld[i - dot - 1];
    }
    LastIndexOfIs(s, '.', dot);
  }

  /** Where the regex can cut, the decision procedure accepts. */
  lemma SplitIsFound(s: string, local: string, host: string, tld: string)
    requires IsPatternSplit(local, host, tld) && s == Assemble(local, host, tld)
    ensures MatchesPattern(s)
  {
    SplitPositions(s, local, host, tld);
    AssembleSlices(s, local, host, tld);
  }

  /** What an `Email` holds: a string matching the pattern, already lower-cased. */
  predicate IsEmailValue(v: string) {
    MatchesPattern(v) && NoUpper(v)
  }

  datatype EmailValue = EmailValue(value: string)

  /** An `Email` exists only through `of`; its `value` is `getValue()`,
      and `==` is `equals`, which compares the normalised values. */
  type Email = e: EmailValue | IsEmailValue(e.value) witness EmailValue(SampleAddress())

  /** The shortest shape the pattern admits, `a@b.co`. */
  function SampleAddress(): (v: string)
    ensures IsEmailValue(v)
  {
    SampleIsAddress("a", "b", "co");
    Assemble("a", "b", "co")
  }

  lemma SampleIsAddress(local: string, host: string, tld: string)
    requires local == "a" && host == "b" && tld == "co"
    ensures IsEmailValue(Assemble(local, host, tld))
  {
    SplitIsFound(Assemble(local, host, tld), local, host, tld);
    assert NoUpper(Assemble(local, host, tld));
  }

  const BlankMessage := "Email não pode ser nulo ou vazio"
  const InvalidPrefix := "Email inválido: "

  /** `email.trim().toLowerCase()` */
  function Normalize(s: string): (r: string)
    ensures |r| <= |s| && NoUpper(r)
  {
    ToLower(Trim(s))
  }

  /** `Email.of(raw)`. */
  function Of(raw: Option<string>): (r: Result<Email, Error>)
    ensures r.Success? <==> raw.Some? && !IsBlank(raw.value) && MatchesRegex(Normalize(raw.value))
    ensures r.Success? ==> r.value.value == Normalize(raw.value)
    ensures raw.None? || IsBlank(raw.value) ==> r == Failure(IllegalArgument(BlankMessage))
    ensures raw.Some? && !IsBlank(raw.value) && !MatchesRegex(Normalize(raw.value)) ==>
              r == Failure(IllegalArgument(InvalidPrefix + raw.value))
  {
    if raw.None? || IsBlank(raw.value) then Failure(IllegalArgument(BlankMessage))
    else
      var normalizedEmail := Normalize(raw.value);
      MatchesPatternIffRegex(normalizedEmail);
      if !MatchesPattern(normalizedEmail) then Failure(IllegalArgument(InvalidPrefix + raw.value))
      else Success(EmailValue(normalizedEmail))
  }

  /** `value.indexOf('@')`, which an `Email` always has. */
  function AtIndex(e: Email): (k: nat)
    ensures 0 < k < |e.value| && e.value[k] == '@'
    ensures forall i :: 0 <= i < k ==> e.value[i] != '@'
  {
    IndexOf(e.value, '@').value
  }

  /** `getDomain`: everything after the `@`. */
  function Domain(e: Email): (d: string)
    ensures |d| < |e.value| && d == e.value[|e.value| - |d|..]
    ensures e.value[|e.value| - |d| - 1] == '@'
  {
    e.value[AtIndex(e) + 1..]
  }

  /** `getLocalPart`: everything before the `@`. */
  function LocalPart(e: Email): (l: string)
    ensures 0 < |l| < |e.value| && l == e.value[..|l|] && e.value[|l|] == '@'
    ensures forall i :: 0 <= i < |l| ==> l[i] != '@'
  {
    e.value[..AtIndex(e)]
  }

  /** `isFromDomain`: the domain equals the argument up to case; null never does. */
  predicate IsFromDomain(e: Email, domain: Option<string>) {
    EqualsIgnoreCase(Domain(e), domain)
  }

  /** `toString` returns the normalised value. */
  function ToString(e: Email): string {
    e.value
  }
}

/** What the Email value object promises, proved about `EmailAddresses`. */
module EmailProperties {
  import opened Results
  import opened JavaText
  import opened EmailAddresses

  /** The local part and the domain are the text on either side of the first `@`. */
  lemma LocalAtDomain(e: Email)
    ensures LocalPart(e) + "@" + Domain(e) == e.value
    ensures LocalPart(e) != [] && AllLocal(LocalPart(e))
  {
    var s, at := e.value, AtIndex(e);
    assert s == s[..at] + "@" + s[at + 1..];
  }

  /** The domain holds no `@`: an `Email` has exactly one. */
  lemma DomainHasNoAt(e: Email)
    ensures forall i :: 0 <= i < |Domain(e)| ==> Domain(e)[i] != '@'
  {
    var s := e.value;
    var at, dot := IndexOf(s, '@').value, LastIndexOf(s, '.').value;
    var host, tld := s[at + 1..dot], s[dot + 1..];
    forall i | at + 1 <= i < |s| ensures s[i] != '@' {
      if i < dot {
        assert s[i] == host[i - at - 1];
      } else if i > dot {
        assert s[i] == tld[i - dot - 1];
      }
    }
  }

  /** A domain built from host and letter runs holds no `@`. */
  lemma NoAtInDomain(host: string, tld: string)
    requires AllHost(host) && AllLetters(tld)
    ensures forall i :: 0 <= i < |host + "." + tld| ==> (host + "." + tld)[i] != '@'
  {
    var d := host + "." + tld;
    forall i | 0 <= i < |d| ensures d[i] != '@' {
      if i < |host| {
        assert d[i] == host[i];
      } else if i > |host| {
        assert d[i] == tld[i - |host| - 1];
      }
    }
  }

  /** Built from the regex's three runs, an email splits back into them. */
  lemma PartsOfAssembled(e: Email, local: string, host: string, tld: string)
    requires IsPatternSplit(local, host, tld) && e.value == Assemble(local, host, tld)
    ensures LocalPart(e) == local
    ensures Domain(e) == host + "." + tld
  {
    var s := e.value;
    SplitPositions(s, local, host, tld);
    AssembleSlices(s, local, host, tld);
    assert AtIndex(e) == |local|;
    assert LocalPart(e) == s[..|local|];
    assert Domain(e) == s[|local| + 1..];
  }

  /** `isFromDomain(d)` holds exactly when `d` is present and lower-cases to `getDomain()`. */
  lemma IsFromDomainIff(e: Email, d: Option<string>)
    ensures IsFromDomain(e, d) <==> d.Some? && ToLower(d.value) == Domain(e)
  {
    var dom := Domain(e);
    assert forall i :: 0 <= i < |dom| ==> dom[i] == e.value[AtIndex(e) + 1 + i];
    ToLowerKeeps(dom);
  }

  /** An address starts with a local-part character and ends with a letter. */
  lemma EmailEnds(v: string)
    requires IsEmailValue(v)
    ensures v != [] && IsLocalChar(v[0]) && IsLetter(v[|v| - 1])
  {
    var at, dot := IndexOf(v, '@').value, LastIndexOf(v, '.').value;
    assert v[0] == v[..at][0];
    assert v[|v| - 1] == v[dot + 1..][|v| - dot - 2];
  }

  /** A stored value is accepted again as it is: `of(e.getValue())` equals `e`. */
  lemma ValueRoundTrip(e: Email)
    ensures Of(Some(e.value)) == Success(e)
    ensures ToString(e) == e.value
  {
    var s := e.value;
    EmailEnds(s);
    assert !IsWhitespace(s[0]);
    TrimKeeps(s);
    ToLowerKeeps(s);
    MatchesPatternIffRegex(s);
  }

  /** Padding around an address is trimmed and its capitals lowered: `of`
      accepts any casing of an address, surrounded by spaces or controls. */
  lemma AcceptsPaddedAnyCase(before: string, t: string, after: string)
    requires AllTrimmable(before) && AllTrimmable(after)
    requires IsEmailValue(ToLower(t))
    ensures Of(Some(before + t + after)) == Success(EmailValue(ToLower(t)))
  {
    AnyCaseEnds(t);
    TrimPadded(before, t, after);
    assert (before + t + after)[|before|] == t[0];
    MatchesPatternIffRegex(ToLower(t));
  }

  /** Text that lower-cases to an address has ends that `trim` and `isBlank` keep. */
  lemma AnyCaseEnds(t: string)
    requires IsEmailValue(ToLower(t))
    ensures t != [] && !IsWhitespace(t[0])
    ensures !IsTrimmable(t[0]) && !IsTrimmable(t[|t| - 1])
  {
    var v := ToLower(t);
    EmailEnds(v);
    if !IsUpper(t[0]) { assert t[0] == v[0]; }
    if !IsUpper(t[|t| - 1]) { assert t[|t| - 1] == v[|v| - 1]; }
  }

  /** Normalisation is idempotent: re-reading the value `of` produced gives the same email. */
  lemma NormalizationIdempotent(raw: Option<string>)
    requires Of(raw).Success?
    ensures Of(Some(Of(raw).value.value)) == Of(raw)
  {
    ValueRoundTrip(Of(raw).value);
  }

  /** Two inputs give equal emails exactly when they normalise to the same text. */
  lemma EqualIffSameNormalForm(a: string, b: string)
    requires Of(Some(a)).Success? && Of(Some(b)).Success?
    ensures Of(Some(a)) == Of(Some(b)) <==> Normalize(a) == Normalize(b)
  {
  }

  /** Lower-case runs assemble into a lower-case address. */
  lemma AssembledNoUpper(local: string, host: string, tld: string)
    requires NoUpper(local) && NoUpper(host) && NoUpper(tld)
    ensures NoUpper(Assemble(local, host, tld))
  {
    assert Assemble(local, host, tld) == local + ("@" + (host + ("." + tld)));
  }

  /** Lower-case runs that fit the pattern make an `Email` that splits back into them. */
  lemma AssembledEmail(local: string, host: string, tld: string)
    requires IsPatternSplit(local, host, tld)
    requires NoUpper(local) && NoUpper(host) && NoUpper(tld)
    ensures IsEmailValue(Assemble(local, host, tld))
    ensures LocalPart(EmailValue(Assemble(local, host, tld))) == local
    ensures Domain(EmailValue(Assemble(local, host, tld))) == host + "." + tld
  {
    var s := Assemble(local, host, tld);
    SplitIsFound(s, local, host, tld);
    AssembledNoUpper(local, host, tld);
    PartsOfAssembled(EmailValue(s), local, host, tld);
  }

  /** `joao@example.com` is a valid address. */
  lemma JoaoAtExample(v: string)
    requires v == "joao@example.com"
    ensures IsEmailValue(v)
  {
    var local, host, tld := "joao", "example", "com";
    assert IsPatternSplit(local, host, tld);
    assert NoUpper(local) && NoUpper(host) && NoUpper(tld);
    assert Assemble(local, host, tld) == v;
    AssembledEmail(local, host, tld);
  }

  /** A dot in the local part is allowed: `joao.silva@example.com` is valid,
      and its local part is `joao.silva`. */
  lemma DottedLocalPart(local: string, host: string, tld: string)
    requires local == "joao.silva" && host == "example" && tld == "com"
    ensures IsEmailValue(Assemble(local, host, tld))
    ensures LocalPart(EmailValue(Assemble(local, host, tld))) == local
  {
    assert IsPatternSplit(local, host, tld);
    assert NoUpper(local) && NoUpper(host) && NoUpper(tld);
    AssembledEmail(local, host, tld);
  }

  /** `"  JOAO@EXAMPLE.COM  "` is read as `joao@example.com`. */
  lemma NormalizesSpacesAndCase(pad: string, t: string)
    requires pad == "  " && t == "JOAO@EXAMPLE.COM"
    ensures Of(Some(pad + t + pad)) == Success(EmailValue("joao@example.com"))
  {
    assert ToLower(t) == "joao@example.com";
    JoaoAtExample(ToLower(t));
    AcceptsPaddedAnyCase(pad, t, pad);
  }

  /** Null and blank input are rejected before normalising. */
  lemma RejectsBlank(empty: string, blank: string)
    requires empty == "" && blank == " \t "
    ensures Of(None) == Failure(IllegalArgument(BlankMessage))
    ensures Of(Some(empty)) == Failure(IllegalArgument(BlankMessage))
    ensures Of(Some(blank)) == Failure(IllegalArgument(BlankMessage))
  {
    assert IsBlank(blank);
  }

  /** A string without `@` is rejected. */
  lemma RejectsMissingAt(s: string)
    requires s == "email-invalido"
    ensures Of(Some(s)) == Failure(IllegalArgument(InvalidPrefix + s))
  {
    assert forall i :: 0 <= i < |s| ==> s[i] != '@';
    assert !MatchesPattern(s);
    assert NoUpper(s);
    RejectedIfNotMatching(s);
  }

  /** An empty local part is rejected. */
  lemma RejectsEmptyLocalPart(s: string)
    requires s == "@example.com"
    ensures Of(Some(s)) == Failure(IllegalArgument(InvalidPrefix + s))
  {
    assert IndexOf(s, '@') == Some(0);
    assert !MatchesPattern(s);
    assert NoUpper(s);
    RejectedIfNotMatching(s);
  }

  /** An empty domain is rejected. */
  lemma RejectsEmptyDomain(s: string)
    requires s == "joao@"
    ensures Of(Some(s)) == Failure(IllegalArgument(InvalidPrefix + s))
  {
    assert LastIndexOf(s, '.').None?;
    assert !MatchesPattern(s);
    assert NoUpper(s);
    RejectedIfNotMatching(s);
  }

  /** A lower-case string with no spaces at its ends is rejected when the pattern fails. */
  lemma RejectedIfNotMatching(s: string)
    requires s != [] && !IsTrimmable(s[0]) && !IsTrimmable(s[|s| - 1]) && !IsWhitespace(s[0])
    requires NoUpper(s)
    requires !MatchesPattern(s)
    ensures Of(Some(s)) == Failure(IllegalArgument(InvalidPrefix + s))
  {
    TrimKeeps(s);
    ToLowerKeeps(s);
    MatchesPatternIffRegex(s);
  }
}
