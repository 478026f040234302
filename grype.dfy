/**
 * The pure part of the Grype runner (internal/grype/runner.go): shaping an
 * already-decoded Grype JSON report into vulnerability records, and deciding
 * whether a container image name is safe to hand to the scanner.
 */
module Grype {
  import opened Wrappers

  /** One vulnerability as the game consumes it; a `cvss` of 0 means "no score". */
  datatype Vulnerability = Vulnerability(
    id: string,
    severity: string,
    cvss: real,
    packageName: string,
    description: string)

  // The decoded shape of Grype's JSON report (Output, Match, ...).
  datatype CvssMetrics = CvssMetrics(baseScore: real)
  datatype CvssInfo = CvssInfo(source: string, kind: string, score: real, metrics: CvssMetrics)
  datatype VulnerabilityInfo = VulnerabilityInfo(
    id: string,
    severity: string,
    description: string,
    cvss: seq<CvssInfo>)
  datatype ArtifactInfo = ArtifactInfo(name: string, version: string)
  datatype Match = Match(vulnerability: VulnerabilityInfo, artifact: ArtifactInfo)
  datatype Output = Output(matches: seq<Match>)

  /* ---------------------------------------------------------------------
   * Report shaping
   * --------------------------------------------------------------------- */

  /** The score one CVSS entry offers: its top-level base score, or the
      nested metrics score when the top-level one is 0 and the nested one is positive. */
  function EntryScore(c: CvssInfo): (s: real)
    ensures c.score != 0.0 ==> s == c.score
    ensures c.score == 0.0 ==> s == (if c.metrics.baseScore > 0.0 then c.metrics.baseScore else 0.0)
  {
    if c.score == 0.0 && c.metrics.baseScore > 0.0 then c.metrics.baseScore else c.score
  }

  /** The running maximum the parser keeps over a match's CVSS entries,
      starting from 0: the largest score offered, or 0 when none is positive. */
  function HighestScore(entries: seq<CvssInfo>): (r: real)
    ensures r >= 0.0
    ensures forall i :: 0 <= i < |entries| ==> EntryScore(entries[i]) <= r
    ensures r == 0.0 || exists i :: 0 <= i < |entries| && EntryScore(entries[i]) == r
    ensures r == 0.0 <==> forall i :: 0 <= i < |entries| ==> EntryScore(entries[i]) <= 0.0
  {
    if entries == [] then 0.0
    else
      var prefix := entries[..|entries| - 1];
      var best := HighestScore(prefix);
      var s := EntryScore(entries[|entries| - 1]);
      assert forall i :: 0 <= i < |prefix| ==> prefix[i] == entries[i];
      if s > best then s else best
  }

  /** The record the parser builds for one match. */
  function Record(m: Match): Vulnerability
  {
    Vulnerability(
      m.vulnerability.id,
      m.vulnerability.severity,
      HighestScore(m.vulnerability.cvss),
      m.artifact.name,
      m.vulnerability.description)
  }

  const ParseErrorPrefix := "failed to parse JSON: "

  /** parseGrypeOutput, from the result of JSON decoding on: a decoding error is
      reported with a prefix; otherwise one record per match, in order. */
  method ParseGrypeOutput(decoded: Result<Output, string>) returns (r: Result<seq<Vulnerability>, string>)
    ensures decoded.Failure? ==> r == Failure(ParseErrorPrefix + decoded.error)
    ensures decoded.Success? ==> r.Success? && |r.value| == |decoded.value.matches|
    ensures decoded.Success? ==>
      forall i :: 0 <= i < |r.value| ==> r.value[i] == Record(decoded.value.matches[i])
  {
    if decoded.Failure? {
      return Failure(ParseErrorPrefix + decoded.error);
    }
    var matches := decoded.value.matches;
    var vulns: seq<Vulnerability> := [];
    for i := 0 to |matches|
      invariant |vulns| == i
      invariant forall k :: 0 <= k < i ==> vulns[k] == Record(matches[k])
    {
      var m := matches[i];
      var vuln := Vulnerability(
        m.vulnerability.id, m.vulnerability.severity, 0.0, m.artifact.name, m.vulnerability.description);
      var entries := m.vulnerability.cvss;
      for j := 0 to |entries|
        invariant vuln == Record(m).(cvss := HighestScore(entries[..j]))
      {
        assert entries[..j + 1][..j] == entries[..j];
        var score := entries[j].score;
        if score == 0.0 && entries[j].metrics.baseScore > 0.0 {
          score := entries[j].metrics.baseScore;
        }
        if score > vuln.cvss {
          vuln := vuln.(cvss := score);
        }
      }
      assert entries[..|entries|] == entries;
      vulns := vulns + [vuln];
    }
    return Success(vulns);
  }

  /* ---------------------------------------------------------------------
   * Image-name validation
   * --------------------------------------------------------------------- */

  datatype ImageNameError = EmptyName | InvalidCharacter(c: char) | InvalidFormat

  /** The message Go attaches to each error. */
  function ErrorText(e: ImageNameError): (text: string)
    ensures "image name " <= text
    ensures e.InvalidCharacter? ==> text[|text| - 1] == e.c
  {
    match e
    case EmptyName => "image name cannot be empty"
    case InvalidCharacter(c) => "image name contains invalid character: " + [c]
    case InvalidFormat => "image name contains invalid format"
  }

  /** The message identifies the error: different errors never share a text,
      and a refused character can be read back from its message. */
  lemma ErrorTextIdentifiesError(e1: ImageNameError, e2: ImageNameError)
    ensures ErrorText(e1) == ErrorText(e2) ==> e1 == e2
  {
  }

  /** Shell metacharacters refused before the format check, in the order they are tried. */
  const DangerousChars: seq<char> :=
    [';', '&', '|', '`', '$', '(', ')', '{', '}', '[', ']', '<', '>', '\n', '\r', '\\']

  predicate NoDangerousChar(s: string)
  {
    forall k :: 0 <= k < |DangerousChars| ==> DangerousChars[k] !in s
  }

  /** `c` is the first character of DangerousChars that occurs in `s`. */
  predicate FirstDangerousChar(s: string, c: char)
  {
    exists k :: 0 <= k < |DangerousChars| && DangerousChars[k] == c && c in s &&
      forall j :: 0 <= j < k ==> DangerousChars[j] !in s
  }

  predicate IsAlnum(c: char)
  {
    'a' <= c <= 'z' || 'A' <= c <= 'Z' || '0' <= c <= '9'
  }

  /** `[a-zA-Z0-9._\-/:]` */
  predicate IsNameChar(c: char)
  {
    IsAlnum(c) || c == '.' || c == '_' || c == '-' || c == '/' || c == ':'
  }

  /** `[a-zA-Z0-9._\-]` */
  predicate IsTagChar(c: char)
  {
    IsAlnum(c) || c == '.' || c == '_' || c == '-'
  }

  /** `[a-f0-9]` */
  predicate IsLowerHex(c: char)
  {
    'a' <= c <= 'f' || '0' <= c <= '9'
  }

  const DigestPrefix := "@sha256:"

  /** `(@sha256:[a-f0-9]+)?` matches all of `d`. */
  predicate OptionalDigest(d: string)
  {
    d == [] ||
    (|d| > |DigestPrefix| && d[..|DigestPrefix|] == DigestPrefix &&
     forall k :: |DigestPrefix| <= k < |d| ==> IsLowerHex(d[k]))
  }

  /** `(:[a-zA-Z0-9._\-]+)?` matches all of `t`. */
  predicate OptionalTag(t: string)
  {
    t == [] || (|t| >= 2 && t[0] == ':' && forall k :: 1 <= k < |t| ==> IsTagChar(t[k]))
  }

  /** The language of the anchored pattern
      `^[a-zA-Z0-9][a-zA-Z0-9._\-/:]*(:[a-zA-Z0-9._\-]+)?(@sha256:[a-f0-9]+)?$`:
      some split of `s` into the name, the optional tag and the optional digest. */
  ghost predicate RegexMatches(s: string)
  {
    exists i, j :: 1 <= i <= j <= |s| && IsAlnum(s[0]) &&
      (forall k :: 1 <= k < i ==> IsNameChar(s[k])) &&
      OptionalTag(s[i..j]) && OptionalDigest(s[j..])
  }

  /** The index of the first '@' in `s`, or |s| when there is none. */
  function FirstAt(s: string): (k: nat)
    ensures k <= |s|
    ensures k < |s| ==> s[k] == '@'
    ensures forall t :: 0 <= t < k ==> s[t] != '@'
  {
    if s == [] || s[0] == '@' then 0 else 1 + FirstAt(s[1..])
  }

  /** The format check: a letter or digit, then name characters up to the
      first '@', then nothing or `@sha256:` and lower-case hex digits. */
  predicate FormatOk(s: string)
  {
    var k := FirstAt(s);
    |s| > 0 && IsAlnum(s[0]) && (forall t :: 1 <= t < k ==> IsNameChar(s[t])) && OptionalDigest(s[k..])
  }

  /** A name accepted by the format check matches the regular expression,
      with an empty tag and the split at the first '@'. */
  lemma {:induction false} FormatOkMatchesRegex(s: string)
    requires FormatOk(s)
    ensures RegexMatches(s)
  {
    var k := FirstAt(s);
    assert s[k..k] == [];
    assert OptionalTag(s[k..k]);
  }

  /** A name matching the regular expression passes the format check: the
      digest, when present, starts at the first '@'. */
  lemma {:induction false} RegexMatchesFormatOk(s: string)
    requires RegexMatches(s)
    ensures FormatOk(s)
  {
    var i, j :| 1 <= i <= j <= |s| && IsAlnum(s[0]) &&
      (forall t :: 1 <= t < i ==> IsNameChar(s[t])) &&
      OptionalTag(s[i..j]) && OptionalDigest(s[j..]);
    forall t | 1 <= t < j
      ensures IsNameChar(s[t])
    {
      if t >= i {
        assert s[i..j][t - i] == s[t];
      }
    }
    if j < |s| {
      assert s[j..][0] == '@';
    }
    assert FirstAt(s) == j;
  }

  /** The format check decides exactly the regular expression's language: its
      optional `:tag` group adds nothing the name class does not already accept. */
  lemma FormatOkIffRegex(s: string)
    ensures FormatOk(s) <==> RegexMatches(s)
  {
    if FormatOk(s) {
      FormatOkMatchesRegex(s);
    }
    if RegexMatches(s) {
      RegexMatchesFormatOk(s);
    }
  }

  /** A name that passes the format check contains none of the refused
      metacharacters, so the metacharacter check only sharpens the error. */
  lemma FormatOkExcludesDangerous(s: string)
    requires FormatOk(s)
    ensures NoDangerousChar(s)
  {
  }

  /** validateImageName: `None` is Go's nil error. Empty names are refused
      first, then names holding a metacharacter (naming the first one in the
      list's order), then names outside the pattern. */
  method ValidateImageName(image: string) returns (r: Option<ImageNameError>)
    ensures r == Some(EmptyName) <==> image == []
    ensures (r.Some? && r.value.InvalidCharacter?) <==> image != [] && !NoDangerousChar(image)
    ensures r.Some? && r.value.InvalidCharacter? ==> FirstDangerousChar(image, r.value.c)
    ensures r == Some(InvalidFormat) <==> image != [] && NoDangerousChar(image) && !RegexMatches(image)
    ensures r == None <==> image != [] && NoDangerousChar(image) && RegexMatches(image)
  {
    if image == [] {
      return Some(EmptyName);
    }
    var i := 0;
    while i < |DangerousChars|
      invariant 0 <= i <= |DangerousChars|
      invariant forall j :: 0 <= j < i ==> DangerousChars[j] !in image
    {
      if DangerousChars[i] in image {
        return Some(InvalidCharacter(DangerousChars[i]));
      }
      i := i + 1;
    }
    FormatOkIffRegex(image);
    if !FormatOk(image) {
      return Some(InvalidFormat);
    }
    return None;
  }

  /** Every accepted name is free of the refused metacharacters and has the
      simple shape the format check describes. */
  lemma AcceptedNamesAreSafe(image: string)
    requires RegexMatches(image)
    ensures image != [] && NoDangerousChar(image) && FormatOk(image)
  {
    FormatOkIffRegex(image);
    FormatOkExcludesDangerous(image);
  }
}
