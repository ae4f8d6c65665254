/**
 Domain normalization and deduplication on strings. Unicode tables and IDNA are the environment's:
 a `Text` value says which characters are white space, how a string is lower-cased, and what IDNA
 encoding makes of a label. `Faithful` is all that is assumed of it.
 */
module Normalization {
  import opened DomainSyntax
  import opened Records
  import opened Sorting

  /** ToASCII of one label (section 4.1 of RFC 3490): a result, a UnicodeError, or any other exception. */
  datatype Idna = Encoded(ascii: string) | NotEncodable | Crashed(message: string)

  datatype Text = Text(isSpace: char -> bool, lower: string -> string, idna: string -> Idna)

  datatype NormalizedDomain = NormalizedDomain(value: string, isValid: bool, error: Option<string>)

  /** Host characters are no white space and lower case already; IDNA leaves ASCII labels of length 1 to 63 alone. */
  ghost predicate Faithful(t: Text) {
    && (forall c :: HostChar(c) ==> !t.isSpace(c))
    && (forall s :: (forall k :: 0 <= k < |s| ==> HostChar(s[k])) ==> t.lower(s) == s)
    && (forall l :: 1 <= |l| <= 63 && (forall k :: 0 <= k < |l| ==> l[k] as int < 128) ==> t.idna(l) == Encoded(l))
  }

  // ---- A faithful environment exists ----

  function LowerChar(c: char): char {
    if 'A' <= c <= 'Z' then 'a' + (c - 'A') else c
  }

  function LowerAscii(s: string): string {
    seq(|s|, k requires 0 <= k < |s| => LowerChar(s[k]))
  }

  predicate AsciiLabel(l: string) {
    1 <= |l| <= 63 && forall k :: 0 <= k < |l| ==> l[k] as int < 128
  }

  /** Plain ASCII: nothing else is encodable. */
  function AsciiText(): Text {
    Text(c => c == ' ' || '\t' <= c <= '\r', LowerAscii, l => if AsciiLabel(l) then Encoded(l) else NotEncodable)
  }

  /** What is assumed of the environment can be met. */
  lemma AsciiIsFaithful()
    ensures Faithful(AsciiText())
  {
    forall s: string | forall k :: 0 <= k < |s| ==> HostChar(s[k]) ensures LowerAscii(s) == s {
      assert forall k :: 0 <= k < |s| ==> HostChar(s[k]) && LowerChar(s[k]) == s[k];
    }
  }

  // ---- String operations ----

  function StripLeft(t: Text, s: string): string {
    if s != "" && t.isSpace(s[0]) then StripLeft(t, s[1..]) else s
  }

  function StripRight(t: Text, s: string): string {
    if s != "" && t.isSpace(s[|s| - 1]) then StripRight(t, s[..|s| - 1]) else s
  }

  function Strip(t: Text, s: string): string {
    StripRight(t, StripLeft(t, s))
  }

  /** Stripping removes white space from both ends and nothing else. */
  lemma StripTrims(t: Text, s: string) returns (i: nat, j: nat)
    ensures i <= j <= |s| && Strip(t, s) == s[i..j]
    ensures forall k :: 0 <= k < i || j <= k < |s| ==> t.isSpace(s[k])
    ensures i < j ==> !t.isSpace(s[i]) && !t.isSpace(s[j - 1])
  {
    i := StripLeftTrims(t, s);
    var n := StripRightTrims(t, s[i..]);
    j := i + n;
    assert s[i..][..n] == s[i..j];
    assert forall k :: j <= k < |s| ==> s[k] == s[i..][k - i];
  }

  lemma {:induction false} StripLeftTrims(t: Text, s: string) returns (i: nat)
    ensures i <= |s| && StripLeft(t, s) == s[i..]
    ensures (forall k :: 0 <= k < i ==> t.isSpace(s[k])) && (i < |s| ==> !t.isSpace(s[i]))
  {
    if s != "" && t.isSpace(s[0]) {
      var n := StripLeftTrims(t, s[1..]);
      i := n + 1;
      assert forall k :: 0 < k < i ==> s[k] == s[1..][k - 1];
    } else {
      i := 0;
    }
  }

  lemma {:induction false} StripRightTrims(t: Text, s: string) returns (n: nat)
    ensures n <= |s| && StripRight(t, s) == s[..n]
    ensures (forall k :: n <= k < |s| ==> t.isSpace(s[k])) && (n > 0 ==> !t.isSpace(s[n - 1]))
  {
    if s != "" && t.isSpace(s[|s| - 1]) {
      var most := s[..|s| - 1];
      n := StripRightTrims(t, most);
      assert most[..n] == s[..n];
      assert forall k :: 0 <= k < |most| ==> most[k] == s[k];
    } else {
      n := |s|;
    }
  }

  predicate Alpha(c: char) {
    'a' <= c <= 'z' || 'A' <= c <= 'Z'
  }

  predicate SchemeChar(c: char) {
    Alpha(c) || '0' <= c <= '9' || c == '+' || c == '.' || c == '-'
  }

  /** The characters of a scheme, by code: letters, then the digits, plus, hyphen and dot as well. */
  lemma SchemeCharsAre(c: char)
    ensures Alpha(c) <==> 65 <= c as int <= 90 || 97 <= c as int <= 122
    ensures SchemeChar(c) <==> Alpha(c) || 48 <= c as int <= 57 || c as int in {43, 45, 46}
  {
  }

  /** The first index from `k` on that holds no scheme character. */
  function SchemeRun(s: string, k: nat): (e: nat)
    requires k <= |s|
    ensures k <= e <= |s|
    decreases |s| - k
  {
    if k < |s| && SchemeChar(s[k]) then SchemeRun(s, k + 1) else k
  }

  /** Where the match of `^[a-zA-Z][a-zA-Z0-9+.-]*://` ends, if there is one. */
  function SchemeEnd(s: string): (e: Option<nat>)
    ensures e.Some? ==> 3 < e.value <= |s| && s[e.value - 1] == '/'
  {
    if s == "" || !Alpha(s[0]) then None
    else
      var k := SchemeRun(s, 1);
      if k + 3 <= |s| && s[k..k + 3] == "://" then Some(k + 3) else None
  }

  /** `split(c)[0]`. */
  function UpTo(s: string, c: char): string {
    if s == "" || s[0] == c then "" else [s[0]] + UpTo(s[1..], c)
  }

  /** What follows the scheme, cut at the first slash, then question mark, hash and colon. */
  function HostPart(s: string): string {
    UpTo(UpTo(UpTo(UpTo(s, '/'), '?'), '#'), ':')
  }

  function WithoutScheme(s: string): string {
    var e := SchemeEnd(s);
    if e.None? then s else HostPart(s[e.value..])
  }

  function RStripDots(s: string): string {
    if s != "" && s[|s| - 1] == '.' then RStripDots(s[..|s| - 1]) else s
  }

  lemma {:induction false} SchemeRunIsLongest(s: string, k: nat, e: nat)
    requires k <= e < |s| && !SchemeChar(s[e]) && forall i :: k <= i < e ==> SchemeChar(s[i])
    ensures SchemeRun(s, k) == e
    decreases e - k
  {
    if k < e {
      SchemeRunIsLongest(s, k + 1, e);
    }
  }

  lemma {:induction false} SchemeRunStays(s: string, k: nat, i: nat)
    requires k <= |s| && k <= i < SchemeRun(s, k)
    ensures SchemeChar(s[i])
    decreases i - k
  {
    if k < i {
      SchemeRunStays(s, k + 1, i);
    }
  }

  /** `k` letters, digits and `+.-`, the first of them a letter, followed by `://`. */
  ghost predicate SchemeMatch(s: string, k: nat) {
    && 1 <= k && k + 3 <= |s| && s[k..k + 3] == "://"
    && Alpha(s[0]) && forall i :: 1 <= i < k ==> SchemeChar(s[i])
  }

  /** The scheme that is cut off is the only possible match of the pattern, and is found whenever there is one. */
  lemma SchemeEndIsTheMatch(s: string, k: nat)
    ensures SchemeEnd(s) == Some(k + 3) <==> SchemeMatch(s, k)
  {
    if SchemeMatch(s, k) {
      assert s[k] == s[k..k + 3][0] == ':';
      SchemeRunIsLongest(s, 1, k);
    } else if SchemeEnd(s) == Some(k + 3) {
      forall i | 1 <= i < k ensures SchemeChar(s[i]) {
        SchemeRunStays(s, 1, i);
      }
    }
  }

  lemma {:induction false} UpToStops(s: string, c: char)
    ensures UpTo(s, c) <= s && c !in UpTo(s, c)
    ensures |UpTo(s, c)| < |s| ==> s[|UpTo(s, c)|] == c
  {
    if s != "" && s[0] != c {
      UpToStops(s[1..], c);
    }
  }

  predicate Delimiter(c: char) {
    c == '/' || c == '?' || c == '#' || c == ':'
  }

  /** The host is everything up to the first delimiter of any kind, in whatever order they occur. */
  lemma HostStopsAtFirstDelimiter(s: string)
    ensures HostPart(s) <= s
    ensures forall c :: c in HostPart(s) ==> !Delimiter(c)
    ensures |HostPart(s)| < |s| ==> Delimiter(s[|HostPart(s)|])
  {
    var s1 := UpTo(s, '/');
    var s2 := UpTo(s1, '?');
    var s3 := UpTo(s2, '#');
    UpToStops(s, '/');
    UpToStops(s1, '?');
    UpToStops(s2, '#');
    UpToStops(s3, ':');
  }

  /** All trailing dots go, and nothing else. */
  lemma {:induction false} RStripDotsTrims(s: string) returns (n: nat)
    ensures n <= |s| && RStripDots(s) == s[..n]
    ensures (forall k :: n <= k < |s| ==> s[k] == '.') && (n > 0 ==> s[n - 1] != '.')
  {
    if s != "" && s[|s| - 1] == '.' {
      var most := s[..|s| - 1];
      n := RStripDotsTrims(most);
      assert most[..n] == s[..n];
      assert forall k :: 0 <= k < |most| ==> most[k] == s[k];
    } else {
      n := |s|;
    }
  }

  // ---- normalize_domain ----

  datatype Labels = AllEncoded(labels: seq<string>) | Aborted(message: string)

  function EncodeLabel(t: Text, l: string): Idna {
    var r := t.idna(l);
    if r.NotEncodable? then Encoded(l) else r
  }

  function EncodeLabels(t: Text, labels: seq<string>): (r: Labels)
    ensures r.AllEncoded? ==> |r.labels| == |labels|
  {
    if labels == [] then AllEncoded([])
    else
      var first := EncodeLabel(t, labels[0]);
      if first.Crashed? then Aborted(first.message)
      else
        var rest := EncodeLabels(t, labels[1..]);
        if rest.Aborted? then rest else AllEncoded([first.ascii] + rest.labels)
  }

  function Invalid(value: string, error: string): NormalizedDomain {
    NormalizedDomain(value, false, Some(error))
  }

  function Checked(value: string): NormalizedDomain {
    NormalizedDomain(value, ValidSyntax(value), SyntaxError(value))
  }

  /** The second half of normalization, from the lower-case host without trailing dots. */
  function NormalizeHost(t: Text, host: string): NormalizedDomain {
    if host == "" then Invalid("", "empty domain after normalization")
    else
      match EncodeLabels(t, SplitDots(host))
      case Aborted(m) => Invalid(host, "IDNA encoding failed: " + m)
      case AllEncoded(labels) => Checked(JoinDots(labels))
  }

  function Normalize(t: Text, domain: string): NormalizedDomain {
    var trimmed := Strip(t, domain);
    if trimmed == "" then Invalid("", "empty domain after whitespace trimming")
    else NormalizeHost(t, RStripDots(t.lower(WithoutScheme(trimmed))))
  }

  lemma {:induction false} EncodeLabelsStops(t: Text, labels: seq<string>, i: nat)
    requires i < |labels| && EncodeLabel(t, labels[i]).Crashed?
    requires EncodeLabels(t, labels[..i]).AllEncoded?
    ensures EncodeLabels(t, labels) == Aborted(EncodeLabel(t, labels[i]).message)
  {
    if i > 0 {
      assert labels[..i][0] == labels[0] && labels[..i][1..] == labels[1..][..i - 1];
      EncodeLabelsStops(t, labels[1..], i - 1);
    }
  }

  lemma {:induction false} EncodeLabelsStep(t: Text, labels: seq<string>, i: nat)
    requires i < |labels| && !EncodeLabel(t, labels[i]).Crashed?
    requires EncodeLabels(t, labels[..i]).AllEncoded?
    ensures EncodeLabels(t, labels[..i + 1])
         == AllEncoded(EncodeLabels(t, labels[..i]).labels + [EncodeLabel(t, labels[i]).ascii])
  {
    if i == 0 {
      assert labels[..1][1..] == [];
    } else {
      assert labels[..i][0] == labels[0] && labels[..i][1..] == labels[1..][..i - 1];
      assert labels[..i + 1][0] == labels[0] && labels[..i + 1][1..] == labels[1..][..i];
      EncodeLabelsStep(t, labels[1..], i - 1);
    }
  }

  // ---- Idempotence ----

  lemma {:induction false} ValidLabelsMakeHosts(s: string)
    requires FirstInvalid(SplitDots(s)).None?
    ensures s != ""
    ensures forall k :: 0 <= k < |s| ==> HostChar(s[k])
    ensures s[|s| - 1] != '.'
  {
    JoinSplit(s);
    FirstInvalidIsNone(SplitDots(s));
    ValidLabelsJoin(SplitDots(s));
  }

  lemma {:induction false} ValidLabelsJoin(labels: seq<string>)
    requires labels != [] && forall k :: 0 <= k < |labels| ==> ValidLabel(labels[k])
    ensures var s := JoinDots(labels);
            s != "" && (forall k :: 0 <= k < |s| ==> HostChar(s[k])) && s[|s| - 1] != '.'
  {
    if |labels| > 1 {
      ValidLabelsJoin(labels[1..]);
    } else {
      assert ValidLabel(labels[0]);
    }
  }

  lemma ValidLabelEncodes(t: Text, l: string)
    requires Faithful(t) && ValidLabel(l)
    ensures EncodeLabel(t, l) == Encoded(l)
  {
    assert t.idna(l) == Encoded(l);
  }

  lemma {:induction false} KeptLabels(t: Text, labels: seq<string>)
    requires forall k :: 0 <= k < |labels| ==> EncodeLabel(t, labels[k]) == Encoded(labels[k])
    ensures EncodeLabels(t, labels) == AllEncoded(labels)
  {
    if labels != [] {
      KeptLabels(t, labels[1..]);
    }
  }

  lemma ValidLabelsEncodeToThemselves(t: Text, labels: seq<string>)
    requires Faithful(t) && forall k :: 0 <= k < |labels| ==> ValidLabel(labels[k])
    ensures EncodeLabels(t, labels) == AllEncoded(labels)
  {
    forall k | 0 <= k < |labels| ensures EncodeLabel(t, labels[k]) == Encoded(labels[k]) {
      ValidLabelEncodes(t, labels[k]);
    }
    KeptLabels(t, labels);
  }

  lemma SchemeNeedsSlash(s: string)
    ensures SchemeEnd(s).Some? ==> exists k :: 0 <= k < |s| && !HostChar(s[k])
  {
    var e := SchemeEnd(s);
    if e.Some? {
      assert !HostChar(s[e.value - 1]);
    }
  }

  lemma {:induction false} StripKeepsHosts(t: Text, s: string)
    requires Faithful(t) && forall k :: 0 <= k < |s| ==> HostChar(s[k])
    ensures Strip(t, s) == s
  {
    if s != "" {
      assert HostChar(s[0]) && HostChar(s[|s| - 1]);
    }
  }

  lemma ValidHostIsFixed(t: Text, v: string)
    requires Faithful(t) && ValidSyntax(v)
    ensures NormalizeHost(t, v) == NormalizedDomain(v, true, None)
  {
    FirstInvalidIsNone(SplitDots(v));
    ValidLabelsEncodeToThemselves(t, SplitDots(v));
    JoinSplit(v);
  }

  /** A syntactically valid domain is a fixed point of normalization. */
  lemma ValidIsFixed(t: Text, v: string)
    requires Faithful(t) && ValidSyntax(v)
    ensures Normalize(t, v) == NormalizedDomain(v, true, None)
  {
    ValidLabelsMakeHosts(v);
    StripKeepsHosts(t, v);
    SchemeNeedsSlash(v);
    ValidHostIsFixed(t, v);
  }

  lemma HostValidityIsSyntax(t: Text, host: string)
    requires Faithful(t)
    ensures var n := NormalizeHost(t, host); n.isValid == ValidSyntax(n.value) && (n.isValid ==> n.error.None?)
  {
    if host != "" && EncodeLabels(t, SplitDots(host)).Aborted? && ValidSyntax(host) {
      ValidHostIsFixed(t, host);
    }
  }

  /** Validity is a function of the normalized value alone, on every path through normalization. */
  lemma ValidityIsSyntax(t: Text, domain: string)
    requires Faithful(t)
    ensures Normalize(t, domain).isValid <==> ValidSyntax(Normalize(t, domain).value)
    ensures Normalize(t, domain).isValid ==> Normalize(t, domain).error.None?
  {
    var trimmed := Strip(t, domain);
    if trimmed != "" {
      HostValidityIsSyntax(t, RStripDots(t.lower(WithoutScheme(trimmed))));
    }
  }

  /** Normalization is idempotent on every string that it finds valid. */
  lemma NormalizationIsIdempotent(t: Text, domain: string)
    requires Faithful(t) && Normalize(t, domain).isValid
    ensures Normalize(t, Normalize(t, domain).value) == Normalize(t, domain)
  {
    ValidityIsSyntax(t, domain);
    var n := Normalize(t, domain);
    ValidIsFixed(t, n.value);
    assert n == NormalizedDomain(n.value, true, None);
  }

  // ---- What normalization makes of a whole string ----

  /** A submitted string in parts: white space around an optional scheme, a host, and what follows the host. */
  datatype Parts = Parts(left: string, scheme: string, host: string, rest: string, right: string)

  ghost predicate Blank(t: Text, s: string) {
    forall k :: 0 <= k < |s| ==> t.isSpace(s[k])
  }

  function Core(p: Parts): string {
    p.scheme + p.host + p.rest
  }

  /** A letter, then letters, digits and `+.-`, then `://`. */
  ghost predicate IsScheme(s: string) {
    && |s| >= 4 && s[|s| - 3..] == "://"
    && Alpha(s[0]) && forall i :: 1 <= i < |s| - 3 ==> SchemeChar(s[i])
  }

  /**
   The string is spelled from these parts. With a scheme, the host ends at the first delimiter; without one
   everything between the white space is the host.
   */
  ghost predicate Spelled(t: Text, domain: string, p: Parts) {
    && domain == p.left + Core(p) + p.right
    && Blank(t, p.left) && Blank(t, p.right)
    && Core(p) != "" && !t.isSpace(Core(p)[0]) && !t.isSpace(Core(p)[|Core(p)| - 1])
    && if p.scheme == "" then p.rest == "" && forall k :: !SchemeMatch(p.host, k)
       else
         && IsScheme(p.scheme)
         && (forall k :: 0 <= k < |p.host| ==> !Delimiter(p.host[k]))
         && (p.rest != "" ==> Delimiter(p.rest[0]))
  }

  /** `v` is the lower-case host less all its trailing dots. */
  ghost predicate Lowered(t: Text, host: string, v: string) {
    && v <= t.lower(host)
    && (forall k :: |v| <= k < |t.lower(host)| ==> t.lower(host)[k] == '.')
    && (v != "" ==> v[|v| - 1] != '.')
  }

  /** Each label is replaced by its IDNA form, or kept if it has none. */
  ghost predicate LabelsEncode(t: Text, labels: seq<string>, out: seq<string>) {
    && |out| == |labels|
    && forall k :: 0 <= k < |labels| ==>
         t.idna(labels[k]) == Encoded(out[k]) || (t.idna(labels[k]).NotEncodable? && out[k] == labels[k])
  }

  lemma {:induction false} StripLeftSkips(t: Text, left: string, s: string)
    requires Blank(t, left) && s != "" && !t.isSpace(s[0])
    ensures StripLeft(t, left + s) == s
  {
    if left == "" {
      assert left + s == s;
    } else {
      assert (left + s)[1..] == left[1..] + s;
      StripLeftSkips(t, left[1..], s);
    }
  }

  lemma {:induction false} StripRightSkips(t: Text, s: string, right: string)
    requires Blank(t, right) && s != "" && !t.isSpace(s[|s| - 1])
    ensures StripRight(t, s + right) == s
  {
    if right == "" {
      assert s + right == s;
    } else {
      var n := |right| - 1;
      assert (s + right)[..|s + right| - 1] == s + right[..n];
      assert (s + right)[|s + right| - 1] == right[n];
      StripRightSkips(t, s, right[..n]);
    }
  }

  lemma StripSkips(t: Text, left: string, s: string, right: string)
    requires Blank(t, left) && Blank(t, right) && s != "" && !t.isSpace(s[0]) && !t.isSpace(s[|s| - 1])
    ensures Strip(t, left + s + right) == s
  {
    assert left + s + right == left + (s + right);
    StripLeftSkips(t, left, s + right);
    StripRightSkips(t, s, right);
  }

  lemma {:induction false} StripOfBlank(t: Text, s: string)
    requires Blank(t, s)
    ensures Strip(t, s) == ""
  {
    var i, j := StripTrims(t, s);
  }

  lemma HostStep(c: char, s: string)
    requires !Delimiter(c)
    ensures HostPart([c] + s) == [c] + HostPart(s)
  {
    var s1 := UpTo(s, '/');
    var s2 := UpTo(s1, '?');
    var s3 := UpTo(s2, '#');
    UpToStep(c, s, '/');
    UpToStep(c, s1, '?');
    UpToStep(c, s2, '#');
    UpToStep(c, s3, ':');
  }

  lemma UpToStep(c: char, s: string, d: char)
    requires c != d
    ensures UpTo([c] + s, d) == [c] + UpTo(s, d)
  {
    assert ([c] + s)[1..] == s;
  }

  lemma NoHost(rest: string)
    requires rest == "" || Delimiter(rest[0])
    ensures HostPart(rest) == ""
  {
    var s1 := UpTo(rest, '/');
    var s2 := UpTo(s1, '?');
    var s3 := UpTo(s2, '#');
    assert s1 == "" || s1[0] == rest[0];
    assert s2 == "" || s2[0] == rest[0];
    assert s3 == "" || s3[0] == rest[0];
  }

  lemma {:induction false} HostOf(host: string, rest: string)
    requires forall k :: 0 <= k < |host| ==> !Delimiter(host[k])
    requires rest != "" ==> Delimiter(rest[0])
    ensures HostPart(host + rest) == host
  {
    if host == "" {
      assert host + rest == rest;
      NoHost(rest);
    } else {
      HostOf(host[1..], rest);
      HostStep(host[0], host[1..] + rest);
      assert host + rest == [host[0]] + (host[1..] + rest);
    }
  }

  lemma SchemeMatches(scheme: string, s: string)
    requires IsScheme(scheme)
    ensures SchemeMatch(scheme + s, |scheme| - 3)
  {
    var all := scheme + s;
    var n := |scheme|;
    assert all[..n] == scheme;
    assert all[n - 3..n] == all[..n][n - 3..];
    forall i | 1 <= i < n - 3 ensures SchemeChar(all[i]) {
      assert all[i] == scheme[i];
    }
  }

  lemma SchemeIsCut(p: Parts)
    requires IsScheme(p.scheme)
    requires forall k :: 0 <= k < |p.host| ==> !Delimiter(p.host[k])
    requires p.rest != "" ==> Delimiter(p.rest[0])
    ensures WithoutScheme(Core(p)) == p.host
  {
    var s := Core(p);
    var n := |p.scheme|;
    SchemeMatches(p.scheme, p.host + p.rest);
    assert s == p.scheme + (p.host + p.rest);
    SchemeEndIsTheMatch(s, n - 3);
    assert s[n..] == p.host + p.rest;
    HostOf(p.host, p.rest);
  }

  lemma NoSchemeNoCut(s: string)
    requires forall k :: !SchemeMatch(s, k)
    ensures WithoutScheme(s) == s
  {
    var e := SchemeEnd(s);
    if e.Some? {
      SchemeEndIsTheMatch(s, e.value - 3);
    }
  }

  lemma {:induction false} DotsAreStripped(s: string, v: string)
    requires v <= s && (forall k :: |v| <= k < |s| ==> s[k] == '.') && (v != "" ==> v[|v| - 1] != '.')
    ensures RStripDots(s) == v
    decreases |s|
  {
    if |v| < |s| {
      DotsAreStripped(s[..|s| - 1], v);
    }
  }

  /** Up to the encoding of labels, normalization depends on the host alone. */
  lemma NormalizeSpelled(t: Text, domain: string, p: Parts, v: string)
    requires Spelled(t, domain, p) && Lowered(t, p.host, v)
    ensures Normalize(t, domain) == NormalizeHost(t, v)
  {
    StripSkips(t, p.left, Core(p), p.right);
    if p.scheme == "" {
      assert Core(p) == p.host;
      NoSchemeNoCut(p.host);
    } else {
      SchemeIsCut(p);
    }
    DotsAreStripped(t.lower(p.host), v);
  }

  lemma {:induction false} EncodeAll(t: Text, labels: seq<string>, out: seq<string>)
    requires LabelsEncode(t, labels, out)
    ensures EncodeLabels(t, labels) == AllEncoded(out)
  {
    if labels != [] {
      EncodeAll(t, labels[1..], out[1..]);
      assert out == [out[0]] + out[1..];
    }
  }

  /** White space only: the result is empty and invalid. */
  lemma BlankIsInvalid(t: Text, domain: string)
    requires Blank(t, domain)
    ensures Normalize(t, domain) == NormalizedDomain("", false, Some("empty domain after whitespace trimming"))
  {
    StripOfBlank(t, domain);
  }

  /**
   The valid strings: whatever surrounds it - white space, a scheme, a path, query, fragment or port - a host
   that is valid in lower case less its trailing dots is what normalization returns.
   */
  lemma ValidHostIsFound(t: Text, domain: string, p: Parts, v: string)
    requires Faithful(t) && Spelled(t, domain, p) && Lowered(t, p.host, v) && ValidSyntax(v)
    ensures Normalize(t, domain) == NormalizedDomain(v, true, None)
  {
    NormalizeSpelled(t, domain, p, v);
    ValidHostIsFixed(t, v);
  }

  /**
   Every other host: its labels are encoded one by one and joined again, and the result is valid exactly when
   its syntax is; a host of dots only is empty and invalid.
   */
  lemma EncodedHostIsFound(t: Text, domain: string, p: Parts, labels: seq<string>, out: seq<string>)
    requires labels != [] && forall k :: 0 <= k < |labels| ==> '.' !in labels[k]
    requires Spelled(t, domain, p) && Lowered(t, p.host, JoinDots(labels)) && LabelsEncode(t, labels, out)
    ensures JoinDots(labels) == "" ==>
              Normalize(t, domain) == NormalizedDomain("", false, Some("empty domain after normalization"))
    ensures JoinDots(labels) != "" ==>
              Normalize(t, domain).value == JoinDots(out)
              && (Normalize(t, domain).isValid <==> ValidSyntax(JoinDots(out)))
  {
    NormalizeSpelled(t, domain, p, JoinDots(labels));
    SplitJoin(labels);
    EncodeAll(t, labels, out);
  }

  /** A label on which the encoder breaks off makes the domain invalid, with the host as its value. */
  lemma CrashedHostIsInvalid(t: Text, domain: string, p: Parts, labels: seq<string>, out: seq<string>, n: nat)
    requires labels != [] && forall k :: 0 <= k < |labels| ==> '.' !in labels[k]
    requires Spelled(t, domain, p) && Lowered(t, p.host, JoinDots(labels)) && JoinDots(labels) != ""
    requires n < |labels| && LabelsEncode(t, labels[..n], out) && t.idna(labels[n]).Crashed?
    ensures Normalize(t, domain)
         == NormalizedDomain(JoinDots(labels), false, Some("IDNA encoding failed: " + t.idna(labels[n]).message))
  {
    NormalizeSpelled(t, domain, p, JoinDots(labels));
    CrashStops(t, labels, out, n);
  }

  lemma CrashStops(t: Text, labels: seq<string>, out: seq<string>, n: nat)
    requires labels != [] && (forall k :: 0 <= k < |labels| ==> '.' !in labels[k]) && JoinDots(labels) != ""
    requires n < |labels| && LabelsEncode(t, labels[..n], out) && t.idna(labels[n]).Crashed?
    ensures NormalizeHost(t, JoinDots(labels))
         == NormalizedDomain(JoinDots(labels), false, Some("IDNA encoding failed: " + t.idna(labels[n]).message))
  {
    SplitJoin(labels);
    EncodeAll(t, labels[..n], out);
    assert EncodeLabel(t, labels[n]) == t.idna(labels[n]);
    EncodeLabelsStops(t, labels, n);
  }

  lemma SplitHost(s: string) returns (host: string, rest: string)
    ensures s == host + rest && host == HostPart(s)
    ensures forall k :: 0 <= k < |host| ==> !Delimiter(host[k])
    ensures rest != "" ==> Delimiter(rest[0])
  {
    HostStopsAtFirstDelimiter(s);
    host := HostPart(s);
    rest := s[|host|..];
    assert forall k :: 0 <= k < |host| ==> host[k] in host;
  }

  lemma SpellTrimmed(t: Text, left: string, core: string, right: string) returns (p: Parts)
    requires Blank(t, left) && Blank(t, right)
    requires core != "" && !t.isSpace(core[0]) && !t.isSpace(core[|core| - 1])
    ensures Spelled(t, left + core + right, p)
  {
    var e := SchemeEnd(core);
    if e.None? {
      p := Parts(left, "", core, "", right);
      assert Core(p) == core;
      forall k ensures !SchemeMatch(core, k) {
        if k >= 0 {
          SchemeEndIsTheMatch(core, k);
        }
      }
    } else {
      var host, rest := SplitHost(core[e.value..]);
      p := Parts(left, core[..e.value], host, rest, right);
      assert Core(p) == core;
      MatchIsScheme(core, e.value);
    }
  }

  lemma MatchIsScheme(s: string, e: nat)
    requires SchemeEnd(s) == Some(e)
    ensures IsScheme(s[..e])
  {
    SchemeEndIsTheMatch(s, e - 3);
    assert s[..e][e - 3..] == s[e - 3..e];
  }

  /** No string is left out: one that is not blank can be spelled, and its host lowered, in some way. */
  lemma EveryStringIsSpelled(t: Text, domain: string) returns (p: Parts, v: string)
    requires !Blank(t, domain)
    ensures Spelled(t, domain, p) && Lowered(t, p.host, v)
  {
    var i, j := StripTrims(t, domain);
    assert domain == domain[..i] + domain[i..j] + domain[j..];
    NotBlankLeavesCore(t, domain, i, j);
    p := SpellTrimmed(t, domain[..i], domain[i..j], domain[j..]);
    var n := RStripDotsTrims(t.lower(p.host));
    v := t.lower(p.host)[..n];
  }

  lemma NotBlankLeavesCore(t: Text, s: string, i: nat, j: nat)
    requires i <= j <= |s| && !Blank(t, s)
    requires forall k :: 0 <= k < i || j <= k < |s| ==> t.isSpace(s[k])
    ensures i < j
  {
    var k :| 0 <= k < |s| && !t.isSpace(s[k]);
    assert i <= k < j;
  }

  lemma ValidHostsAreFound(t: Text, domain: string)
    requires Faithful(t)
    ensures forall p, v :: Spelled(t, domain, p) && Lowered(t, p.host, v) && ValidSyntax(v) ==>
              Normalize(t, domain) == NormalizedDomain(v, true, None)
  {
    forall p, v | Spelled(t, domain, p) && Lowered(t, p.host, v) && ValidSyntax(v)
      ensures Normalize(t, domain) == NormalizedDomain(v, true, None)
    {
      ValidHostIsFound(t, domain, p, v);
    }
  }

  /** The label loop, up to the first exception that is no UnicodeError. */
  method EncodeEach(t: Text, labels: seq<string>) returns (r: Labels)
    ensures r == EncodeLabels(t, labels)
  {
    var idnaLabels: seq<string> := [];
    for i := 0 to |labels|
      invariant EncodeLabels(t, labels[..i]) == AllEncoded(idnaLabels)
    {
      var encoded := EncodeLabel(t, labels[i]);
      if encoded.Crashed? {
        EncodeLabelsStops(t, labels, i);
        return Aborted(encoded.message);
      }
      EncodeLabelsStep(t, labels, i);
      idnaLabels := idnaLabels + [encoded.ascii];
    }
    assert labels[..|labels|] == labels;
    r := AllEncoded(idnaLabels);
  }

  method NormalizeDomain(t: Text, domain: string) returns (r: NormalizedDomain)
    ensures r == Normalize(t, domain)
    ensures Blank(t, domain) ==>
              r == NormalizedDomain("", false, Some("empty domain after whitespace trimming"))
    ensures Faithful(t) ==>
              forall p, v :: Spelled(t, domain, p) && Lowered(t, p.host, v) && ValidSyntax(v) ==>
                r == NormalizedDomain(v, true, None)
  {
    if Blank(t, domain) {
      BlankIsInvalid(t, domain);
    }
    if Faithful(t) {
      ValidHostsAreFound(t, domain);
    }
    var normalized := Strip(t, domain);
    if normalized == "" {
      return Invalid("", "empty domain after whitespace trimming");
    }
    normalized := WithoutScheme(normalized);
    normalized := t.lower(normalized);
    normalized := RStripDots(normalized);
    if normalized == "" {
      return Invalid("", "empty domain after normalization");
    }
    var labels := SplitDots(normalized);
    var idna := EncodeEach(t, labels);
    if idna.Aborted? {
      return Invalid(normalized, "IDNA encoding failed: " + idna.message);
    }
    normalized := JoinDots(idna.labels);
    var error := SyntaxError(normalized);
    r := NormalizedDomain(normalized, error.None?, error);
  }

  // ---- deduplicate_domains ----

  function DedupKey(t: Text, domain: string): string {
    var n := Normalize(t, domain);
    if n.isValid then n.value else "__invalid__" + t.lower(Strip(t, domain))
  }

  function DedupValue(t: Text, domain: string): string {
    var n := Normalize(t, domain);
    if n.isValid then n.value else domain
  }

  function Keys(t: Text, domains: seq<string>): (ks: seq<string>)
    ensures |ks| == |domains| && forall k :: 0 <= k < |ks| ==> ks[k] == DedupKey(t, domains[k])
  {
    seq(|domains|, k requires 0 <= k < |domains| => DedupKey(t, domains[k]))
  }

  function Values(t: Text, domains: seq<string>): (vs: seq<string>)
    ensures |vs| == |domains| && forall k :: 0 <= k < |vs| ==> vs[k] == DedupValue(t, domains[k])
  {
    seq(|domains|, k requires 0 <= k < |domains| => DedupValue(t, domains[k]))
  }

  /** The values whose key occurs there for the first time. */
  function FirstPerKey(keys: seq<string>, values: seq<string>, seen: set<string>): seq<string>
    requires |keys| == |values|
  {
    if keys == [] then []
    else if keys[0] in seen then FirstPerKey(keys[1..], values[1..], seen)
    else [values[0]] + FirstPerKey(keys[1..], values[1..], seen + {keys[0]})
  }

  function Dedup(t: Text, domains: seq<string>): seq<string> {
    FirstPerKey(Keys(t, domains), Values(t, domains), {})
  }

  method KeyAndValue(t: Text, domain: string) returns (key: string, value: string)
    ensures key == DedupKey(t, domain) && value == DedupValue(t, domain)
  {
    var n := NormalizeDomain(t, domain);
    if n.isValid {
      key, value := n.value, n.value;
    } else {
      key, value := "__invalid__" + t.lower(Strip(t, domain)), domain;
    }
  }

  lemma FirstPerKeyMoves(keys: seq<string>, values: seq<string>, seen: set<string>, i: nat, result: seq<string>)
    requires i < |keys| == |values|
    ensures result + FirstPerKey(keys[i..], values[i..], seen)
         == if keys[i] in seen then result + FirstPerKey(keys[i + 1..], values[i + 1..], seen)
            else (result + [values[i]]) + FirstPerKey(keys[i + 1..], values[i + 1..], seen + {keys[i]})
  {
    assert keys[i..][1..] == keys[i + 1..] && values[i..][1..] == values[i + 1..];
  }

  method DeduplicateDomains(t: Text, domains: seq<string>) returns (result: seq<string>)
    ensures result == Dedup(t, domains)
  {
    ghost var keys, values := Keys(t, domains), Values(t, domains);
    var seen: set<string> := {};
    result := [];
    assert keys[0..] == keys && values[0..] == values;
    for i := 0 to |domains|
      invariant FirstPerKey(keys, values, {}) == result + FirstPerKey(keys[i..], values[i..], seen)
    {
      FirstPerKeyMoves(keys, values, seen, i, result);
      var normValue, kept := KeyAndValue(t, domains[i]);
      if normValue !in seen {
        seen := seen + {normValue};
        result := result + [kept];
      }
    }
  }

  /** The distinct elements of `xs` outside `seen`, in order of first occurrence. */
  function FirstOccurrences(xs: seq<string>, seen: set<string>): seq<string> {
    if xs == [] then []
    else if xs[0] in seen then FirstOccurrences(xs[1..], seen)
    else [xs[0]] + FirstOccurrences(xs[1..], seen + {xs[0]})
  }

  lemma {:induction false} FirstOccurrencesAreDistinct(xs: seq<string>, seen: set<string>)
    ensures Distinct(FirstOccurrences(xs, seen))
    ensures forall x :: x in FirstOccurrences(xs, seen) <==> x in xs && x !in seen
  {
    if xs != [] {
      assert xs == [xs[0]] + xs[1..];
      FirstOccurrencesAreDistinct(xs[1..], if xs[0] in seen then seen else seen + {xs[0]});
    }
  }

  lemma {:induction false} OwnKeys(xs: seq<string>, seen: set<string>)
    ensures FirstPerKey(xs, xs, seen) == FirstOccurrences(xs, seen)
  {
    if xs != [] {
      OwnKeys(xs[1..], if xs[0] in seen then seen else seen + {xs[0]});
    }
  }

  /** The kept values come in the order of their first occurrence: each next one is added if it is new. */
  lemma {:induction false} FirstOccurrencesGrow(xs: seq<string>, seen: set<string>, x: string)
    ensures FirstOccurrences(xs + [x], seen)
         == if x in xs || x in seen then FirstOccurrences(xs, seen) else FirstOccurrences(xs, seen) + [x]
  {
    if xs == [] {
      assert xs + [x] == [x] && [x][1..] == [];
    } else {
      assert xs + [x] == [xs[0]] + (xs[1..] + [x]);
      assert xs == [xs[0]] + xs[1..];
      FirstOccurrencesGrow(xs[1..], if xs[0] in seen then seen else seen + {xs[0]}, x);
    }
  }

  lemma {:induction false} FirstPerKeyGrows(
    keys: seq<string>, values: seq<string>, seen: set<string>, key: string, value: string)
    requires |keys| == |values|
    ensures FirstPerKey(keys + [key], values + [value], seen)
         == if key in keys || key in seen then FirstPerKey(keys, values, seen)
            else FirstPerKey(keys, values, seen) + [value]
  {
    if keys == [] {
      assert keys + [key] == [key] && values + [value] == [value] && [key][1..] == [] && [value][1..] == [];
    } else {
      assert keys + [key] == [keys[0]] + (keys[1..] + [key]);
      assert values + [value] == [values[0]] + (values[1..] + [value]);
      assert keys == [keys[0]] + keys[1..];
      FirstPerKeyGrows(keys[1..], values[1..], if keys[0] in seen then seen else seen + {keys[0]}, key, value);
    }
  }

  /**
   Two entries count as one domain exactly when both are valid with the same normal form, or both are invalid
   and the same up to case and surrounding white space; a valid and an invalid one never do.
   */
  lemma SameDedupKey(t: Text, a: string, b: string)
    requires Faithful(t)
    ensures DedupKey(t, a) == DedupKey(t, b) <==>
              var na, nb := Normalize(t, a), Normalize(t, b);
              || (na.isValid && nb.isValid && na.value == nb.value)
              || (!na.isValid && !nb.isValid && t.lower(Strip(t, a)) == t.lower(Strip(t, b)))
  {
    KeyIsMarked(t, a);
    KeyIsMarked(t, b);
  }

  lemma KeyIsMarked(t: Text, a: string)
    requires Faithful(t)
    ensures var n := Normalize(t, a);
            && DedupKey(t, a) != ""
            && (n.isValid <==> DedupKey(t, a)[0] != '_')
            && (!n.isValid ==> |DedupKey(t, a)| >= 11 && DedupKey(t, a)[11..] == t.lower(Strip(t, a)))
  {
    var n := Normalize(t, a);
    ValidityIsSyntax(t, a);
    if n.isValid {
      SyntaxIsClean(n.value);
    }
  }

  /**
   Deduplication of a list that gets one entry more: the entry is added, by its normal form if it is valid
   and as it was sent if not, unless an earlier entry counts as the same domain.
   */
  lemma DedupGrows(t: Text, domains: seq<string>, d: string)
    ensures Dedup(t, domains + [d])
         == if exists k :: 0 <= k < |domains| && DedupKey(t, domains[k]) == DedupKey(t, d) then Dedup(t, domains)
            else Dedup(t, domains) + [if Normalize(t, d).isValid then Normalize(t, d).value else d]
  {
    assert Keys(t, domains + [d]) == Keys(t, domains) + [DedupKey(t, d)];
    assert Values(t, domains + [d]) == Values(t, domains) + [DedupValue(t, d)];
    FirstPerKeyGrows(Keys(t, domains), Values(t, domains), {}, DedupKey(t, d), DedupValue(t, d));
    assert DedupKey(t, d) in Keys(t, domains)
           <==> exists k :: 0 <= k < |domains| && DedupKey(t, domains[k]) == DedupKey(t, d) by {
      assert forall k :: 0 <= k < |domains| ==> Keys(t, domains)[k] == DedupKey(t, domains[k]);
    }
  }

  /** On values that are valid already, deduplication drops repetitions and nothing else. */
  lemma DedupOfValidValues(t: Text, xs: seq<string>)
    requires Faithful(t) && forall k :: 0 <= k < |xs| ==> ValidSyntax(xs[k])
    ensures Dedup(t, xs) == FirstOccurrences(xs, {})
  {
    forall k | 0 <= k < |xs| ensures DedupKey(t, xs[k]) == xs[k] && DedupValue(t, xs[k]) == xs[k] {
      ValidIsFixed(t, xs[k]);
    }
    assert Keys(t, xs) == xs && Values(t, xs) == xs;
    OwnKeys(xs, {});
  }

  lemma {:induction false} OnePerKey(keys: seq<string>, values: seq<string>, seen: set<string>)
    requires |keys| == |values|
    ensures |FirstPerKey(keys, values, seen)| == |FirstOccurrences(keys, seen)|
  {
    if keys != [] {
      OnePerKey(keys[1..], values[1..], if keys[0] in seen then seen else seen + {keys[0]});
    }
  }

  /** On any input, invalid entries included, exactly one entry is kept for each key. */
  lemma DedupKeepsOnePerKey(t: Text, domains: seq<string>)
    ensures |Dedup(t, domains)| == |FirstOccurrences(Keys(t, domains), {})|
  {
    OnePerKey(Keys(t, domains), Values(t, domains), {});
  }
}
