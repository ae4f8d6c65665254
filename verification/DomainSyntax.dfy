/** The syntax of a normalized domain: labels between dots, and what the label checks mean for its characters. */
module DomainSyntax {
  import opened Records

  predicate LabelChar(c: char) {
    'a' <= c <= 'z' || '0' <= c <= '9' || c == '-'
  }

  predicate HostChar(c: char) {
    LabelChar(c) || c == '.'
  }

  /** The characters of a label, by code: the hyphen, the digits and the small letters. */
  lemma LabelCharsAre(c: char)
    ensures LabelChar(c) <==> c as int == 45 || 48 <= c as int <= 57 || 97 <= c as int <= 122
  {
  }

  function SplitDots(s: string): (labels: seq<string>)
    ensures labels != []
  {
    if s == "" then [""]
    else
      var rest := SplitDots(s[1..]);
      if s[0] == '.' then [""] + rest else [[s[0]] + rest[0]] + rest[1..]
  }

  function JoinDots(labels: seq<string>): string
    requires labels != []
  {
    if |labels| == 1 then labels[0] else labels[0] + "." + JoinDots(labels[1..])
  }

  lemma {:induction false} JoinSplit(s: string)
    ensures JoinDots(SplitDots(s)) == s
  {
    if s != "" {
      JoinSplit(s[1..]);
      var rest := SplitDots(s[1..]);
      if s[0] == '.' {
        assert ([""] + rest)[1..] == rest;
      } else {
        assert ([[s[0]] + rest[0]] + rest[1..])[1..] == rest[1..];
      }
    }
  }

  lemma {:induction false} LabelsHaveNoDots(s: string)
    ensures forall k :: 0 <= k < |SplitDots(s)| ==> '.' !in SplitDots(s)[k]
  {
    if s != "" {
      LabelsHaveNoDots(s[1..]);
    }
  }

  /** The split is the only list of dot-free labels that joins to the string. */
  lemma {:induction false} SplitJoin(labels: seq<string>)
    requires labels != [] && forall k :: 0 <= k < |labels| ==> '.' !in labels[k]
    ensures SplitDots(JoinDots(labels)) == labels
  {
    if |labels| == 1 {
      SplitNoDot(labels[0]);
    } else {
      SplitJoin(labels[1..]);
      SplitAtDot(labels[0], JoinDots(labels[1..]));
    }
  }

  lemma {:induction false} SplitNoDot(s: string)
    requires '.' !in s
    ensures SplitDots(s) == [s]
  {
    if s != "" {
      SplitNoDot(s[1..]);
      assert s == [s[0]] + s[1..];
    }
  }

  lemma {:induction false} SplitAtDot(a: string, b: string)
    requires '.' !in a
    ensures SplitDots(a + "." + b) == [a] + SplitDots(b)
  {
    var s := a + "." + b;
    if a == "" {
      assert s[1..] == b;
    } else {
      assert s[0] == a[0] && s[1..] == a[1..] + "." + b;
      SplitAtDot(a[1..], b);
      assert ([a[1..]] + SplitDots(b))[1..] == SplitDots(b);
      assert a == [a[0]] + a[1..];
    }
  }

  // ---- Validation ----

  predicate ValidLabel(l: string) {
    && 1 <= |l| <= 63
    && l[0] != '-' && l[|l| - 1] != '-'
    && forall k :: 0 <= k < |l| ==> LabelChar(l[k])
  }

  function FirstInvalid(labels: seq<string>): Option<string> {
    if labels == [] then None
    else if !ValidLabel(labels[0]) then Some(labels[0])
    else FirstInvalid(labels[1..])
  }

  /** The error message of `_validate_domain_syntax`, None for a valid domain. */
  function SyntaxError(domain: string): Option<string> {
    if domain == "" then Some("empty domain")
    else if |domain| > 253 then Some("domain too long")
    else if |SplitDots(domain)| < 2 then Some("domain must have at least two labels")
    else
      var bad := FirstInvalid(SplitDots(domain));
      if bad.None? then None else Some("invalid label: " + bad.value)
  }

  predicate ValidSyntax(domain: string) {
    SyntaxError(domain).None?
  }

  lemma {:induction false} FirstInvalidIsNone(labels: seq<string>)
    ensures FirstInvalid(labels).None? <==> forall k :: 0 <= k < |labels| ==> ValidLabel(labels[k])
  {
    if labels != [] {
      FirstInvalidIsNone(labels[1..]);
      assert forall k :: 0 < k < |labels| ==> labels[k] == labels[1..][k - 1];
      assert forall k :: 0 <= k < |labels| - 1 ==> labels[1..][k] == labels[k + 1];
    }
  }

  // ---- Validity, character by character ----

  /** No 64 characters in a row without a dot among them. */
  ghost predicate NoLongRun(d: string) {
    forall k: nat :: k + 64 <= |d| ==> DotAmong(d, k)
  }

  predicate DotAmong(d: string, k: nat)
    requires k + 64 <= |d|
  {
    '.' in d[k..k + 64]
  }

  /** Letters, digits, hyphens and dots; no hyphen and no dot at an end or beside a dot. */
  ghost predicate CleanLabels(d: string) {
    && d != ""
    && (forall k :: 0 <= k < |d| ==> HostChar(d[k]))
    && HostEnd(d[0]) && HostEnd(d[|d| - 1])
    && (forall k :: 0 <= k < |d| - 1 && d[k] == '.' ==> HostEnd(d[k + 1]))
    && (forall k :: 0 <= k < |d| - 1 && d[k + 1] == '.' ==> HostEnd(d[k]))
  }

  predicate HostEnd(c: char) {
    c != '-' && c != '.'
  }

  ghost predicate AllValid(labels: seq<string>) {
    forall k :: 0 <= k < |labels| ==> ValidLabel(labels[k])
  }

  lemma {:induction false} FirstDot(d: string) returns (a: string, b: string)
    requires '.' in d
    ensures d == a + "." + b && '.' !in a
  {
    if d[0] == '.' {
      a, b := "", d[1..];
      assert d == "." + b;
    } else {
      assert d == [d[0]] + d[1..];
      a, b := FirstDot(d[1..]);
      a := [d[0]] + a;
    }
  }

  lemma OneLabel(d: string)
    requires '.' !in d
    ensures ValidLabel(d) <==> CleanLabels(d) && NoLongRun(d)
  {
    if |d| >= 64 {
      assert !DotAmong(d, 0);
    }
  }

  lemma HeadIsClean(a: string, b: string)
    requires '.' !in a && CleanLabels(a + "." + b)
    ensures CleanLabels(a)
  {
    var d := a + "." + b;
    var n := |a|;
    assert d[n] == '.' && d[0] != '.';
    assert forall k :: 0 <= k < n ==> a[k] == d[k] && a[k] in a;
    assert HostEnd(d[n - 1]);
  }

  lemma TailIsClean(a: string, b: string)
    requires CleanLabels(a + "." + b)
    ensures CleanLabels(b)
  {
    var d := a + "." + b;
    var n := |a| + 1;
    assert d[n - 1] == '.' && d[|d| - 1] != '.';
    assert d[n..] == b;
    assert HostEnd(d[n]);
    forall k | 0 <= k < |b| ensures b[k] == d[n + k] && HostChar(b[k]) {
    }
    forall k | 0 <= k < |b| - 1 ensures (b[k] == '.' ==> HostEnd(b[k + 1])) && (b[k + 1] == '.' ==> HostEnd(b[k])) {
      assert b[k] == d[n + k] && b[k + 1] == d[n + k + 1];
    }
  }

  lemma TailHasNoLongRun(a: string, b: string)
    requires '.' !in a
    ensures NoLongRun(a + "." + b) ==> |a| <= 63 && NoLongRun(b)
  {
    var d := a + "." + b;
    var n := |a|;
    if n >= 64 {
      assert d[0..64] == a[..64];
      assert !DotAmong(d, 0);
    }
    forall k: nat | k + 64 <= |b| ensures DotAmong(b, k) == DotAmong(d, n + 1 + k) {
      assert b[k..k + 64] == d[n + 1 + k..n + 1 + k + 64];
    }
  }

  lemma JoinedIsClean(a: string, b: string)
    requires '.' !in a && CleanLabels(a) && CleanLabels(b)
    ensures CleanLabels(a + "." + b)
  {
    var d := a + "." + b;
    var n := |a|;
    assert d[n] == '.';
    assert forall k :: 0 <= k < n ==> d[k] == a[k] && a[k] in a;
    assert forall k :: n + 1 <= k < |d| ==> d[k] == b[k - n - 1];
    forall k | 0 <= k < |d| - 1 && d[k] == '.' ensures HostEnd(d[k + 1]) {
      if k > n {
        assert b[k - n - 1] == '.' && d[k + 1] == b[k - n - 1 + 1];
      }
    }
    forall k | 0 <= k < |d| - 1 && d[k + 1] == '.' ensures HostEnd(d[k]) {
      if k > n {
        assert b[k - n - 1 + 1] == '.';
      }
    }
  }

  lemma JoinedHasNoLongRun(a: string, b: string)
    requires |a| <= 63 && NoLongRun(b)
    ensures NoLongRun(a + "." + b)
  {
    var d := a + "." + b;
    var n := |a|;
    forall k: nat | k + 64 <= |d| ensures DotAmong(d, k) {
      if k <= n {
        assert d[k..k + 64][n - k] == '.';
      } else {
        var i := k - n - 1;
        assert DotAmong(b, i);
        assert d == (a + ".") + b;
        assert d[n + 1..] == b;
        assert d[k..k + 64] == d[n + 1..][i..i + 64];
      }
    }
  }

  lemma FirstAndRest(a: string, rest: seq<string>)
    ensures AllValid([a] + rest) <==> ValidLabel(a) && AllValid(rest)
  {
    var all := [a] + rest;
    assert all[0] == a && forall k :: 0 <= k < |rest| ==> all[k + 1] == rest[k];
  }

  lemma {:induction false} LabelsAreClean(d: string)
    ensures AllValid(SplitDots(d)) <==> CleanLabels(d) && NoLongRun(d)
    decreases |d|
  {
    if '.' in d {
      var a, b := FirstDot(d);
      SplitAtDot(a, b);
      LabelsAreClean(b);
      OneLabel(a);
      FirstAndRest(a, SplitDots(b));
      if AllValid(SplitDots(d)) {
        JoinedIsClean(a, b);
        JoinedHasNoLongRun(a, b);
      } else if CleanLabels(d) && NoLongRun(d) {
        HeadIsClean(a, b);
        TailIsClean(a, b);
        TailHasNoLongRun(a, b);
      }
    } else {
      SplitNoDot(d);
      OneLabel(d);
      assert SplitDots(d)[0] == d;
    }
  }

  /**
   What validity means for the characters of a domain: at most 253 of them, at least one dot, only letters,
   digits, hyphens and dots, no hyphen or dot at an end or beside a dot, and no 64 in a row without a dot.
   */
  lemma SyntaxIsClean(d: string)
    ensures ValidSyntax(d) <==> |d| <= 253 && '.' in d && CleanLabels(d) && NoLongRun(d)
  {
    LabelsAreClean(d);
    FirstInvalidIsNone(SplitDots(d));
    assert FirstInvalid(SplitDots(d)).None? <==> AllValid(SplitDots(d));
    if '.' in d {
      var a, b := FirstDot(d);
      SplitAtDot(a, b);
      assert |SplitDots(d)| >= 2;
    } else {
      SplitNoDot(d);
      assert |SplitDots(d)| == 1;
    }
  }

  /** The message for a domain that is not valid: the first of the four checks that fails, and the first bad label. */
  lemma SyntaxErrorIs(d: string, labels: seq<string>, n: nat)
    requires labels != [] && (forall k :: 0 <= k < |labels| ==> '.' !in labels[k]) && d == JoinDots(labels)
    ensures d == "" ==> SyntaxError(d) == Some("empty domain")
    ensures |d| > 253 ==> SyntaxError(d) == Some("domain too long")
    ensures 1 <= |d| <= 253 && |labels| == 1 ==> SyntaxError(d) == Some("domain must have at least two labels")
    ensures && 1 <= |d| <= 253 && |labels| >= 2
            && n < |labels| && !ValidLabel(labels[n]) && (forall k :: 0 <= k < n ==> ValidLabel(labels[k])) ==>
              SyntaxError(d) == Some("invalid label: " + labels[n])
  {
    SplitJoin(labels);
    if n < |labels| && !ValidLabel(labels[n]) && forall k :: 0 <= k < n ==> ValidLabel(labels[k]) {
      FirstInvalidIs(labels, n);
    }
  }

  lemma {:induction false} FirstInvalidIs(labels: seq<string>, n: nat)
    requires n < |labels| && !ValidLabel(labels[n]) && forall k :: 0 <= k < n ==> ValidLabel(labels[k])
    ensures FirstInvalid(labels) == Some(labels[n])
  {
    if n > 0 {
      FirstInvalidIs(labels[1..], n - 1);
    }
  }
}
