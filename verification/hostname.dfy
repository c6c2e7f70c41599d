/** The hostname shape the tool accepts when validation is on, the regular
    expression ^(?:[a-zA-Z0-9_-]+\.)+[a-zA-Z]{2,}$, stated three ways: as the
    pattern reads (one or more labels, each followed by a dot, then a top-level
    label of letters), as a condition on the pieces between the dots, and as a
    one-pass character scanner that stands in for the regular-expression engine. */
module Hostname {
  import opened Text

  predicate IsAlpha(c: char) {
    'a' <= c <= 'z' || 'A' <= c <= 'Z'
  }

  /** The character class [a-zA-Z0-9_-]. */
  predicate IsLabelChar(c: char) {
    IsAlpha(c) || '0' <= c <= '9' || c == '_' || c == '-'
  }

  predicate AllLabelChars(t: string) {
    forall i :: 0 <= i < |t| ==> IsLabelChar(t[i])
  }

  predicate AllAlpha(t: string) {
    forall i :: 0 <= i < |t| ==> IsAlpha(t[i])
  }

  /** Text matched by [a-zA-Z0-9_-]+ */
  predicate IsLabel(t: string) {
    |t| > 0 && AllLabelChars(t)
  }

  /** Text matched by [a-zA-Z]{2,} */
  predicate IsTld(t: string) {
    |t| >= 2 && AllAlpha(t)
  }

  /** Each label followed by a dot. */
  function Dotted(labels: seq<string>): string {
    if labels == [] then "" else labels[0] + "." + Dotted(labels[1..])
  }

  /** `s` is matched with the group (?:label\.) repeated once per element of
      `labels`, followed by `tld`. */
  ghost predicate IsMatch(s: string, labels: seq<string>, tld: string) {
    && |labels| >= 1
    && (forall i :: 0 <= i < |labels| ==> IsLabel(labels[i]))
    && IsTld(tld)
    && s == Dotted(labels) + tld
  }

  /** The whole of `s` matches the pattern. */
  ghost predicate MatchesPattern(s: string) {
    exists labels, tld :: IsMatch(s, labels, tld)
  }

  /** The pieces between dots: at least two, every one but the last a label,
      the last one a top-level label. */
  predicate LabelsValid(s: string) {
    var parts := Split(s, '.');
    && |parts| >= 2
    && (forall i :: 0 <= i < |parts| - 1 ==> IsLabel(parts[i]))
    && IsTld(parts[|parts| - 1])
  }

  lemma {:induction false} DottedJoin(labels: seq<string>, tld: string)
    ensures Dotted(labels) + tld == Join(labels + [tld], '.')
    decreases |labels|
  {
    if labels != [] {
      DottedJoin(labels[1..], tld);
      assert (labels + [tld])[1..] == labels[1..] + [tld];
    }
  }

  lemma NoDotInLabel(t: string)
    requires AllLabelChars(t)
    ensures '.' !in t
  {
    forall i | 0 <= i < |t|
      ensures t[i] != '.'
    {
      assert IsLabelChar(t[i]);
    }
  }

  lemma AllAlphaSnoc(t: string, c: char)
    ensures AllAlpha(t + [c]) <==> AllAlpha(t) && IsAlpha(c)
  {
    assert forall i :: 0 <= i < |t| ==> (t + [c])[i] == t[i];
    assert (t + [c])[|t|] == c;
  }

  lemma AllLabelCharsSnoc(t: string, c: char)
    ensures AllLabelChars(t + [c]) <==> AllLabelChars(t) && IsLabelChar(c)
  {
    assert forall i :: 0 <= i < |t| ==> (t + [c])[i] == t[i];
    assert (t + [c])[|t|] == c;
  }

  /** Because no label contains a dot, the only way to match the pattern is
      to cut the string at every dot. */
  lemma LabelsIffPattern(s: string)
    ensures LabelsValid(s) <==> MatchesPattern(s)
  {
    var parts := Split(s, '.');
    if LabelsValid(s) {
      var labels := parts[..|parts| - 1];
      var tld := parts[|parts| - 1];
      assert labels + [tld] == parts;
      DottedJoin(labels, tld);
      assert IsMatch(s, labels, tld);
    }
    if MatchesPattern(s) {
      var labels, tld :| IsMatch(s, labels, tld);
      DottedJoin(labels, tld);
      var ps := labels + [tld];
      forall i | 0 <= i < |ps|
        ensures '.' !in ps[i]
      {
        NoDotInLabel(ps[i]);
      }
      SplitJoin(ps, '.');
      assert parts == ps;
      assert ps[..|ps| - 1] == labels;
    }
  }

  /** What the scanner below remembers of the pieces `p` read so far:
      whether there is more than one, whether every piece but the last is a
      label, and the length and character classes of the last piece. */
  ghost predicate SummaryOf(p: seq<string>, dotted: bool, headOk: bool, segLen: nat,
                            segAlpha: bool, segLabel: bool)
    requires |p| >= 1
  {
    && dotted == (|p| >= 2)
    && headOk == (forall i :: 0 <= i < |p| - 1 ==> IsLabel(p[i]))
    && segLen == |p[|p| - 1]|
    && segAlpha == AllAlpha(p[|p| - 1])
    && segLabel == AllLabelChars(p[|p| - 1])
  }

  /** The summary of the text `t`, cut at its dots. */
  ghost predicate Summarizes(t: string, dotted: bool, headOk: bool, segLen: nat,
                             segAlpha: bool, segLabel: bool)
  {
    SummaryOf(Split(t, '.'), dotted, headOk, segLen, segAlpha, segLabel)
  }

  /** A dot closes the last piece and opens an empty one. */
  lemma SummaryAfterDot(p: seq<string>, dotted: bool, headOk: bool, segLen: nat,
                        segAlpha: bool, segLabel: bool)
    requires |p| >= 1 && SummaryOf(p, dotted, headOk, segLen, segAlpha, segLabel)
    ensures SummaryOf(p + [""], true, headOk && segLen > 0 && segLabel, 0, true, true)
  {
    var q := p + [""];
    assert forall i :: 0 <= i < |p| ==> q[i] == p[i];
  }

  /** Any other character extends the last piece. */
  lemma SummaryAfterChar(p: seq<string>, c: char, dotted: bool, headOk: bool, segLen: nat,
                         segAlpha: bool, segLabel: bool)
    requires |p| >= 1 && SummaryOf(p, dotted, headOk, segLen, segAlpha, segLabel)
    ensures SummaryOf(p[..|p| - 1] + [p[|p| - 1] + [c]], dotted, headOk, segLen + 1,
                      segAlpha && IsAlpha(c), segLabel && IsLabelChar(c))
  {
    var q := p[..|p| - 1] + [p[|p| - 1] + [c]];
    assert forall i :: 0 <= i < |p| - 1 ==> q[i] == p[i];
    AllAlphaSnoc(p[|p| - 1], c);
    AllLabelCharsSnoc(p[|p| - 1], c);
  }

  /** Reading one more character updates the summary without looking back. */
  lemma ScanStep(t: string, c: char, dotted: bool, headOk: bool, segLen: nat,
                 segAlpha: bool, segLabel: bool)
    requires Summarizes(t, dotted, headOk, segLen, segAlpha, segLabel)
    ensures c == '.' ==>
      Summarizes(t + [c], true, headOk && segLen > 0 && segLabel, 0, true, true)
    ensures c != '.' ==>
      Summarizes(t + [c], dotted, headOk, segLen + 1,
                 segAlpha && IsAlpha(c), segLabel && IsLabelChar(c))
  {
    var p := Split(t, '.');
    SplitSnoc(t, c, '.');
    if c == '.' {
      assert Split(t + [c], '.') == p + [""];
      SummaryAfterDot(p, dotted, headOk, segLen, segAlpha, segLabel);
    } else {
      var q := p[..|p| - 1] + [p[|p| - 1] + [c]];
      assert Split(t + [c], '.') == q;
      SummaryAfterChar(p, c, dotted, headOk, segLen, segAlpha, segLabel);
    }
  }

  /** ScanStep stated for the prefixes of one string. */
  lemma ScanPrefix(s: string, k: int, dotted: bool, headOk: bool, segLen: nat,
                   segAlpha: bool, segLabel: bool)
    requires 0 <= k < |s|
    requires Summarizes(s[..k], dotted, headOk, segLen, segAlpha, segLabel)
    ensures s[k] == '.' ==>
      Summarizes(s[..k + 1], true, headOk && segLen > 0 && segLabel, 0, true, true)
    ensures s[k] != '.' ==>
      Summarizes(s[..k + 1], dotted, headOk, segLen + 1,
                 segAlpha && IsAlpha(s[k]), segLabel && IsLabelChar(s[k]))
  {
    assert s[..k + 1] == s[..k] + [s[k]];
    ScanStep(s[..k], s[k], dotted, headOk, segLen, segAlpha, segLabel);
  }

  /** isValidSubdomain: one left-to-right pass over the characters, deciding
      at the end from the summary alone. */
  method IsValidSubdomain(s: string) returns (ok: bool)
    ensures ok <==> MatchesPattern(s)
  {
    var dotted := false;
    var headOk := true;
    var segLen: nat := 0;
    var segAlpha := true;
    var segLabel := true;
    for k := 0 to |s|
      invariant Summarizes(s[..k], dotted, headOk, segLen, segAlpha, segLabel)
    {
      ScanPrefix(s, k, dotted, headOk, segLen, segAlpha, segLabel);
      if s[k] == '.' {
        headOk := headOk && segLen > 0 && segLabel;
        dotted := true;
        segLen, segAlpha, segLabel := 0, true, true;
      } else {
        segLen := segLen + 1;
        segAlpha := segAlpha && IsAlpha(s[k]);
        segLabel := segLabel && IsLabelChar(s[k]);
      }
    }
    assert s[..|s|] == s;
    ok := dotted && headOk && segLen >= 2 && segAlpha;
    SummaryDecides(s, dotted, headOk, segLen, segAlpha, segLabel);
  }

  /** The summary of the whole string is enough to decide the match. */
  lemma SummaryDecides(s: string, dotted: bool, headOk: bool, segLen: nat,
                       segAlpha: bool, segLabel: bool)
    requires Summarizes(s, dotted, headOk, segLen, segAlpha, segLabel)
    ensures (dotted && headOk && segLen >= 2 && segAlpha) <==> MatchesPattern(s)
  {
    LabelsIffPattern(s);
  }

  /** A bare name has no dot. */
  lemma BareNameRejected()
    ensures !MatchesPattern("abc")
  {
    LabelsIffPattern("abc");
    SplitNoSep("abc", '.');
  }

  /** One label and a two-letter top-level label are enough. */
  lemma ShortNameAccepted()
    ensures MatchesPattern("a.bc")
  {
    assert IsMatch("a.bc", ["a"], "bc");
  }

  /** A match ends in two letters: the last two characters of the
      top-level label. */
  lemma EndsInTwoLetters(s: string)
    ensures MatchesPattern(s) ==> |s| >= 2 && IsAlpha(s[|s| - 2]) && IsAlpha(s[|s| - 1])
  {
    if MatchesPattern(s) {
      var labels, tld :| IsMatch(s, labels, tld);
      assert s[|s| - 2] == tld[|tld| - 2];
      assert s[|s| - 1] == tld[|tld| - 1];
    }
  }

  /** A top-level label must be letters only. */
  lemma DigitInTldRejected()
    ensures !MatchesPattern("x.y.c0m")
  {
    EndsInTwoLetters("x.y.c0m");
    assert !IsAlpha("x.y.c0m"[5]);
  }
}
