/** Character-level helpers that both versions of the tool rely on: whitespace
    trimming, ASCII case mapping, substring search, splitting on a separator and
    newline-terminated output.

    Strings are sequences of Unicode scalar values. Comparing two scalar values
    orders them exactly as comparing their UTF-8 encodings byte by byte does, so
    the lexicographic order on these sequences is the byte-wise order of the
    encoded strings. */
module Text {

  /** The ASCII characters Go's unicode.IsSpace accepts (used by strings.TrimSpace):
      tab, line feed, vertical tab, form feed, carriage return and space. */
  const GoSpace: set<char> := {'\t', '\n', '\U{000B}', '\U{000C}', '\r', ' '}

  /** The ASCII information separators U+001C..U+001F, which Python's str.isspace
      accepts and Go's unicode.IsSpace does not. */
  const Separators: set<char> := {'\U{001C}', '\U{001D}', '\U{001E}', '\U{001F}'}

  /** The ASCII characters Python's str.isspace accepts (used by str.strip). */
  const PySpace: set<char> := GoSpace + Separators

  predicate IsAscii(c: char) {
    c < '\U{0080}'
  }

  // ---------------------------------------------------------------- trimming

  function TrimLeft(s: string, ws: set<char>): (r: string)
    ensures |r| <= |s| && r == s[|s| - |r|..]
    ensures forall k :: 0 <= k < |s| - |r| ==> s[k] in ws
    ensures r == [] || r[0] !in ws
    decreases |s|
  {
    if |s| > 0 && s[0] in ws then TrimLeft(s[1..], ws) else s
  }

  function TrimRight(s: string, ws: set<char>): (r: string)
    ensures |r| <= |s| && r == s[..|r|]
    ensures forall k :: |r| <= k < |s| ==> s[k] in ws
    ensures r == [] || r[|r| - 1] !in ws
    decreases |s|
  {
    if |s| > 0 && s[|s| - 1] in ws then TrimRight(s[..|s| - 1], ws) else s
  }

  /** Neither end of `s` belongs to `ws`. */
  predicate EdgesOutside(s: string, ws: set<char>) {
    s == [] || (s[0] !in ws && s[|s| - 1] !in ws)
  }

  /** Removes every leading and every trailing character of `ws`: what Go's
      strings.TrimSpace and Python's str.strip do, each with its own set. */
  function Trim(s: string, ws: set<char>): (r: string)
    ensures |r| <= |s|
    ensures exists i :: 0 <= i <= |s| - |r| && IsTrimmedSlice(s, ws, i, r)
    ensures EdgesOutside(r, ws)
    ensures r == [] <==> forall k :: 0 <= k < |s| ==> s[k] in ws
  {
    TrimIsSlice(s, ws);
    TrimRight(TrimLeft(s, ws), ws)
  }

  lemma TrimIsSlice(s: string, ws: set<char>)
    ensures IsTrimmedSlice(s, ws, |s| - |TrimLeft(s, ws)|, TrimRight(TrimLeft(s, ws), ws))
  {
    var l := TrimLeft(s, ws);
    SliceOfSlice(s, l, TrimRight(l, ws), ws);
  }

  /** Cutting `ws` characters off the front of `s` to get `l`, then off the
      back of `l` to get `r`, leaves `r` as a slice of `s`. */
  lemma SliceOfSlice(s: string, l: string, r: string, ws: set<char>)
    requires |l| <= |s| && l == s[|s| - |l|..]
    requires forall k :: 0 <= k < |s| - |l| ==> s[k] in ws
    requires |r| <= |l| && r == l[..|r|]
    requires forall k :: |r| <= k < |l| ==> l[k] in ws
    ensures IsTrimmedSlice(s, ws, |s| - |l|, r)
  {
    var i := |s| - |l|;
    forall k | i + |r| <= k < |s|
      ensures s[k] in ws
    {
      assert s[k] == l[k - i];
    }
  }

  /** `r` is the slice of `s` starting at `i`, and everything of `s` outside
      that slice belongs to `ws`. */
  ghost predicate IsTrimmedSlice(s: string, ws: set<char>, i: int, r: string) {
    && 0 <= i <= |s| - |r|
    && r == s[i..i + |r|]
    && (forall k :: 0 <= k < i ==> s[k] in ws)
    && (forall k :: i + |r| <= k < |s| ==> s[k] in ws)
  }

  // ------------------------------------------------------------ case mapping

  predicate IsUpper(c: char) {
    'A' <= c <= 'Z'
  }

  function LowerChar(c: char): char {
    if IsUpper(c) then (c as int + 32) as char else c
  }

  /** ASCII lower-casing: every upper-case ASCII letter becomes its lower-case
      counterpart, every other character is kept. */
  function Lower(s: string): (r: string)
    ensures |r| == |s|
    ensures forall i :: 0 <= i < |s| ==> r[i] == LowerChar(s[i])
    ensures forall i :: 0 <= i < |r| ==> !IsUpper(r[i])
  {
    if s == [] then [] else [LowerChar(s[0])] + Lower(s[1..])
  }

  /** No character of `ws` is an ASCII letter, so case mapping never moves a
      character into or out of `ws`. */
  predicate NoLetters(ws: set<char>) {
    forall c :: c in ws ==> !('A' <= c <= 'Z') && !('a' <= c <= 'z')
  }

  lemma SpacesHaveNoLetters()
    ensures NoLetters(GoSpace) && NoLetters(PySpace)
  {
  }

  lemma LowerOfLower(s: string)
    requires forall i :: 0 <= i < |s| ==> !IsUpper(s[i])
    ensures Lower(s) == s
  {
  }

  lemma LowerIdempotent(s: string)
    ensures Lower(Lower(s)) == Lower(s)
  {
    assert forall i :: 0 <= i < |s| ==> Lower(Lower(s))[i] == Lower(s)[i];
  }

  lemma LowerCharKeepsClass(c: char, ws: set<char>)
    requires NoLetters(ws)
    ensures LowerChar(c) in ws <==> c in ws
  {
  }

  lemma {:induction false} TrimLeftLower(s: string, ws: set<char>)
    requires NoLetters(ws)
    ensures TrimLeft(Lower(s), ws) == Lower(TrimLeft(s, ws))
    decreases |s|
  {
    if |s| > 0 {
      LowerCharKeepsClass(s[0], ws);
      assert Lower(s)[1..] == Lower(s[1..]);
      TrimLeftLower(s[1..], ws);
    }
  }

  lemma {:induction false} TrimRightLower(s: string, ws: set<char>)
    requires NoLetters(ws)
    ensures TrimRight(Lower(s), ws) == Lower(TrimRight(s, ws))
    decreases |s|
  {
    var l := Lower(s);
    if |s| > 0 {
      var n := |s|;
      LowerCharKeepsClass(s[n - 1], ws);
      assert l[n - 1] == LowerChar(s[n - 1]);
      if s[n - 1] in ws {
        assert l[..n - 1] == Lower(s[..n - 1]);
        TrimRightLower(s[..n - 1], ws);
        assert TrimRight(l, ws) == TrimRight(l[..n - 1], ws);
        assert TrimRight(s, ws) == TrimRight(s[..n - 1], ws);
      } else {
        assert TrimRight(l, ws) == l;
        assert TrimRight(s, ws) == s;
      }
    }
  }

  /** Trimming and lower-casing can be done in either order. */
  lemma TrimLowerCommute(s: string, ws: set<char>)
    requires NoLetters(ws)
    ensures Trim(Lower(s), ws) == Lower(Trim(s, ws))
  {
    TrimLeftLower(s, ws);
    TrimRightLower(TrimLeft(s, ws), ws);
  }

  /** A string that neither starts nor ends with a character of `ws` is left
      as it is by trimming. */
  lemma TrimOfTrimmed(s: string, ws: set<char>)
    requires EdgesOutside(s, ws)
    ensures Trim(s, ws) == s
  {
  }

  /** Trimming with a larger set changes nothing when none of the extra
      characters occurs in the string. */
  lemma {:induction false} TrimLeftWider(s: string, ws: set<char>, wider: set<char>)
    requires ws <= wider
    requires forall j :: 0 <= j < |s| ==> s[j] !in wider - ws
    ensures TrimLeft(s, ws) == TrimLeft(s, wider)
    decreases |s|
  {
    if |s| > 0 {
      TrimLeftWider(s[1..], ws, wider);
    }
  }

  lemma {:induction false} TrimRightWider(s: string, ws: set<char>, wider: set<char>)
    requires ws <= wider
    requires forall j :: 0 <= j < |s| ==> s[j] !in wider - ws
    ensures TrimRight(s, ws) == TrimRight(s, wider)
    decreases |s|
  {
    if |s| > 0 {
      TrimRightWider(s[..|s| - 1], ws, wider);
    }
  }

  lemma TrimWider(s: string, ws: set<char>, wider: set<char>)
    requires ws <= wider
    requires forall j :: 0 <= j < |s| ==> s[j] !in wider - ws
    ensures Trim(s, ws) == Trim(s, wider)
  {
    BothEndsWider(s, ws, wider);
  }

  lemma BothEndsWider(s: string, ws: set<char>, wider: set<char>)
    requires ws <= wider
    requires forall j :: 0 <= j < |s| ==> s[j] !in wider - ws
    ensures TrimRight(TrimLeft(s, ws), ws) == TrimRight(TrimLeft(s, wider), wider)
  {
    TrimLeftWider(s, ws, wider);
    var l := TrimLeft(s, ws);
    SuffixAvoids(s, |s| - |l|, wider - ws);
    TrimRightWider(l, ws, wider);
  }

  lemma SuffixAvoids(s: string, k: int, bad: set<char>)
    requires 0 <= k <= |s|
    requires forall j :: 0 <= j < |s| ==> s[j] !in bad
    ensures forall j :: 0 <= j < |s| - k ==> s[k..][j] !in bad
  {
    forall j | 0 <= j < |s| - k
      ensures s[k..][j] !in bad
    {
      assert s[k..][j] == s[k + j];
    }
  }

  /** Trimming only removes characters. */
  lemma TrimKeepsOut(s: string, ws: set<char>, c: char)
    requires c !in s
    ensures c !in Trim(s, ws)
  {
    var l := TrimLeft(s, ws);
    SliceKeepsOut(s, |s| - |l|, |s|, c);
    var r := TrimRight(l, ws);
    SliceKeepsOut(l, 0, |r|, c);
  }

  lemma SliceKeepsOut(s: string, lo: int, hi: int, c: char)
    requires 0 <= lo <= hi <= |s| && c !in s
    ensures c !in s[lo..hi]
  {
    forall j | 0 <= j < hi - lo
      ensures s[lo..hi][j] != c
    {
      assert s[lo..hi][j] == s[lo + j];
    }
  }

  /** Lower-casing brings in no character other than lower-case letters. */
  lemma LowerKeepsOut(s: string, c: char)
    requires c !in s && !('a' <= c <= 'z')
    ensures c !in Lower(s)
  {
    var l := Lower(s);
    forall j | 0 <= j < |l|
      ensures l[j] != c
    {
      assert l[j] == LowerChar(s[j]);
    }
  }

  // -------------------------------------------------------- substring search

  /** `sub` occurs in `s` starting at position `i`. */
  predicate OccursAt(sub: string, s: string, i: int) {
    0 <= i <= |s| - |sub| && s[i..i + |sub|] == sub
  }

  /** `sub` occurs in `s` at some position. */
  ghost predicate IsSubstring(sub: string, s: string) {
    exists i :: OccursAt(sub, s, i)
  }

  /** Go's strings.Contains(s, sub): a left-to-right search for `sub`. */
  function Contains(s: string, sub: string): bool
    decreases |s|
  {
    if |sub| > |s| then false
    else if s[..|sub|] == sub then true
    else Contains(s[1..], sub)
  }

  lemma {:induction false} ContainsIsSubstring(s: string, sub: string)
    ensures Contains(s, sub) <==> IsSubstring(sub, s)
    decreases |s|
  {
    if |sub| > |s| {
    } else if s[..|sub|] == sub {
      assert OccursAt(sub, s, 0);
    } else {
      ContainsIsSubstring(s[1..], sub);
      if Contains(s[1..], sub) {
        var i :| OccursAt(sub, s[1..], i);
        SliceOfTail(s, i, |sub|);
        assert OccursAt(sub, s, i + 1);
      }
      if IsSubstring(sub, s) {
        var i :| OccursAt(sub, s, i);
        assert i != 0;
        SliceOfTail(s, i - 1, |sub|);
        assert OccursAt(sub, s[1..], i - 1);
      }
    }
  }

  /** A slice of the tail is the slice of `s` one position further on. */
  lemma SliceOfTail(s: string, i: int, n: int)
    requires 0 <= i && 0 <= n && i + n < |s|
    ensures s[1..][i..i + n] == s[i + 1..i + 1 + n]
  {
    var a, b := s[1..][i..i + n], s[i + 1..i + 1 + n];
    forall k | 0 <= k < n
      ensures a[k] == b[k]
    {
      assert a[k] == s[1..][i + k] == s[i + 1 + k];
    }
    assert a == b;
  }

  /** The empty string occurs in every string. */
  lemma EmptyIsSubstring(s: string)
    ensures IsSubstring("", s)
  {
    assert OccursAt("", s, 0);
  }

  // ------------------------------------------------------ splitting, joining

  /** Puts `sep` between consecutive parts. */
  function Join(parts: seq<string>, sep: char): string
  {
    if |parts| == 0 then ""
    else if |parts| == 1 then parts[0]
    else parts[0] + [sep] + Join(parts[1..], sep)
  }

  /** Go's strings.Split(s, sep) for a one-character separator: the maximal
      separator-free pieces, one more than there are separators. */
  function Split(s: string, sep: char): (parts: seq<string>)
    ensures |parts| >= 1
    ensures forall i :: 0 <= i < |parts| ==> sep !in parts[i]
    ensures Join(parts, sep) == s
    decreases |s|
  {
    if |s| == 0 then [""]
    else
      var rest := Split(s[1..], sep);
      var parts := ConsPiece(s[0], rest, sep);
      assert s == [s[0]] + s[1..];
      assert parts[1..] == if s[0] == sep then rest else rest[1..];
      parts
  }

  lemma {:induction false} SplitNoSep(a: string, sep: char)
    requires sep !in a
    ensures Split(a, sep) == [a]
    decreases |a|
  {
    if |a| > 0 {
      SplitNoSep(a[1..], sep);
      assert [a[0]] + a[1..] == a;
    }
  }

  lemma {:induction false} SplitAfterPiece(a: string, b: string, sep: char)
    requires sep !in a
    ensures Split(a + [sep] + b, sep) == [a] + Split(b, sep)
    decreases |a|
  {
    var s := a + [sep] + b;
    if |a| == 0 {
      assert s[1..] == b;
    } else {
      assert s[1..] == a[1..] + [sep] + b;
      SplitAfterPiece(a[1..], b, sep);
      assert [a[0]] + a[1..] == a;
    }
  }

  /** Two separators in a row leave an empty piece between them. */
  lemma SplitDoubleSep(a: string, b: string, sep: char)
    requires sep !in a && sep !in b
    ensures Split(a + [sep] + [sep] + b, sep) == [a, "", b]
  {
    var rest := [sep] + b;
    var empty: string := [];
    calc {
      Split(a + [sep] + [sep] + b, sep);
      { assert a + [sep] + [sep] + b == a + [sep] + rest; }
      Split(a + [sep] + rest, sep);
      { SplitAfterPiece(a, rest, sep); }
      [a] + Split(rest, sep);
      { assert rest == empty + [sep] + b;
        SplitAfterPiece(empty, b, sep);
        SplitNoSep(b, sep); }
      [a] + ([""] + [b]);
    }
  }

  /** Splitting undoes joining when no part contains the separator. */
  lemma {:induction false} SplitJoin(parts: seq<string>, sep: char)
    requires |parts| >= 1
    requires forall i :: 0 <= i < |parts| ==> sep !in parts[i]
    ensures Split(Join(parts, sep), sep) == parts
    decreases |parts|
  {
    if |parts| == 1 {
      SplitNoSep(parts[0], sep);
    } else {
      SplitJoin(parts[1..], sep);
      SplitAfterPiece(parts[0], Join(parts[1..], sep), sep);
      assert [parts[0]] + parts[1..] == parts;
    }
  }

  /** The pieces after one more character `c`: a separator opens a new,
      empty piece, anything else extends the last piece. */
  function AddChar(p: seq<string>, c: char, sep: char): seq<string>
    requires |p| >= 1
  {
    if c == sep then p + [""] else p[..|p| - 1] + [p[|p| - 1] + [c]]
  }

  /** Splitting reads its input one character at a time. */
  lemma {:induction false} SplitSnoc(s: string, c: char, sep: char)
    ensures Split(s + [c], sep) == AddChar(Split(s, sep), c, sep)
    decreases |s|
  {
    if |s| > 0 {
      var rest := Split(s[1..], sep);
      SplitSnoc(s[1..], c, sep);
      assert Split(s + [c], sep) == ConsPiece(s[0], AddChar(rest, c, sep), sep) by {
        assert (s + [c])[1..] == s[1..] + [c];
      }
      ConsPieceAddChar(s[0], c, sep, rest);
    }
  }

  /** The pieces of [h] + t, given the pieces of t. */
  function ConsPiece(h: char, rest: seq<string>, sep: char): (p: seq<string>)
    requires |rest| >= 1
    ensures |p| >= 1
  {
    if h == sep then [""] + rest else [[h] + rest[0]] + rest[1..]
  }

  /** Adding a character at the end commutes with adding one at the front. */
  lemma ConsPieceAddChar(h: char, c: char, sep: char, rest: seq<string>)
    requires |rest| >= 1
    ensures ConsPiece(h, AddChar(rest, c, sep), sep) == AddChar(ConsPiece(h, rest, sep), c, sep)
  {
    var n := |rest|;
    var p := ConsPiece(h, rest, sep);
    var q := AddChar(rest, c, sep);
    if c == sep {
      if h == sep {
        assert [""] + (rest + [""]) == ([""] + rest) + [""];
      } else {
        assert q[0] == rest[0] && q[1..] == rest[1..] + [""];
      }
    } else {
      var last := rest[n - 1] + [c];
      if h == sep {
        assert p[..|p| - 1] == [""] + rest[..n - 1];
      } else if n == 1 {
        assert q == [last];
        assert p == [[h] + rest[0]];
        assert [h] + last == ([h] + rest[0]) + [c];
      } else {
        assert q[0] == rest[0] && q[1..] == rest[1..n - 1] + [last];
        assert p[..|p| - 1] == [[h] + rest[0]] + rest[1..n - 1];
      }
    }
  }

  // --------------------------------------------------------------- output

  /** Every element followed by a newline, in order. */
  function Terminated(lines: seq<string>): string
  {
    if lines == [] then "" else lines[0] + "\n" + Terminated(lines[1..])
  }

  lemma {:induction false} TerminatedIsJoin(lines: seq<string>)
    ensures Terminated(lines) == Join(lines + [""], '\n')
    decreases |lines|
  {
    if lines != [] {
      TerminatedIsJoin(lines[1..]);
      assert (lines + [""])[1..] == lines[1..] + [""];
    }
  }

  lemma {:induction false} TerminatedSnoc(lines: seq<string>, line: string)
    ensures Terminated(lines + [line]) == Terminated(lines) + line + "\n"
    decreases |lines|
  {
    if lines != [] {
      assert (lines + [line])[1..] == lines[1..] + [line];
      TerminatedSnoc(lines[1..], line);
    }
  }

  /** The write loop: each line followed by a newline, one write per line. */
  method WriteLines(lines: seq<string>) returns (text: string)
    ensures text == Terminated(lines)
    ensures (forall i :: 0 <= i < |lines| ==> '\n' !in lines[i]) ==>
      Split(text, '\n') == lines + [""]
  {
    text := "";
    for i := 0 to |lines|
      invariant text == Terminated(lines[..i])
    {
      TerminatedSnoc(lines[..i], lines[i]);
      assert lines[..i + 1] == lines[..i] + [lines[i]];
      text := text + lines[i] + "\n";
    }
    assert lines[..|lines|] == lines;
    if forall i :: 0 <= i < |lines| ==> '\n' !in lines[i] {
      TerminatedRoundTrip(lines);
    }
  }

  /** Newline-terminated output read back line by line gives the lines again,
      followed by the empty piece after the last newline. */
  lemma TerminatedRoundTrip(lines: seq<string>)
    requires forall i :: 0 <= i < |lines| ==> '\n' !in lines[i]
    ensures Split(Terminated(lines), '\n') == lines + [""]
  {
    TerminatedIsJoin(lines);
    SplitJoin(lines + [""], '\n');
  }
}
