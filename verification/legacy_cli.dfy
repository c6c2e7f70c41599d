/** The earlier Python version of the tool (subuniq/cli.py): every line is
    stripped and lower-cased, blank lines are skipped, the rest go into a set,
    and the sorted set is written one entry per line. It has no ignore list,
    no filter, no validation and a single output format.

    Like the Go model, it takes the lines the file was split into and returns
    the text written, leaving the files themselves out. */
module LegacyCli {
  import opened Text
  import opened Order
  import Deduplicator

  /** str.strip() with no argument, on the ASCII range: it removes the
      information separators U+001C..U+001F as well as the usual whitespace. */
  function Strip(line: string): (r: string)
    ensures |r| <= |line|
    ensures exists i :: 0 <= i <= |line| - |r| && IsTrimmedSlice(line, PySpace, i, r)
    ensures EdgesOutside(r, PySpace)
    ensures r == [] <==> forall k :: 0 <= k < |line| ==> line[k] in PySpace
  {
    Trim(line, PySpace)
  }

  /** set(sub.strip().lower() for sub in subdomains if sub.strip()): the
      empty string is never a member. */
  function UniqueSet(lines: seq<string>): (r: set<string>)
    ensures "" !in r
  {
    set i | 0 <= i < |lines| && Strip(lines[i]) != "" :: Lower(Strip(lines[i]))
  }

  /** Every member is already in the form the comprehension gives it. */
  lemma UniqueSetNormal(lines: seq<string>, x: string)
    requires x in UniqueSet(lines)
    ensures Lower(Strip(x)) == x
  {
    var i :| 0 <= i < |lines| && Strip(lines[i]) != "" && x == Lower(Strip(lines[i]));
    StripLowerIdempotent(lines[i]);
  }

  /** `strip().lower()` applied twice is applied once. */
  lemma StripLowerIdempotent(line: string)
    ensures Lower(Strip(Lower(Strip(line)))) == Lower(Strip(line))
  {
    var t := Strip(line);
    SpacesHaveNoLetters();
    TrimLowerCommute(t, PySpace);
    TrimOfTrimmed(t, PySpace);
    LowerIdempotent(t);
  }

  /** Running the Python tool on its own output gives the same set. */
  lemma UniqueSetRerun(lines: seq<string>)
    ensures UniqueSet(Canonical(UniqueSet(lines))) == UniqueSet(lines)
  {
    var u := UniqueSet(lines);
    var out := Canonical(u);
    forall x | x in u
      ensures x in UniqueSet(out)
    {
      UniqueSetNormal(lines, x);
      assert x in Elems(out);
      var j :| 0 <= j < |out| && out[j] == x;
      assert Strip(out[j]) != "";
    }
    forall j | 0 <= j < |out| && Strip(out[j]) != ""
      ensures Lower(Strip(out[j])) in u
    {
      assert out[j] in Elems(out);
      UniqueSetNormal(lines, out[j]);
    }
  }

  lemma UniqueSetMembers(lines: seq<string>, subs: seq<string>)
    requires Elems(subs) == UniqueSet(lines)
    ensures forall x :: x in subs <==>
      exists i :: 0 <= i < |lines| && Strip(lines[i]) != "" && Lower(Strip(lines[i])) == x
    ensures "" !in subs
  {
    assert forall x :: x in subs <==> x in Elems(subs);
  }

  /** The subuniq function: the sorted unique entries and the text written
      to the output file. */
  method Subuniq(lines: seq<string>) returns (subs: seq<string>, text: string)
    ensures StrictlySorted(subs)
    ensures subs == Canonical(UniqueSet(lines))
    ensures forall x :: x in subs <==>
      exists i :: 0 <= i < |lines| && Strip(lines[i]) != "" && Lower(Strip(lines[i])) == x
    ensures "" !in subs
    ensures text == Terminated(subs)
  {
    var unique := UniqueSet(lines);
    subs := Finalize(unique);
    UniqueSetMembers(lines, subs);
    text := WriteLines(subs);
  }

  /** A line both versions read alike: ASCII only, and none of the
      separators that only the Python version counts as whitespace. */
  predicate CommonLine(line: string) {
    forall j :: 0 <= j < |line| ==> IsAscii(line[j]) && line[j] !in Separators
  }

  /** On such a line the Go normalization and the Python one coincide. */
  lemma NormalizeAgrees(line: string)
    requires CommonLine(line)
    ensures Deduplicator.Normalize(line) == Lower(Strip(line))
    ensures Deduplicator.Normalize(line) == "" <==> Strip(line) == ""
  {
    TrimWider(line, GoSpace, PySpace);
  }

  /** With no options given, the Go tool keeps exactly the entries the
      Python tool keeps. */
  lemma {:induction false} SameUniqueSet(lines: seq<string>)
    requires forall i :: 0 <= i < |lines| ==> CommonLine(lines[i])
    ensures Deduplicator.KeptSet(lines, Deduplicator.DefaultConfig()) == UniqueSet(lines)
  {
    var cfg := Deduplicator.DefaultConfig();
    assert cfg.ignore == [];
    forall i | 0 <= i < |lines|
      ensures Deduplicator.Keep(cfg, Deduplicator.Normalize(lines[i])) <==> Strip(lines[i]) != ""
      ensures Deduplicator.Normalize(lines[i]) == Lower(Strip(lines[i]))
    {
      NormalizeAgrees(lines[i]);
    }
  }

  /** Both versions run on the same lines, the Go one with its defaults: the
      Go tool writes plain text, and that text is what the Python tool
      writes. */
  method BothVersions(lines: seq<string>) returns (goResult: Deduplicator.Outcome, pyText: string)
    requires forall i :: 0 <= i < |lines| ==> CommonLine(lines[i])
    ensures goResult.Written?
    ensures goResult.output == Deduplicator.PlainText(pyText)
  {
    goResult := Deduplicator.Run(lines, Deduplicator.DefaultConfig());
    var pySubs;
    pySubs, pyText := Subuniq(lines);
    SameUniqueSet(lines);
  }

  /** Without the restriction to common lines the versions part: a line
      holding only the unit separator U+001F is kept by the Go tool and
      skipped as blank by the Python one. */
  lemma SeparatorDivergence()
    ensures Deduplicator.KeptSet(["\U{001F}"], Deduplicator.DefaultConfig()) == {"\U{001F}"}
    ensures UniqueSet(["\U{001F}"]) == {}
  {
    var line := "\U{001F}";
    var cfg := Deduplicator.DefaultConfig();
    GoKeepsSeparator();
    Deduplicator.KeptSetSnoc([], line, cfg);
    assert [] + [line] == [line];
    PythonStripsSeparator();
    BlankLineSkipped(line);
  }

  lemma BlankLineSkipped(line: string)
    requires Strip(line) == ""
    ensures UniqueSet([line]) == {}
  {
    var lines := [line];
    assert forall i :: 0 <= i < |lines| ==> Strip(lines[i]) == "";
  }

  lemma GoKeepsSeparator()
    ensures Deduplicator.Normalize("\U{001F}") == "\U{001F}"
    ensures Deduplicator.Keep(Deduplicator.DefaultConfig(), "\U{001F}")
  {
    Deduplicator.NormalFormUnchanged("\U{001F}");
  }

  lemma PythonStripsSeparator()
    ensures Strip("\U{001F}") == ""
  {
    var line := "\U{001F}";
    assert line[0] in PySpace;
    assert line[1..] == "";
  }
}
