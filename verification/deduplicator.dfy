/** The deduplication pipeline of the Go tool (main.go): the ignore list built
    from the -ignore flag, the loop that normalizes each input line and drops
    it when it is empty, contains an ignore entry, misses the filter or fails
    validation, the insertion of the rest into the `seen` map, the extraction
    and sorting of its keys, and the choice of output format.

    Input arrives as the sequence of lines the scanner produced; reading and
    writing files is outside the model. */
module Deduplicator {
  import opened Text
  import opened Hostname
  import opened Order

  // ----------------------------------------------------------- configuration

  datatype Option<T> = None | Some(value: T)

  datatype Format = Plain | Json | Csv

  function FormatName(f: Format): (name: string)
    ensures ParseFormat(name) == Some(f)
  {
    match f
    case Plain => "plain"
    case Json => "json"
    case Csv => "csv"
  }

  /** The formats the output switch recognises. The comparison is exact:
      "PLAIN" or "plain " is not recognised. */
  function ParseFormat(name: string): (r: Option<Format>)
    ensures r.Some? <==> name == "plain" || name == "json" || name == "csv"
  {
    if name == "plain" then Some(Plain)
    else if name == "json" then Some(Json)
    else if name == "csv" then Some(Csv)
    else None
  }

  /** A recognised name names exactly one format. */
  lemma ParseFormatInverse(name: string, f: Format)
    requires ParseFormat(name) == Some(f)
    ensures name == FormatName(f)
  {
  }

  /** The options of one run, with the ignore list already built. The format
      is kept as given: it is checked only once the lines are sorted. */
  datatype Config = Config(ignore: seq<string>, filter: string, validate: bool, format: string)

  /** The ignore list built from the -ignore flag: no flag gives no entries;
      otherwise the flag is cut at every comma and each piece lower-cased and
      trimmed. Empty pieces are kept. */
  function ParseIgnore(flag: string): (r: seq<string>)
    ensures r == [] <==> flag == ""
    ensures flag != "" ==> |r| == |Split(flag, ',')|
  {
    if flag == "" then []
    else
      var pieces := Split(flag, ',');
      seq(|pieces|, k requires 0 <= k < |pieces| => Trim(Lower(pieces[k]), GoSpace))
  }

  /** Each ignore entry is its piece of the flag normalized exactly as an
      input line is. */
  lemma IgnoreEntriesNormalized(flag: string, k: int)
    requires flag != "" && 0 <= k < |Split(flag, ',')|
    ensures ParseIgnore(flag)[k] == Normalize(Split(flag, ',')[k])
  {
    var pieces := Split(flag, ',');
    assert ParseIgnore(flag)[k] == Trim(Lower(pieces[k]), GoSpace);
    SpacesHaveNoLetters();
    TrimLowerCommute(pieces[k], GoSpace);
  }

  /** The flags as parsed: -ignore, -filter, -valid and -format. */
  function MakeConfig(ignoreFlag: string, filter: string, validate: bool, format: string): Config {
    Config(ParseIgnore(ignoreFlag), filter, validate, format)
  }

  /** Every flag at its default: no ignore entries, no filter, no validation,
      plain output. Only empty lines are dropped. */
  function DefaultConfig(): (cfg: Config)
    ensures cfg.ignore == [] && cfg.filter == "" && !cfg.validate
    ensures ParseFormat(cfg.format) == Some(Plain)
    ensures forall lower :: Keep(cfg, lower) <==> lower != ""
  {
    MakeConfig("", "", false, "plain")
  }

  // ------------------------------------------------------------ one line

  /** strings.ToLower(strings.TrimSpace(line)): the line with its surrounding
      whitespace cut off and every upper-case letter lowered. */
  function Normalize(line: string): (r: string)
    ensures |r| <= |line|
  {
    Lower(Trim(line, GoSpace))
  }

  /** No upper-case letter survives normalization. */
  lemma NormalizeHasNoUpper(line: string)
    ensures forall k :: 0 <= k < |Normalize(line)| ==> !IsUpper(Normalize(line)[k])
  {
    var t := Trim(line, GoSpace);
    assert Normalize(line) == Lower(t);
  }

  /** The normal form is a lower-cased slice of the line with only whitespace
      around it. */
  lemma NormalizeIsSlice(line: string)
    ensures exists i :: 0 <= i <= |line| - |Normalize(line)| && NormalizedSlice(line, i, Normalize(line))
  {
    var t := Trim(line, GoSpace);
    var i :| 0 <= i <= |line| - |t| && IsTrimmedSlice(line, GoSpace, i, t);
    TrimmedSliceLowers(line, i, t);
    assert Normalize(line) == Lower(t);
  }

  lemma TrimmedSliceLowers(line: string, i: int, t: string)
    requires IsTrimmedSlice(line, GoSpace, i, t)
    ensures NormalizedSlice(line, i, Lower(t))
  {
    assert |Lower(t)| == |t|;
  }

  /** Neither end of the normal form is whitespace. */
  lemma NormalizeEdges(line: string)
    ensures EdgesOutside(Normalize(line), GoSpace)
  {
    LowerKeepsEdgesOutside(Trim(line, GoSpace));
  }

  lemma LowerKeepsEdgesOutside(t: string)
    requires EdgesOutside(t, GoSpace)
    ensures EdgesOutside(Lower(t), GoSpace)
  {
    SpacesHaveNoLetters();
    if t != [] {
      LowerCharKeepsClass(t[0], GoSpace);
      LowerCharKeepsClass(t[|t| - 1], GoSpace);
    }
  }

  /** `r` is the slice of `line` starting at `i`, lower-cased, and everything
      of `line` outside that slice is whitespace. */
  ghost predicate NormalizedSlice(line: string, i: int, r: string) {
    && 0 <= i <= |line| - |r|
    && r == Lower(line[i..i + |r|])
    && (forall k :: 0 <= k < i ==> line[k] in GoSpace)
    && (forall k :: i + |r| <= k < |line| ==> line[k] in GoSpace)
  }

  /** A line normalizes to the empty string exactly when it is all
      whitespace. */
  lemma NormalizeBlank(line: string)
    ensures Normalize(line) == [] <==> forall k :: 0 <= k < |line| ==> line[k] in GoSpace
  {
    assert |Normalize(line)| == |Trim(line, GoSpace)|;
  }

  /** Normalizing twice changes nothing more than normalizing once. */
  lemma NormalizeIdempotent(line: string)
    ensures Normalize(Normalize(line)) == Normalize(line)
  {
    var t := Trim(line, GoSpace);
    SpacesHaveNoLetters();
    TrimLowerCommute(t, GoSpace);
    TrimOfTrimmed(t, GoSpace);
    LowerIdempotent(t);
  }

  /** A line without surrounding whitespace or upper-case letters is its own
      normal form. */
  lemma NormalFormUnchanged(s: string)
    requires EdgesOutside(s, GoSpace)
    requires forall i :: 0 <= i < |s| ==> !IsUpper(s[i])
    ensures Normalize(s) == s
  {
    TrimOfTrimmed(s, GoSpace);
    LowerOfLower(s);
  }

  /** The checks a normalized line has to pass to be kept, in the order the
      loop makes them. */
  ghost predicate Keep(cfg: Config, lower: string) {
    && lower != ""
    && (forall k :: 0 <= k < |cfg.ignore| ==> !IsSubstring(cfg.ignore[k], lower))
    && (cfg.filter == "" || IsSubstring(cfg.filter, lower))
    && (!cfg.validate || MatchesPattern(lower))
  }

  /** The normalized form of every input line that passes the checks. */
  ghost function KeptSet(lines: seq<string>, cfg: Config): set<string> {
    set i | 0 <= i < |lines| && Keep(cfg, Normalize(lines[i])) :: Normalize(lines[i])
  }

  lemma KeptSetSnoc(lines: seq<string>, line: string, cfg: Config)
    ensures KeptSet(lines + [line], cfg)
         == KeptSet(lines, cfg) + (if Keep(cfg, Normalize(line)) then {Normalize(line)} else {})
  {
    KeptSetSnocShrinks(lines, line, cfg);
    KeptSetSnocGrows(lines, line, cfg);
  }

  lemma KeptSetSnocShrinks(lines: seq<string>, line: string, cfg: Config)
    ensures KeptSet(lines + [line], cfg)
         <= KeptSet(lines, cfg) + (if Keep(cfg, Normalize(line)) then {Normalize(line)} else {})
  {
    var ls := lines + [line];
    forall i | 0 <= i < |ls| && Keep(cfg, Normalize(ls[i]))
      ensures Normalize(ls[i]) in KeptSet(lines, cfg) + (if Keep(cfg, Normalize(line)) then {Normalize(line)} else {})
    {
      if i < |lines| {
        assert ls[i] == lines[i];
      } else {
        assert ls[i] == line;
      }
    }
  }

  lemma KeptSetSnocGrows(lines: seq<string>, line: string, cfg: Config)
    ensures KeptSet(lines, cfg) + (if Keep(cfg, Normalize(line)) then {Normalize(line)} else {})
         <= KeptSet(lines + [line], cfg)
  {
    var ls := lines + [line];
    forall x | x in KeptSet(lines, cfg)
      ensures x in KeptSet(ls, cfg)
    {
      var i :| 0 <= i < |lines| && Keep(cfg, Normalize(lines[i])) && x == Normalize(lines[i]);
      assert ls[i] == lines[i];
    }
    if Keep(cfg, Normalize(line)) {
      assert ls[|lines|] == line;
    }
  }

  lemma KeptSetPrefix(lines: seq<string>, i: int, cfg: Config)
    requires 0 <= i < |lines|
    ensures KeptSet(lines[..i + 1], cfg) == KeptSet(lines[..i], cfg)
      + (if Keep(cfg, Normalize(lines[i])) then {Normalize(lines[i])} else {})
  {
    assert lines[..i + 1] == lines[..i] + [lines[i]];
    KeptSetSnoc(lines[..i], lines[i], cfg);
  }

  /** A listing of the kept set holds exactly the normalized input lines that
      pass the checks. */
  lemma KeptSetMembers(lines: seq<string>, cfg: Config, subs: seq<string>)
    requires Elems(subs) == KeptSet(lines, cfg)
    ensures forall x :: x in subs <==>
      exists i :: 0 <= i < |lines| && Normalize(lines[i]) == x && Keep(cfg, x)
  {
    assert forall x :: x in subs <==> x in Elems(subs);
  }

  /** There are never more unique lines than input lines. */
  lemma {:induction false} KeptSetSize(lines: seq<string>, cfg: Config)
    ensures |KeptSet(lines, cfg)| <= |lines|
    decreases |lines|
  {
    if lines != [] {
      var init := lines[..|lines| - 1];
      assert lines == init + [lines[|lines| - 1]];
      KeptSetSnoc(init, lines[|lines| - 1], cfg);
      KeptSetSize(init, cfg);
    }
  }

  /** The ignore loop: whether some entry of the list occurs in the line. */
  method IsIgnored(lower: string, ignoreList: seq<string>) returns (ignored: bool)
    ensures ignored <==> exists k :: 0 <= k < |ignoreList| && IsSubstring(ignoreList[k], lower)
  {
    ignored := false;
    for k := 0 to |ignoreList|
      invariant forall j :: 0 <= j < k ==> !IsSubstring(ignoreList[j], lower)
    {
      ContainsIsSubstring(lower, ignoreList[k]);
      if Contains(lower, ignoreList[k]) {
        ignored := true;
        break;
      }
    }
  }

  /** `if !seen[lower] { seen[lower] = true }`, where a missing key reads as
      false. */
  function Mark(seen: map<string, bool>, x: string): (r: map<string, bool>)
    ensures r.Keys == seen.Keys + {x}
    ensures r[x]
    ensures forall y :: y in seen && y != x ==> r[y] == seen[y]
  {
    if x in seen && seen[x] then seen else seen[x := true]
  }

  /** Every key of the map is mapped to true. */
  predicate AllMarked(seen: map<string, bool>) {
    forall x :: x in seen ==> seen[x]
  }

  lemma MarkKeepsAllMarked(seen: map<string, bool>, x: string)
    requires AllMarked(seen)
    ensures AllMarked(Mark(seen, x))
  {
  }

  /** Inserting a line that is already present changes nothing. */
  lemma MarkIdempotent(seen: map<string, bool>, x: string)
    ensures Mark(Mark(seen, x), x) == Mark(seen, x)
  {
  }

  /** The checks the loop body makes on one normalized line before inserting
      it, each one skipping the line when it fails. */
  method Admit(lower: string, cfg: Config) returns (keep: bool)
    ensures keep <==> Keep(cfg, lower)
  {
    if lower == "" {
      return false;
    }
    var ignored := IsIgnored(lower, cfg.ignore);
    if ignored {
      return false;
    }
    ContainsIsSubstring(lower, cfg.filter);
    if cfg.filter != "" && !Contains(lower, cfg.filter) {
      return false;
    }
    if cfg.validate {
      var valid := IsValidSubdomain(lower);
      if !valid {
        return false;
      }
    }
    return true;
  }

  /** The loop over the input lines, filling the `seen` map. */
  method Scan(lines: seq<string>, cfg: Config) returns (seen: map<string, bool>)
    ensures seen.Keys == KeptSet(lines, cfg)
    ensures AllMarked(seen)
  {
    seen := map[];
    for i := 0 to |lines|
      invariant seen.Keys == KeptSet(lines[..i], cfg)
      invariant AllMarked(seen)
    {
      var lower := Normalize(lines[i]);
      var keep := Admit(lower, cfg);
      if keep {
        MarkKeepsAllMarked(seen, lower);
        seen := Mark(seen, lower);
      }
      KeptSetPrefix(lines, i, cfg);
    }
    assert lines[..|lines|] == lines;
  }

  // ----------------------------------------------------------------- output

  /** What is handed to the writer for each format. Encoding JSON and CSV is
      the work of Go's encoding/json and encoding/csv packages, which are not
      part of this model: the model records what they are given. */
  datatype Output =
    | PlainText(text: string)
    | JsonArray(items: seq<string>)
    | CsvRecords(records: seq<seq<string>>)

  function Render(f: Format, subs: seq<string>): (out: Output)
    ensures out.PlainText? <==> f == Plain
    ensures out.JsonArray? <==> f == Json
    ensures f == Json ==> out.items == subs
    ensures f == Csv ==>
      out.CsvRecords? && |out.records| == |subs|
      && forall i :: 0 <= i < |subs| ==> out.records[i] == [subs[i]]
  {
    match f
    case Plain => PlainText(Terminated(subs))
    case Json => JsonArray(subs)
    case Csv => CsvRecords(seq(|subs|, i requires 0 <= i < |subs| => [subs[i]]))
  }

  /** The input side of a run: the loop over the lines, then the keys of
      `seen` extracted and sorted. */
  method Dedup(lines: seq<string>, cfg: Config) returns (subs: seq<string>)
    ensures subs == Canonical(KeptSet(lines, cfg))
    ensures StrictlySorted(subs)
    ensures forall x :: x in subs <==>
      exists i :: 0 <= i < |lines| && Normalize(lines[i]) == x && Keep(cfg, x)
    ensures |subs| <= |lines|
  {
    var seen := Scan(lines, cfg);
    subs := Finalize(seen.Keys);
    KeptSetSize(lines, cfg);
    KeptSetMembers(lines, cfg, subs);
  }

  datatype Outcome = Written(subs: seq<string>, output: Output) | UnsupportedFormat

  /** One run over the input lines with the given options: the sorted unique
      lines and what is written for them, or the unsupported-format error. */
  method Run(lines: seq<string>, cfg: Config) returns (r: Outcome)
    ensures r == UnsupportedFormat <==> ParseFormat(cfg.format) == None
    ensures r.Written? ==> r.subs == Canonical(KeptSet(lines, cfg))
    ensures r.Written? && cfg.format == "plain" ==> r.output == PlainText(Terminated(r.subs))
    ensures r.Written? && cfg.format == "json" ==> r.output == JsonArray(r.subs)
    ensures r.Written? && cfg.format == "csv" ==>
      r.output.CsvRecords? && |r.output.records| == |r.subs|
      && forall i :: 0 <= i < |r.subs| ==> r.output.records[i] == [r.subs[i]]
  {
    var subs := Dedup(lines, cfg);
    match ParseFormat(cfg.format)
    case None =>
      r := UnsupportedFormat;
    case Some(f) =>
      r := Written(subs, Render(f, subs));
  }

  // ------------------------------------------------------------- properties

  /** Every kept line is non-empty, already trimmed and lower-cased, free of
      every ignore entry, contains the filter when one is set, and has the
      hostname shape when validation is on. */
  lemma KeptLinesPassEveryCheck(lines: seq<string>, cfg: Config, x: string)
    requires x in KeptSet(lines, cfg)
    ensures x != "" && Normalize(x) == x
    ensures forall k :: 0 <= k < |cfg.ignore| ==> !IsSubstring(cfg.ignore[k], x)
    ensures cfg.filter != "" ==> IsSubstring(cfg.filter, x)
    ensures cfg.validate ==> MatchesPattern(x)
  {
    var i :| 0 <= i < |lines| && Keep(cfg, Normalize(lines[i])) && x == Normalize(lines[i]);
    NormalizeIdempotent(lines[i]);
  }

  /** An empty ignore entry occurs in every line, so it drops every line. */
  lemma EmptyIgnoreEntryDropsAll(lines: seq<string>, cfg: Config)
    requires "" in cfg.ignore
    ensures KeptSet(lines, cfg) == {}
  {
    var k :| 0 <= k < |cfg.ignore| && cfg.ignore[k] == "";
    forall i | 0 <= i < |lines|
      ensures !Keep(cfg, Normalize(lines[i]))
    {
      EmptyIsSubstring(Normalize(lines[i]));
    }
    assert forall x :: x !in KeptSet(lines, cfg);
  }

  /** A comma at the end of the -ignore flag, or a piece that is blank, puts
      an empty entry in the ignore list. */
  lemma BlankPieceGivesEmptyEntry(flag: string, k: int)
    requires flag != "" && 0 <= k < |Split(flag, ',')|
    requires forall j :: 0 <= j < |Split(flag, ',')[k]| ==> Split(flag, ',')[k][j] in GoSpace
    ensures "" in ParseIgnore(flag)
  {
    IgnoreEntriesNormalized(flag, k);
  }

  lemma TrailingCommaGivesEmptyEntry(flag: string)
    requires flag != "" && flag[|flag| - 1] == ','
    ensures "" in ParseIgnore(flag)
  {
    var init := flag[..|flag| - 1];
    assert flag == init + [','];
    SplitSnoc(init, ',', ',');
    var pieces := Split(flag, ',');
    BlankPieceGivesEmptyEntry(flag, |pieces| - 1);
  }

  /** When every piece of the flag is already in normal form, the ignore
      list is the pieces themselves. */
  lemma NormalPiecesKept(flag: string, pieces: seq<string>)
    requires flag != "" && Split(flag, ',') == pieces
    requires forall k :: 0 <= k < |pieces| ==> Normalize(pieces[k]) == pieces[k]
    ensures ParseIgnore(flag) == pieces
  {
    forall k | 0 <= k < |pieces|
      ensures ParseIgnore(flag)[k] == pieces[k]
    {
      IgnoreEntriesNormalized(flag, k);
    }
  }

  /** Two commas in a row leave an empty entry between the pieces around
      them: -ignore "a,,b" yields the entries "a", "" and "b". */
  lemma DoubleCommaEntries(a: string, b: string)
    requires ',' !in a && ',' !in b
    requires Normalize(a) == a && Normalize(b) == b
    ensures ParseIgnore(a + ",," + b) == [a, "", b]
  {
    DoubleCommaPieces(a, b);
    PiecesAroundEmptyNormal(a, b, [a, "", b]);
    NormalPiecesKept(a + ",," + b, [a, "", b]);
  }

  lemma PiecesAroundEmptyNormal(a: string, b: string, pieces: seq<string>)
    requires Normalize(a) == a && Normalize(b) == b
    requires pieces == [a, "", b]
    ensures forall k :: 0 <= k < |pieces| ==> Normalize(pieces[k]) == pieces[k]
  {
    NormalizeEmpty();
    forall k | 0 <= k < |pieces|
      ensures Normalize(pieces[k]) == pieces[k]
    {
      if k == 0 {
        assert pieces[0] == a;
      } else if k == 1 {
        assert pieces[1] == "";
      } else {
        assert pieces[2] == b;
      }
    }
  }

  lemma DoubleCommaPieces(a: string, b: string)
    requires ',' !in a && ',' !in b
    ensures Split(a + ",," + b, ',') == [a, "", b]
  {
    assert a + ",," + b == a + [','] + [','] + b;
    SplitDoubleSep(a, b, ',');
  }

  lemma NormalizeEmpty()
    ensures Normalize("") == ""
  {
  }

  /** A string with an upper-case character never occurs in a string without
      one. */
  lemma UpperNeverInLower(sub: string, s: string, j: int)
    requires 0 <= j < |sub| && IsUpper(sub[j])
    requires forall i :: 0 <= i < |s| ==> !IsUpper(s[i])
    ensures !IsSubstring(sub, s)
  {
    forall p | 0 <= p <= |s| - |sub|
      ensures !OccursAt(sub, s, p)
    {
      assert s[p..p + |sub|][j] == s[p + j];
    }
  }

  /** The filter is compared as given with the lower-cased line, so a filter
      with an upper-case letter keeps nothing. */
  lemma UppercaseFilterKeepsNothing(lines: seq<string>, cfg: Config, j: int)
    requires 0 <= j < |cfg.filter| && IsUpper(cfg.filter[j])
    ensures KeptSet(lines, cfg) == {}
  {
    forall i | 0 <= i < |lines|
      ensures !IsSubstring(cfg.filter, Normalize(lines[i]))
    {
      UpperNeverInLower(cfg.filter, Normalize(lines[i]), j);
    }
    assert forall x :: x !in KeptSet(lines, cfg);
  }

  /** A sequence of lines that are each already normalized and pass the
      checks is kept in full. */
  lemma KeptSetOfKeptLines(xs: seq<string>, cfg: Config)
    requires forall j :: 0 <= j < |xs| ==> Normalize(xs[j]) == xs[j] && Keep(cfg, xs[j])
    ensures KeptSet(xs, cfg) == Elems(xs)
  {
    forall x | x in Elems(xs)
      ensures x in KeptSet(xs, cfg)
    {
      var j :| 0 <= j < |xs| && xs[j] == x;
      assert Keep(cfg, Normalize(xs[j]));
    }
  }

  /** Running the tool again on its own output, with the same options, gives
      the same lines. */
  lemma RerunIsFixpoint(lines: seq<string>, cfg: Config)
    ensures KeptSet(Canonical(KeptSet(lines, cfg)), cfg) == KeptSet(lines, cfg)
  {
    var kept := KeptSet(lines, cfg);
    var out := Canonical(kept);
    forall j | 0 <= j < |out|
      ensures Normalize(out[j]) == out[j] && Keep(cfg, out[j])
    {
      assert out[j] in Elems(out);
      KeptLinesPassEveryCheck(lines, cfg, out[j]);
    }
    KeptSetOfKeptLines(out, cfg);
  }

  /** Normalizing never brings in a newline. */
  lemma NormalizeKeepsOutNewline(line: string)
    requires '\n' !in line
    ensures '\n' !in Normalize(line)
  {
    TrimKeepsOut(line, GoSpace, '\n');
    LowerKeepsOut(Trim(line, GoSpace), '\n');
  }

  /** The plain output, cut at its newlines, gives back the sorted sequence
      the JSON encoder is handed, followed by the empty piece after the last
      newline: the two formats list the same lines in the same order. */
  lemma PlainOutputReadsBack(lines: seq<string>, cfg: Config)
    requires forall i :: 0 <= i < |lines| ==> '\n' !in lines[i]
    ensures Split(Terminated(Canonical(KeptSet(lines, cfg))), '\n')
         == Canonical(KeptSet(lines, cfg)) + [""]
  {
    var out := Canonical(KeptSet(lines, cfg));
    forall j | 0 <= j < |out|
      ensures '\n' !in out[j]
    {
      assert out[j] in Elems(out);
      var i :| 0 <= i < |lines| && Keep(cfg, Normalize(lines[i])) && out[j] == Normalize(lines[i]);
      NormalizeKeepsOutNewline(lines[i]);
    }
    TerminatedRoundTrip(out);
  }

  // -------------------------------------------------------------- scenarios

  /** What one line adds to the kept set: its normal form, when that passes
      the checks. */
  ghost function Contribution(line: string, cfg: Config): set<string> {
    if Keep(cfg, Normalize(line)) then {Normalize(line)} else {}
  }

  lemma KeptSetOfOne(a: string, cfg: Config)
    ensures KeptSet([a], cfg) == Contribution(a, cfg)
  {
    KeptSetSnoc([], a, cfg);
    AppendFirst(a);
  }

  /** Two lines of which only the first normalizes to a form that passes the
      checks: that form alone is kept. */
  lemma FirstOfPairKept(a: string, b: string, cfg: Config, x: string)
    requires Normalize(a) == x && Keep(cfg, x)
    requires !Keep(cfg, Normalize(b))
    ensures KeptSet([a, b], cfg) == {x}
  {
    KeptSetOfOne(a, cfg);
    KeptSetSnoc([a], b, cfg);
    AppendSecond(a, b);
  }

  /** Two lines in normal form of which only the second passes the checks:
      the second alone is kept. */
  lemma SecondOfPairKept(a: string, b: string, cfg: Config)
    requires Normalize(a) == a && !Keep(cfg, a)
    requires Normalize(b) == b && Keep(cfg, b)
    ensures KeptSet([a, b], cfg) == {b}
  {
    KeptSetOfOne(a, cfg);
    KeptSetSnoc([a], b, cfg);
    AppendSecond(a, b);
  }

  /** Appending a line whose normal form passes the checks adds that form. */
  lemma SnocKept(ls: seq<string>, line: string, cfg: Config, before: set<string>, n: string)
    requires KeptSet(ls, cfg) == before
    requires Normalize(line) == n && Keep(cfg, n)
    ensures KeptSet(ls + [line], cfg) == before + {n}
  {
    KeptSetSnoc(ls, line, cfg);
  }

  /** A kept second line with the first line's form adds nothing new. */
  lemma RepeatAfterPair(a: string, b: string, c: string, cfg: Config, x: string)
    requires KeptSet([a, b], cfg) == {x}
    requires Normalize(c) == x && Keep(cfg, x)
    ensures KeptSet([a, b, c], cfg) == {x}
  {
    SnocKept([a, b], c, cfg, {x}, x);
    AppendThird(a, b, c);
  }

  /** A fourth line with a kept form adds that form. */
  lemma NewAfterTriple(a: string, b: string, c: string, d: string, cfg: Config, x: string, y: string)
    requires KeptSet([a, b, c], cfg) == {x}
    requires Normalize(d) == y && Keep(cfg, y)
    ensures KeptSet([a, b, c, d], cfg) == {y, x}
  {
    SnocKept([a, b, c], d, cfg, {x}, y);
    AppendFourth(a, b, c, d);
  }

  /** With no options, of a line, a blank line and a line normalizing alike,
      the one normal form is kept. */
  lemma FoldedThree(a: string, b: string, c: string, x: string)
    requires Normalize(a) == x && Normalize(b) == "" && Normalize(c) == x && x != ""
    ensures KeptSet([a, b, c], DefaultConfig()) == {x}
  {
    var cfg := DefaultConfig();
    FirstOfPairKept(a, b, cfg, x);
    RepeatAfterPair(a, b, c, cfg, x);
  }

  /** A line of lower-case letters and dots is its own normal form. */
  lemma LowerCaseLineNormal(s: string)
    requires s != [] && forall i :: 0 <= i < |s| ==> 'a' <= s[i] <= 'z' || s[i] == '.'
    ensures Normalize(s) == s
  {
    NormalFormUnchanged(s);
  }

  /** A line without whitespace at either end normalizes to its
      character-by-character lower-casing. */
  lemma LowersTo(s: string, t: string)
    requires EdgesOutside(s, GoSpace)
    requires |s| == |t| && forall i :: 0 <= i < |s| ==> LowerChar(s[i]) == t[i]
    ensures Normalize(s) == t
  {
    TrimOfTrimmed(s, GoSpace);
  }

  /** A string missing one of the characters of `sub` does not contain it. */
  lemma MissingCharNotSubstring(sub: string, s: string, j: int)
    requires 0 <= j < |sub| && sub[j] !in s
    ensures !IsSubstring(sub, s)
  {
    forall p | 0 <= p <= |s| - |sub|
      ensures !OccursAt(sub, s, p)
    {
      assert s[p..p + |sub|][j] == s[p + j];
    }
  }

  /** A flag without commas, already in normal form, is the one entry. */
  lemma SingleIgnoreEntry(flag: string)
    requires flag != "" && ',' !in flag && Normalize(flag) == flag
    ensures ParseIgnore(flag) == [flag]
  {
    SplitNoSep(flag, ',');
    NormalPiecesKept(flag, [flag]);
  }

  /** -filter ".gov.eg" over the lines "a.b.gov.eg" and "x.y.com" keeps the
      first line only. */
  lemma FilterScenario()
    ensures KeptSet(["a.b.gov.eg", "x.y.com"], MakeConfig("", ".gov.eg", false, "plain"))
         == {"a.b.gov.eg"}
    ensures Canonical({"a.b.gov.eg"}) == ["a.b.gov.eg"]
  {
    var cfg := MakeConfig("", ".gov.eg", false, "plain");
    FilterChecks(cfg);
    GovLineNormal();
    ComLineNormal();
    FirstOfPairKept("a.b.gov.eg", "x.y.com", cfg, "a.b.gov.eg");
    CanonicalSingleton("a.b.gov.eg");
  }

  lemma FilterChecks(cfg: Config)
    requires cfg == MakeConfig("", ".gov.eg", false, "plain")
    ensures Keep(cfg, "a.b.gov.eg")
    ensures !Keep(cfg, "x.y.com")
  {
    assert cfg.ignore == [] && cfg.filter == ".gov.eg" && !cfg.validate;
    assert OccursAt(".gov.eg", "a.b.gov.eg", 3);
    assert !OccursAt(".gov.eg", "x.y.com", 0) by {
      assert "x.y.com"[0..7][0] == 'x';
    }
  }

  /** With no options, lines that differ only in case are one line, and the
      empty line is dropped: "Foo.Example.com", "", "foo.example.com" and
      "BAR.example.com" give "bar.example.com" then "foo.example.com". */
  lemma CaseFoldingScenario()
    ensures KeptSet(["Foo.Example.com", "", "foo.example.com", "BAR.example.com"], DefaultConfig())
         == {"bar.example.com", "foo.example.com"}
    ensures Canonical({"bar.example.com", "foo.example.com"}) == ["bar.example.com", "foo.example.com"]
  {
    CaseFoldingFirstThree();
    UpperCaseLabelFolds();
    NewAfterTriple("Foo.Example.com", "", "foo.example.com", "BAR.example.com", DefaultConfig(),
                   "foo.example.com", "bar.example.com");
    BarBeforeFoo();
  }

  /** The first three lines of the scenario above fold to one form. */
  lemma CaseFoldingFirstThree()
    ensures KeptSet(["Foo.Example.com", "", "foo.example.com"], DefaultConfig()) == {"foo.example.com"}
  {
    CapitalizedLineFolds();
    NormalizeEmpty();
    LowerCaseLineKept();
    FoldedThree("Foo.Example.com", "", "foo.example.com", "foo.example.com");
  }

  lemma BarBeforeFoo()
    ensures Canonical({"bar.example.com", "foo.example.com"}) == ["bar.example.com", "foo.example.com"]
  {
    assert "bar.example.com"[0] < "foo.example.com"[0];
    CanonicalPair("bar.example.com", "foo.example.com");
  }

  /** With -valid, of "abc" and "a.bc" only "a.bc" has the hostname shape. */
  lemma ValidScenario()
    ensures KeptSet(["abc", "a.bc"], MakeConfig("", "", true, "plain")) == {"a.bc"}
    ensures Canonical({"a.bc"}) == ["a.bc"]
  {
    var cfg := MakeConfig("", "", true, "plain");
    assert cfg.ignore == [] && cfg.filter == "" && cfg.validate;
    LowerCaseLineNormal("abc");
    LowerCaseLineNormal("a.bc");
    BareNameRejected();
    ShortNameAccepted();
    SecondOfPairKept("abc", "a.bc", cfg);
    CanonicalSingleton("a.bc");
  }

  /** With -ignore test, "test.example.com" is dropped and
      "prod.example.com" is kept. */
  lemma IgnoreScenario()
    ensures KeptSet(["test.example.com", "prod.example.com"], MakeConfig("test", "", false, "plain"))
         == {"prod.example.com"}
    ensures Canonical({"prod.example.com"}) == ["prod.example.com"]
  {
    var cfg := MakeConfig("test", "", false, "plain");
    TestEntry(cfg);
    IgnoreChecks(cfg);
    TestLineNormal();
    ProdLineNormal();
    SecondOfPairKept("test.example.com", "prod.example.com", cfg);
    CanonicalSingleton("prod.example.com");
  }

  lemma TestEntry(cfg: Config)
    requires cfg == MakeConfig("test", "", false, "plain")
    ensures cfg.ignore == ["test"] && cfg.filter == "" && !cfg.validate
  {
    LowerCaseLineNormal("test");
    SingleIgnoreEntry("test");
  }

  lemma IgnoreChecks(cfg: Config)
    requires cfg.ignore == ["test"] && cfg.filter == "" && !cfg.validate
    ensures !Keep(cfg, "test.example.com")
    ensures Keep(cfg, "prod.example.com")
  {
    assert IsSubstring(cfg.ignore[0], "test.example.com") by {
      assert "test.example.com"[0..4] == "test";
      assert OccursAt("test", "test.example.com", 0);
    }
    IgnoreTestMisses();
    assert forall k :: 0 <= k < |cfg.ignore| ==> cfg.ignore[k] == "test";
  }

  lemma IgnoreTestMisses()
    ensures !IsSubstring("test", "prod.example.com")
  {
    assert 't' !in "prod.example.com";
    MissingCharNotSubstring("test", "prod.example.com", 0);
  }

  // ------------------------------------------------------- proof scaffolding

  /* The lemmas below carry no property of their own. Each settles one small
     fact, a sequence display built by appending or the normal form of one
     string literal, in a proof of its own, so that the scenario proofs above
     hold one such fact at a time instead of all of them together. */

  lemma AppendFirst(a: string)
    ensures [] + [a] == [a]
  {
  }

  lemma AppendSecond(a: string, b: string)
    ensures [a] + [b] == [a, b]
  {
  }

  lemma AppendThird(a: string, b: string, c: string)
    ensures [a, b] + [c] == [a, b, c]
  {
  }

  lemma AppendFourth(a: string, b: string, c: string, d: string)
    ensures [a, b, c] + [d] == [a, b, c, d]
  {
  }

  lemma GovLineNormal()
    ensures Normalize("a.b.gov.eg") == "a.b.gov.eg"
  {
    LowerCaseLineNormal("a.b.gov.eg");
  }

  lemma ComLineNormal()
    ensures Normalize("x.y.com") == "x.y.com"
  {
    LowerCaseLineNormal("x.y.com");
  }

  lemma CapitalizedLineFolds()
    ensures Normalize("Foo.Example.com") == "foo.example.com"
  {
    LowersTo("Foo.Example.com", "foo.example.com");
  }

  lemma LowerCaseLineKept()
    ensures Normalize("foo.example.com") == "foo.example.com"
  {
    LowerCaseLineNormal("foo.example.com");
  }

  lemma UpperCaseLabelFolds()
    ensures Normalize("BAR.example.com") == "bar.example.com"
  {
    LowersTo("BAR.example.com", "bar.example.com");
  }

  lemma TestLineNormal()
    ensures Normalize("test.example.com") == "test.example.com"
  {
    LowerCaseLineNormal("test.example.com");
  }

  lemma ProdLineNormal()
    ensures Normalize("prod.example.com") == "prod.example.com"
  {
    LowerCaseLineNormal("prod.example.com");
  }
}
