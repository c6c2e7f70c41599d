# subuniq in Dafny

subuniq is a small command-line tool that removes duplicate subdomains from a
list. This project models its deduplication pipeline and proves what that
pipeline promises.

The Go version (`main.go`) runs these steps:

1. It builds an ignore list from the `-ignore` flag.
2. For each input line, it trims surrounding whitespace and lower-cases the line.
3. It drops the line when:
   - the line is empty,
   - the line contains any ignore entry,
   - a `-filter` is set and the line does not contain it, or
   - `-valid` is set and the line does not have the hostname shape `^(?:[a-zA-Z0-9_-]+\.)+[a-zA-Z]{2,}$`.
4. It puts every remaining line into the `seen` map.
5. It extracts the map's keys and sorts them.
6. It writes them as plain text, JSON or CSV, or reports an unsupported format.

The earlier Python version (`subuniq/cli.py`) is simpler. It strips and lower-cases each line, skips blank lines, and writes the sorted set one line at a time.

The model has five modules:

- `Text`: the building blocks. These are whitespace trimming, ASCII lower-casing, substring search (`strings.Contains`), splitting on one character (`strings.Split`) and the newline-terminated write loop.
- `Hostname`: the hostname shape, stated three ways:
  - as the regular expression reads: labels, each followed by a dot, then a top-level label;
  - as a condition on the pieces between the dots;
  - as a one-pass character scanner that takes the place of the regular-expression engine.
  
  The module proves all three agree.
- `Order`: the byte-wise lexicographic order and insertion sort. It also covers extracting a map's keys in an arbitrary order, and the canonical enumeration of a set. It proves that sorting the extracted keys always gives that canonical enumeration, whatever order the keys came out in.
- `Deduplicator`: the Go pipeline. This covers the options, the per-line checks, the `seen` map, the run as a whole, and its properties.
- `LegacyCli`: the Python pipeline, plus proofs about how it relates to the Go one. With no options, given the same list of lines, all ASCII without U+001C..U+001F, the two write the same text. A line holding only U+001F is where they part.

Both versions take their input as the sequence of lines the file was split into. JSON and CSV output is modelled as what is handed to the encoder: the sorted sequence itself, and one single-field record per line. Go's map iteration order is not specified, so it is a nondeterministic choice in `Order.Extract`.

Three points of the code's behaviour shape the model:

- **Order of the checks.** The code checks ignore, then filter, then validation (main.go:104-124). The checks are pure predicates on the same normalized line, so their order does not change the result.
- **Ordering of the output.** The output is strictly ascending, because the lines come from a map's keys (main.go:146-150). `Deduplicator.Dedup` states the strict order.
- **Unsupported format.** `os.Create` creates and truncates the output file (main.go:153) before the format switch (main.go:161), so an unknown format leaves an empty file behind. File creation is outside the model, so `Deduplicator.Run` only reports `UnsupportedFormat`.

## Model

| member | source | states |
|---|---|---|
| Text.Trim | main.go:98 | the result is a contiguous slice of the line; everything cut from either end is whitespace; the result neither starts nor ends with whitespace; it is empty exactly when the line is all whitespace |
| Text.Lower | main.go:99 | same length; each character is mapped by ASCII case mapping; no upper-case letter remains |
| Text.LowerIdempotent | main.go:99 | lower-casing twice is lower-casing once |
| Text.TrimLowerCommute | main.go:76 | trimming after lower-casing (the ignore entries) equals lower-casing after trimming (the lines), because whitespace holds no letters |
| Text.ContainsIsSubstring | main.go:107 | strings.Contains is true exactly when the entry occurs at some position of the line |
| Text.EmptyIsSubstring | main.go:107 | the empty entry occurs in every line |
| Text.Split | main.go:75 | strings.Split yields at least one piece, no piece holds a comma, and joining the pieces with commas gives the flag back |
| Text.SplitJoin | main.go:75 | splitting undoes joining when no part contains the separator |
| Text.WriteLines | main.go:163-165 | the write loop produces each line followed by a newline, in order; when no line contains a newline, that text cut at the newlines gives the lines back plus one empty final piece |
| Text.TerminatedRoundTrip | main.go:163-165 | when no line contains a newline, newline-terminated output read back line by line gives the lines, then the empty piece after the last newline |
| Text.TrimWider | subuniq/cli.py:12 | trimming with a larger whitespace set changes nothing when none of the extra characters occurs |
| Hostname.IsValidSubdomain | main.go:40-45 | the scanner accepts a string exactly when it is one or more `[a-zA-Z0-9_-]+` labels each followed by a dot, then two or more ASCII letters |
| Hostname.LabelsIffPattern | main.go:42 | the pattern matches exactly when cutting at every dot gives at least two pieces, all but the last are labels, and the last is two or more letters |
| Hostname.EndsInTwoLetters | main.go:42 | every match ends in two ASCII letters, the end of its top-level label |
| Hostname.BareNameRejected | main.go:42 | `abc` does not match |
| Hostname.ShortNameAccepted | main.go:42 | `a.bc` matches |
| Hostname.DigitInTldRejected | main.go:42 | `x.y.c0m` does not match |
| Order.LessIsLexicographic | main.go:150 | the comparison holds exactly when `a` is a proper prefix of `b`, or the first differing character of `a` is smaller |
| Order.LessIrreflexive | main.go:150 | no string is smaller than itself |
| Order.LessTransitive | main.go:150 | the order is transitive |
| Order.LessTotal | main.go:150 | of two different strings, one is smaller |
| Order.Insert | main.go:150 | inserting into a sorted sequence keeps it sorted and adds exactly that element |
| Order.SortStrings | main.go:150 | sort.Strings returns a sorted permutation of its input |
| Order.Extract | main.go:146-149 | ranging over the map's keys, in whatever order, lists every key exactly once and nothing else |
| Order.Canonical | main.go:150 | every finite set has a strictly ascending enumeration of exactly its members |
| Order.SortedUnique | main.go:150 | two strictly ascending sequences with the same members are equal, so the output does not depend on map iteration order |
| Order.CanonicalPair | main.go:150 | two strings, the smaller first, are the sorted enumeration of their pair |
| Order.Finalize | main.go:146-150 | extracting then sorting gives the set's canonical enumeration: strictly ascending, exactly the members, one per member |
| Deduplicator.DefaultConfig | main.go:51-54 | every flag at its default gives no ignore entries, no filter, no validation and the plain format, and then a line is kept exactly when its normal form is non-empty |
| Deduplicator.ParseFormat | main.go:161-187 | exactly `plain`, `json` and `csv` are recognised, compared as given |
| Deduplicator.FormatName | main.go:161-187 | each format's name is recognised as that format |
| Deduplicator.ParseFormatInverse | main.go:161-187 | a recognised name is the name of the format it selects |
| Deduplicator.ParseIgnore | main.go:73-78 | no flag gives no entries; a non-empty flag gives one entry per comma-separated piece |
| Deduplicator.IgnoreEntriesNormalized | main.go:75-76 | each entry is its piece trimmed and lower-cased, which is the same normal form the lines get |
| Deduplicator.Normalize | main.go:98-99 | the normal form is never longer than the line |
| Deduplicator.NormalizeHasNoUpper | main.go:99 | no upper-case letter survives normalization |
| Deduplicator.NormalizeIsSlice | main.go:98-99 | the normal form is the lower-casing of a slice of the line, and everything outside that slice is whitespace |
| Deduplicator.NormalizeEdges | main.go:98-99 | the normal form neither starts nor ends with whitespace |
| Deduplicator.NormalizeBlank | main.go:98-102 | the normal form is empty, and the line skipped, exactly when the line is all whitespace |
| Deduplicator.NormalizeIdempotent | main.go:98-99 | normalizing a normalized line changes nothing |
| Deduplicator.IsIgnored | main.go:105-114 | the ignore loop reports a hit exactly when some entry occurs in the line |
| Deduplicator.Admit | main.go:100-124 | the chain of `continue` checks lets a line through exactly when it is non-empty, holds no ignore entry, contains the filter if one is set, and matches the pattern if validation is on |
| Deduplicator.Mark | main.go:127-131 | after insertion the line is a key mapped to true; the keys grow by that line only; every other entry is unchanged |
| Deduplicator.MarkIdempotent | main.go:128-130 | inserting an already-seen line leaves the map unchanged |
| Deduplicator.Scan | main.go:96-137 | after the loop, the map's keys are exactly the normalized forms of the lines that pass every check, and every value is true |
| Deduplicator.Dedup | main.go:96-150 | the result is strictly ascending; a string is in it exactly when it is the normalized form of some input line that passes every check; it is no longer than the input |
| Deduplicator.Render | main.go:161-183 | plain text is chosen exactly for the plain format and a JSON array exactly for JSON; JSON receives the sorted sequence unchanged; CSV receives one single-field record per line, in order |
| Deduplicator.Run | main.go:161-187 | an unknown format is an error with no output; plain output is each line plus a newline; JSON receives the sorted sequence; CSV receives one single-field record per line, in order |
| Deduplicator.KeptSetSize | main.go:191-192 | the unique count never exceeds the number of input lines |
| Deduplicator.KeptLinesPassEveryCheck | main.go:98-124 | every output line is non-empty, in normal form, free of every ignore entry, contains the filter when one is set, and has the hostname shape when validation is on |
| Deduplicator.EmptyIgnoreEntryDropsAll | main.go:106-113 | an empty ignore entry drops every line |
| Deduplicator.BlankPieceGivesEmptyEntry | main.go:75-76 | a blank comma-separated piece yields an empty ignore entry |
| Deduplicator.TrailingCommaGivesEmptyEntry | main.go:73-78 | a flag ending in a comma yields an empty ignore entry |
| Deduplicator.NormalPiecesKept | main.go:73-78 | when every comma-separated piece is already trimmed and lower-case, the ignore list is exactly the pieces |
| Deduplicator.DoubleCommaEntries | main.go:73-78 | two commas in a row, as in `-ignore a,,b`, yield the piece before, an empty entry, and the piece after, when both pieces are already in normal form |
| Deduplicator.UppercaseFilterKeepsNothing | main.go:117-119 | the filter is not lower-cased, so a filter with an upper-case letter keeps no line |
| Deduplicator.RerunIsFixpoint | main.go:96-150 | running again on the output with the same options gives the same set of lines |
| Deduplicator.NormalizeKeepsOutNewline | main.go:98-99 | normalizing a line without a newline never yields one |
| Deduplicator.PlainOutputReadsBack | main.go:162-169 | for lines without a newline, which is all the line scanner yields, the plain text cut at its newlines is the sequence handed to the JSON encoder plus the final empty piece |
| Deduplicator.FilterScenario | main.go:117-119 | filter `.gov.eg` over `a.b.gov.eg` and `x.y.com` outputs `a.b.gov.eg` only |
| Deduplicator.CaseFoldingScenario | main.go:98-102 | with no options, `Foo.Example.com`, an empty line, `foo.example.com` and `BAR.example.com` output `bar.example.com` then `foo.example.com` |
| Deduplicator.ValidScenario | main.go:121-123 | with `-valid`, of `abc` and `a.bc` only `a.bc` is output |
| Deduplicator.IgnoreScenario | main.go:104-114 | with `-ignore test`, of `test.example.com` and `prod.example.com` only `prod.example.com` is output |
| LegacyCli.Strip | subuniq/cli.py:12 | `strip()` returns a slice of the line with only whitespace cut from either end, neither end of it whitespace, and it is empty exactly when the line is all whitespace |
| LegacyCli.UniqueSet | subuniq/cli.py:12 | the set never holds the empty string |
| LegacyCli.UniqueSetNormal | subuniq/cli.py:12 | every member is already stripped and lower-case |
| LegacyCli.UniqueSetRerun | subuniq/cli.py:12 | feeding the sorted output back in gives the same set |
| LegacyCli.UniqueSetMembers | subuniq/cli.py:12 | a string is listed exactly when it is the stripped, lower-cased form of a non-blank line, and the empty string never is |
| LegacyCli.Subuniq | subuniq/cli.py:12-16 | the output is strictly ascending; it is exactly the stripped, lower-cased non-blank lines; it never holds an empty line; the text written is each entry plus a newline |
| LegacyCli.NormalizeAgrees | subuniq/cli.py:12 | on ASCII lines without U+001C..U+001F, `strip().lower()` equals Go's TrimSpace-then-ToLower, and both are blank together |
| LegacyCli.SameUniqueSet | subuniq/cli.py:12 | on such lines, the Python set equals the Go kept set under default options |
| LegacyCli.BothVersions | subuniq/cli.py:12-16 | on such lines, the Go run with default options writes plain text, identical to the Python output |
| LegacyCli.SeparatorDivergence | subuniq/cli.py:12 | a line holding only U+001F is kept by Go and skipped as blank by Python |

## Left out

- File handling is not modelled. Line splitting is not modelled: `bufio.Scanner` splits on `\n` and drops a trailing `\r`, while Python's `splitlines` also splits on other line boundaries. Both versions start from the list of lines. On the same file the lists can differ: for `a.com\rb.com\n`, Go sees one line keeping its inner `\r` and Python sees two.
- Read and write errors are left out, as are the exit codes.
- Flag parsing, the banner, the usage text, the progress messages and the final statistics are console output only.
- The mutex around the map is left out. The loop is sequential, so it has no effect on the result.
- JSON and CSV encoding belong to Go's `encoding/json` and `encoding/csv`. The model records what is handed to them, not the bytes they produce.
- The regular-expression engine is replaced by the proven-equivalent scanner `Hostname.IsValidSubdomain`.
- `setup.py` is packaging metadata only.
- Input lines are assumed to be valid UTF-8. A model string is a sequence of Unicode scalar values, so it cannot hold an invalid byte. Go's `strings.ToLower` (main.go:99) turns each invalid byte into U+FFFD, so two lines that differ only in invalid bytes can become one. Python's `open()` (subuniq/cli.py:9) decodes with the locale's encoding: under UTF-8 it fails on such input and the run ends with an error message, while under a single-byte encoding such as Latin-1 every byte decodes to some character.
- Python writes in text mode (subuniq/cli.py:14-16), so each `'\n'` becomes the platform's line ending on disk, `"\r\n"` on Windows. The `text` of `LegacyCli.Subuniq` and the identical text of `LegacyCli.BothVersions` are the strings handed to `write`, not the bytes on disk on every platform.
- Text.Trim: only ASCII whitespace is removed. For Go, that is tab, LF, VT, FF, CR and space. For Python, it is also U+001C..U+001F. Unicode spaces such as U+0085 and U+00A0 are not modelled.
- Text.Lower: only A–Z are mapped. Unicode case mapping is not modelled.
- LegacyCli.BothVersions: the agreement is stated only for ASCII lines without U+001C..U+001F. That is the range where the model's whitespace and case mapping are exact. `LegacyCli.SeparatorDivergence` shows the separator exclusion is needed.
