# Env feeder, modelled and verified in Dafny

This project models the env feeder in `feeder/env.go`. The feeder reads a file
of `KEY=VALUE` lines into a string map. It turns every key into its dotted
lower-case form (`APP_NAME` becomes `app.name`). It lets a non-empty
environment variable with the raw key's name override the value from the file.

The model has three files:

- `text.dfy` (module `Text`): ASCII models of the Go string functions the
  feeder calls. These are `strings.TrimSpace`, `strings.Index` with the
  one-character separator `=`, `strings.ToLower`, and `strings.Replace` with
  count -1.
- `env.dfy` (module `Feeder`): the feeder itself.
  - `parse` is the function `Parse`. Its result is `Result<Entry>`. A blank or
    comment line gives `Ok(Entry("", ""))`, as the Go code returns
    `("", "", nil)`.
  - `read` is the method `Read`. Its loop fills a local `items` map in place
    and stops at the first malformed line. Its specification is
    `ReadOutcome`: the fold `Accumulate` over the parse results of the lines,
    then the scanner's error.
  - `load` is the method `Load`. The file system is a parameter: a function
    from a path to the outcome of resolving, opening and scanning it.
  - `standardize` is `Standardize` and `get` is `Get`. The process environment
    is a map parameter.
  - `Env.Feed` is the method `Feed`. Its loop takes the loaded keys in an
    unspecified order, as Go's map iteration does, and fills the fresh map `m`.
    Its specification is the relation `Resolved`.
- `scenarios.dfy` (module `FeederScenarios`): example behaviour on
  concrete files and environments, derived from the general contracts. It
  covers environment precedence, the empty-variable quirk, comments and blank
  lines, a malformed line, duplicate keys, a value holding `=`, and a
  collision between two keys.

Two details of the code that the model keeps:

- read skips every parse result whose key is empty, so a `=value` line adds
  nothing, just like a blank or comment line (feeder/env.go:70-72).
- The error message for a malformed line is `Invalid line: ` followed by the
  trimmed line (feeder/env.go:84, 96).

## Model

| member | source | states |
|---|---|---|
| Text.TrimSpace | feeder/env.go:84 | The trimmed line has no white space at either end and is no longer than the line. |
| Text.TrimSpaceSlice | feeder/env.go:84 | The line is the trimmed result with only white space before and after it: TrimSpace returns a contiguous slice and drops nothing but white space at the two ends. |
| Text.TrimSpaceChars | feeder/env.go:99 | Every character of a trimmed string occurs in the original, so trimming the text before the first `=` cannot bring in an `=`. |
| Text.TrimSpaceOfTrimmed | feeder/env.go:84 | A string with no surrounding white space is left unchanged by TrimSpace. |
| Text.TrimSpaceIdempotent | feeder/env.go:84 | Trimming twice gives the same string as trimming once. |
| Text.Index | feeder/env.go:94 | `strings.Index` with separator `=` answers -1 or a position inside the line, and a non-negative answer points at an `=`. |
| Text.IndexFirst | feeder/env.go:94-95 | `strings.Index` gives -1 exactly when the line has no `=`; otherwise no `=` occurs before the answer. |
| Text.IndexAt | feeder/env.go:94 | The position of an `=` with no `=` before it is the answer of `strings.Index`. |
| Text.LowerChar | feeder/env.go:35 | The lowered character is never an upper-case ASCII letter. Upper-case letters move 32 code points to their lower-case letter, and every other character is kept. |
| Text.ToLower | feeder/env.go:35 | `strings.ToLower` keeps the length and leaves no upper-case letter. Every other character stays as it is, and each upper-case letter moves 32 code points up to its lower-case letter. |
| Text.ReplaceAll | feeder/env.go:35 | `strings.Replace` with count -1 keeps the length. Every occurrence of the old character becomes the new one, and every other character stays in place, so no old character remains when the two differ. |
| Feeder.Parse | feeder/env.go:83-103 | A blank or `#` line gives the empty key and value with no error. A non-blank line fails exactly when the trimmed line has no `=`, with the message `Invalid line: ` plus the trimmed line. On success the key holds no `=`, and key and value are both trimmed. |
| Feeder.ParseSplitsAtFirstEquals | feeder/env.go:94-102 | A line is split at its first `=`: the key is the trimmed text before it and the value the trimmed text after it, so later `=` remain in the value. |
| Feeder.ParseAssignment | feeder/env.go:83-103 | Round trip: `key + "=" + value` parses back to `Entry(key, value)` for any trimmed key without `=` that does not start with `#` (including the empty key), and any trimmed value. |
| Feeder.AccumulateErrSticks | feeder/env.go:64-68 | Once a line has failed to parse, the later lines do not change the outcome. |
| Feeder.AccumulateStep | feeder/env.go:64-72 | One loop step: a failing line turns the accumulation into its error, and a parsed line stores its key and value unless the key is empty. |
| Feeder.Read | feeder/env.go:60-80 | The loop's result equals `ReadOutcome`: the map folded from the parse results in line order, or the first parse error, or else the scanner's error. |
| Feeder.AccumulateFails | feeder/env.go:64-68 | Accumulating fails exactly when some parse result is an error. |
| Feeder.AccumulateReportsFirstError | feeder/env.go:64-68 | A failed accumulation reports the error of the first failing result. |
| Feeder.AccumulateKeys | feeder/env.go:70-72 | A key is in the accumulated map exactly when some result carries that non-empty key, and the empty key never is. |
| Feeder.AccumulateLastWins | feeder/env.go:70-72 | A key's value in the map is the value of the last result carrying that key. |
| Feeder.ReadFails | feeder/env.go:60-80 | read fails, returning no map, exactly when some line is malformed or the scanner failed. A malformed line wins, and the error is `Invalid line: ` plus the first malformed line, trimmed. |
| Feeder.ReadKeys | feeder/env.go:64-73 | On success, a key is in read's map exactly when some line parses to that non-empty key. The empty key is never in the map, so blank lines, comments and `=value` lines add nothing. |
| Feeder.ReadLastWins | feeder/env.go:70-72 | For a duplicated key, read keeps the value from the last line defining it. |
| Feeder.Load | feeder/env.go:39-57 | The result is `Loaded` of the file outcome: an open error is returned unchanged, and otherwise the result is read's outcome on the opened file's lines and scanner error. |
| Feeder.Standardize | feeder/env.go:33-36 | Length is preserved. The result holds no `_` and no upper-case letter. Each `_` becomes `.`, and every other character stays in place, lower-cased. |
| Feeder.StandardizeIdempotent | feeder/env.go:33-36 | Standardizing a standardized key changes nothing. |
| Feeder.StandardizeFixedPoints | feeder/env.go:33-36 | A key is its own standard form exactly when it holds no `_` and no upper-case letter. |
| Feeder.Getenv | feeder/env.go:107 | `os.Getenv` gives a set variable's value, whatever it is, and `""` for an unset variable. So a non-empty answer is always the variable's value in the environment. |
| Feeder.Get | feeder/env.go:105-112 | The environment's value is used when the variable is set and non-empty. Otherwise, also when it is set to `""`, the fallback is used. The result is empty only if the fallback is. |
| Feeder.Feed | feeder/env.go:18-31 | A load error is returned unchanged with no map. On success, the key set is the set of standard forms of the loaded keys, and each entry holds `get(k, v)` for some loaded `(k, v)` whose key has that standard form. |
| Feeder.ResolvedUnambiguous | feeder/env.go:26-28 | When no other loaded key has the same standard form, `m[standardize(k)] == get(k, values[k])`. |
| Feeder.ResolvedDeterministic | feeder/env.go:26-28 | Without collisions, Feed's map does not depend on the iteration order. |
| Feeder.StandardFormsCount | feeder/env.go:27 | Keys whose standard forms do not collide have as many standard forms as there are keys. |
| Feeder.ResolvedSize | feeder/env.go:26-28 | Without collisions, Feed's map has exactly one entry per loaded key. |
| FeederScenarios.StandardizeAppName | feeder/env.go:33-36 | `APP_NAME` standardizes to `app.name`. |
| FeederScenarios.StandardizeAppPort | feeder/env.go:33-36 | `APP_PORT` standardizes to `app.port`. |
| FeederScenarios.StandardizeShortKeys | feeder/env.go:33-36 | `URL` standardizes to `url`, and `A` to `a`. |
| FeederScenarios.StandardizeCollision | feeder/env.go:35 | `a_b` and `a.b` both standardize to `a.b`. |
| FeederScenarios.ParseUrl | feeder/env.go:94-102 | `URL=http://x?a=1` parses to key `URL` and value `http://x?a=1`. |
| FeederScenarios.ParseCommentAndBlank | feeder/env.go:84-92 | A comment, an empty line and a white-space-only line all parse to the empty entry. |
| FeederScenarios.ParseNoValue | feeder/env.go:94-97 | `NOVALUE` fails with `Invalid line: NOVALUE`. |
| FeederScenarios.ParseEmptyKey | feeder/env.go:94-102 | `=value` parses, but to the empty key. |
| FeederScenarios.ParseAppName | feeder/env.go:83-103 | `APP_NAME=demo` parses to key `APP_NAME` and value `demo`. |
| FeederScenarios.ParseAppPort | feeder/env.go:83-103 | `APP_PORT=8080` parses to key `APP_PORT` and value `8080`. |
| FeederScenarios.ParseDigits | feeder/env.go:83-103 | `A=1` and `A=2` parse to key `A` with values `1` and `2`. |
| FeederScenarios.ParseAllCommented | feeder/env.go:64-65 | Parsing a comment, a blank line and `APP_PORT=8080` gives two empty entries and one real entry. |
| FeederScenarios.AccumulateCommented | feeder/env.go:70-72 | The two empty entries are dropped and only `APP_PORT` is stored. |
| FeederScenarios.ReadSkipsCommentsAndBlanks | feeder/env.go:60-80 | Reading `# comment`, an empty line and `APP_PORT=8080` gives exactly `{APP_PORT: 8080}`. |
| FeederScenarios.ParseAllTwo | feeder/env.go:64-65 | Parsing two lines gives their two parse results in order. |
| FeederScenarios.ParseAllDuplicate | feeder/env.go:64-65 | `A=1` and `A=2` parse to two entries for `A`. |
| FeederScenarios.AccumulateDuplicate | feeder/env.go:70-72 | The second entry for `A` overwrites the first. |
| FeederScenarios.ReadDuplicateLastWins | feeder/env.go:60-80 | Reading `A=1` then `A=2` gives `{A: 2}`. |
| FeederScenarios.ParseAllMalformed | feeder/env.go:64-65 | `APP_NAME=demo` then `NOVALUE` parse to an entry and an error. |
| FeederScenarios.AccumulateMalformed | feeder/env.go:65-68 | The error of the malformed second line discards the entry already stored. |
| FeederScenarios.ReadMalformedFails | feeder/env.go:60-80 | Reading `APP_NAME=demo` then `NOVALUE` fails with `Invalid line: NOVALUE` and gives no map. |
| FeederScenarios.ReadAppName | feeder/env.go:60-80 | Reading `APP_NAME=demo` gives `{APP_NAME: demo}`. |
| FeederScenarios.ReadUrl | feeder/env.go:60-80 | Reading `URL=http://x?a=1` gives `{URL: http://x?a=1}`. |
| FeederScenarios.ResolvedSingle | feeder/env.go:26-28 | A file with a single key feeds exactly `{standardize(k): get(k, v)}`. |
| FeederScenarios.ResolvedOneForm | feeder/env.go:26-28 | When all loaded keys have one standard form `sk`, Feed's map has the single key `sk`, and it holds the resolved value of one of the loaded keys. |
| FeederScenarios.ResolvedPair | feeder/env.go:26-28 | Two loaded keys with the same standard form give one entry, which holds the resolved value of one of the two keys. |
| FeederScenarios.ResolvedCollision | feeder/env.go:26-28 | Loading `a_b=1` and `a.b=2` gives either `{a.b: 1}` or `{a.b: 2}`. |

The methods `FeederScenarios.FeedFileValue`, `FeedEnvironmentOverride`,
`FeedEmptyVariable`, `FeedSkipsCommentsAndBlanks`, `FeedDuplicateLastWins`,
`FeedUrl`, `FeedMalformed` and `FeedLoadErrors` call `Feed` on concrete
inputs. Each asserts the expected result:

- `{app.name: demo}` for `APP_NAME=demo`;
- `{app.name: override}` when `APP_NAME` is set to `override`;
- `{app.name: demo}` when `APP_NAME` is set to `""`;
- `{app.port: 8080}` for a comment, a blank line and `APP_PORT=8080`;
- `{a: 2}` for `A=1` then `A=2`;
- `{url: http://x?a=1}` for `URL=http://x?a=1`;
- the `Invalid line: NOVALUE` error;
- open and scanner errors passed through unchanged.

## Left out

- `filepath.Abs`, `filepath.Clean`, `os.Open` and `defer file.Close()` in `load`
  (feeder/env.go:40-49) are file-system I/O. A `FileSystem` parameter stands in
  for them: it maps the path either to the scanned lines or to the error of
  resolving or opening it. Closing the file has no observable effect in the
  model.
- `bufio.Scanner` (feeder/env.go:62, 64, 75-77) is not modelled. Its splitting
  of the input into lines is not modelled: the lines arrive as a sequence.
  Its 64 KiB token limit and mid-stream read errors are reduced to an optional
  error, which is checked after the loop as in the code. The scanner's removal
  of a trailing carriage return is not modelled either; TrimSpace removes it
  anyway.
- `os.Getenv` reads process-wide state (feeder/env.go:107). The environment is
  a map parameter, and an absent variable reads as `""`, as in Go.
- Unicode is not modelled. TrimSpace removes only the six ASCII white-space
  characters. Go also trims U+0085, U+00A0 and the other Unicode spaces.
  ToLower changes only `A`-`Z`; Go also lowers non-ASCII letters.
- Go's map iteration order in `Feed` (feeder/env.go:26) is unspecified. The
  model picks keys nondeterministically. When two raw keys share a standard
  form, it proves only that the entry holds the value resolved for one of
  them.
- The `interface{}` values of Feed's map (feeder/env.go:18-19) are always
  strings in the code, so the model uses `string`.
- Errors are modelled by their messages only. Go's error values, their types
  and any wrapping are not modelled.
