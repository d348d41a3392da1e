# ruleguard analysis pass — a Dafny model

This project models `analyzer/analyzer.go` of go-ruleguard. That file is the glue between the Go
`analysis` framework and the ruleguard rule engine, and it does three things:

- **`readRules` reads the configuration.** A non-empty `-rules` flag is split on `,`. Each piece
  is trimmed and loaded from a URL (`http://` or `https://` prefix) or from a local file. Loading
  stops at the first error, and the rule sets are merged in order. `multiFile` is set when the
  split gave more than one piece. Otherwise a non-empty `-e` expression is spliced into a fixed
  one-rule template and parsed. With neither flag there is a configuration error.
- **The `Report` closure turns matches into diagnostics.** Each match the engine reports becomes
  one diagnostic at the matched node. In multi-file mode the message gets a ` (<base name of the
  rule file>)` suffix. A suggestion becomes one fix labelled `suggested replacement` with one
  text edit.
- **`runAnalyzer` drives the run.** A reading error is returned wrapped as `load rules: …`.
  Otherwise the rule set runs over the package's files in order, and the first engine error is
  returned unwrapped.

The pieces of the model:

- `wrappers.dfy` holds `Option` and `Result`, which stand for Go's nil-able pointers and
  `(value, error)` pairs.
- `gostrings.dfy` holds the standard-library behaviour the file relies on: `strings.Split` with a
  one-character separator, `strings.TrimSpace` over ASCII white space, and `filepath.Base` for
  `/`-separated paths.
- `analyzer.dfy` is the pass itself. The pure parts are functions: loader selection, the loaders,
  the template, the message and fix translation, and specification functions for `readRules`,
  the file loop and the whole pass. The imperative parts are methods proved against those
  functions: the loops `LoadPieces`, `DeliverReports` and `RunFiles`, and `ReadRules` and
  `RunAnalyzer`, which call them. The host's
  diagnostic sink is the `diagnostics` field of class `Pass`, and `Pass.Report` appends to it.

The collaborators are fields of the datatype `Engine<R, F>`, with rule sets of type `R` and files
of type `F`: `openFile` (`os.Open`), `httpGet` (`http.Get`), and the engine's `parseRules`,
`mergeRuleSets` and `runRules`. `runRules` gives the reports the engine passes to the callback,
in order, followed by the error it returns.

Behaviour of the code worth noting:

- The configuration error reads `both -e and -rules flags are empty`.
- A rule-execution error from a file is returned without any wrapping.
- `MergeRuleSets` is called even for a single reference.
- `multiFile` counts split pieces, not distinct or valid sources, so `"a,"` is multi-file.
- The `-e` rule is parsed under the name held by `-rules`, which is the empty string in that
  branch.

## Model

| member | source | states |
|---|---|---|
| `GoStrings.Split` | analyzer/analyzer.go:94 | There is one piece more than there are separators. No piece contains the separator, and empty pieces are kept. Joining the pieces with the separator gives back the input. |
| `GoStrings.SplitJoin` | analyzer/analyzer.go:94 | Split inverts Join when no piece contains the separator. |
| `GoStrings.SplitManyPieces` | analyzer/analyzer.go:94 | Split gives more than one piece exactly when the separator occurs in the string. |
| `GoStrings.TrimSpace` | analyzer/analyzer.go:97 | The result is no longer than the input and neither starts nor ends with white space. |
| `GoStrings.TrimSpaceSurrounds` | analyzer/analyzer.go:97 | The result of TrimSpace is a factor of the input with only white space before and after it. |
| `GoStrings.TrimSpaceFixes` | analyzer/analyzer.go:97 | A string with no white space at its ends is left unchanged. |
| `GoStrings.TrimSpaceIdempotent` | analyzer/analyzer.go:97 | Trimming twice gives the same result as trimming once. |
| `GoStrings.Base` | analyzer/analyzer.go:56 | The empty path has base `.`. Otherwise the base name is never empty and contains no `/`, except when it is `/` itself. |
| `GoStrings.BaseOfSlashes` | analyzer/analyzer.go:56 | A non-empty path made only of slashes has base `/`. |
| `GoStrings.BaseOfElement` | analyzer/analyzer.go:56 | A path of the form `dir + name + trailing slashes`, where `dir` is empty or ends in `/`, has base `name`. |
| `GoStrings.BaseIdempotent` | analyzer/analyzer.go:56 | Taking the base of a base name changes nothing. |
| `Analyzer.SelectLoader` | analyzer/analyzer.go:98-101 | A reference goes to the remote loader exactly when its first seven characters are `http://` or its first eight are `https://`; every other reference, the empty one included, goes to the local loader. |
| `Analyzer.LoadLocalConfig` | analyzer/analyzer.go:128-138 | Loading succeeds exactly when the file opens and parses under its own name, and the result is the parser's rule set. An error carries the prefix of the failed step: `cannot open file: ` or `cannot parse rules: `. |
| `Analyzer.LoadRemoteConfig` | analyzer/analyzer.go:140-152 | Loading succeeds exactly when the URL is fetched and its body parses under the URL, and the result is the parser's rule set. An error carries the prefix of the failed step: `cannot open URL: ` or `cannot parse rules: `. |
| `Analyzer.LoadRef` | analyzer/analyzer.go:97-102 | A piece is trimmed and loaded by the loader its scheme selects. A failing local reference fails with `cannot open file: ` or `cannot parse rules: `, and a failing remote one with `cannot open URL: ` or `cannot parse rules: `. |
| `Analyzer.LoaderSelection` | analyzer/analyzer.go:97-102 | A piece whose trimmed form starts with `http://` or `https://` (case-sensitive) is loaded remotely and never touches the file system. Every other piece, the empty one included, is loaded locally and never touches the network. |
| `Analyzer.LoadAll` | analyzer/analyzer.go:96-107 | If every piece loads, the result holds their rule sets in piece order. Otherwise the result is the index and error of the first piece that fails, and every earlier piece loaded. |
| `Analyzer.FirstFailure` | analyzer/analyzer.go:102-105 | If piece k is the first that fails to load, loading fails at k with that piece's error. |
| `Analyzer.LoadAllStopsAtFirstFailure` | analyzer/analyzer.go:96-107 | Pieces after the first failing one are never looked at: replacing them does not change the outcome. |
| `Analyzer.LoadPieces` | analyzer/analyzer.go:95-107 | The loading loop, which appends each rule set and returns at the first error, computes exactly LoadAll. |
| `Analyzer.RuleText` | analyzer/analyzer.go:112-118 | The synthesised rule file is the fixed head, then the `-e` expression verbatim, then the `.Report("$$")` tail, and its length is the sum of the three. |
| `Analyzer.InlineRoundTrip` | analyzer/analyzer.go:112-118 | The `-e` expression can be read back, unchanged, from the synthesised rule text between the fixed head and the `.Report("$$")` tail. Only a synthesised text gives an expression back. |
| `Analyzer.RuleTextInjective` | analyzer/analyzer.go:112-118 | Different `-e` expressions give different rule texts. |
| `Analyzer.ReadRulesResult` | analyzer/analyzer.go:89-126 | A result without error always carries a rule set. In the `-rules` branch, an error comes exactly when no result does. With `-e` alone the result is non-nil even on a parse error and is never multi-file. With neither flag the outcome is only the configuration error. |
| `Analyzer.ReadRules` | analyzer/analyzer.go:89-126 | readRules, with the loop done by LoadPieces, computes exactly ReadRulesResult. |
| `Analyzer.RulesFlagWins` | analyzer/analyzer.go:92-93 | When `-rules` is non-empty, the value of `-e` does not affect the outcome. |
| `Analyzer.EmptyFlagsLoadNothing` | analyzer/analyzer.go:123-124 | With both flags empty, the outcome is the configuration error whatever the collaborators are, so nothing is loaded. |
| `Analyzer.MultiFileIffComma` | analyzer/analyzer.go:94-109 | After a successful `-rules` read, `multiFile` holds exactly when the flag contains a comma. |
| `Analyzer.RulesMergedInOrder` | analyzer/analyzer.go:96-109 | When every piece loads, the rule set is the merge of the pieces' rule sets in written order, and `multiFile` is "more than one piece". |
| `Analyzer.RulesLoadFailFast` | analyzer/analyzer.go:102-105 | The first piece that fails to load ends readRules with no result and the error `cannot read rules: ` followed by that piece's error. |
| `Analyzer.InlineRuleParsed` | analyzer/analyzer.go:111-121 | With `-e` alone, the only collaborator used is the parser, called with the empty name on the synthesised text. Its error is returned as is, beside a non-nil result whose `multiFile` is false. |
| `Analyzer.Provenance` | analyzer/analyzer.go:56 | The multi-file suffix is ` (`, then the base name of the rule file, then `)`. |
| `Analyzer.FixesFor` | analyzer/analyzer.go:62-75 | Without a suggestion there is no fix. With one there is exactly one fix, labelled `suggested replacement`, whose single edit carries From, To and Replacement as Pos, End and NewText. |
| `Analyzer.ToDiagnostic` | analyzer/analyzer.go:54-75 | The diagnostic sits at the matched node, and its message starts with the report's message. The message is unchanged exactly when the run is not multi-file; otherwise the rest is ` (` + base name of the rule file + `)`. Without a suggestion there is no fix; with one there is exactly one fix, labelled `suggested replacement`, holding one edit. |
| `Analyzer.SuggestionRoundTrip` | analyzer/analyzer.go:62-75 | The suggestion can be read back unchanged from the diagnostic's fix, because From, To and Replacement become Pos, End and NewText. |
| `Analyzer.ProvenanceDistinguishes` | analyzer/analyzer.go:55-57 | In multi-file mode, two reports with the same message give equal messages exactly when their rule files have the same base name. |
| `Analyzer.Emissions` | analyzer/analyzer.go:54-77 | A sequence of reports gives one diagnostic per report, in the same order. |
| `Analyzer.EmissionsAppend` | analyzer/analyzer.go:54-81 | Emitting two batches of reports one after the other gives the same diagnostics as emitting them together, so nothing is dropped, duplicated or reordered between batches. |
| `Analyzer.Drive` | analyzer/analyzer.go:80-86 | The file loop as a function: each file's diagnostics in file order, stopping at the first failing file. An error it returns is the error of one of the files, unwrapped. |
| `Analyzer.DriveSucceedsIffAllRun` | analyzer/analyzer.go:80-86 | The file loop ends without error exactly when no file's run fails. |
| `Analyzer.DriveStopsAtFirstError` | analyzer/analyzer.go:80-84 | At the first failing file, that file's own error is returned unwrapped. The diagnostics are those of the earlier files followed by that file's, and later files change nothing. |
| `Analyzer.DriveStep` | analyzer/analyzer.go:80-84 | One more file appends that file's diagnostics and makes its error the loop's error. |
| `Analyzer.DriveFailureSticks` | analyzer/analyzer.go:80-84 | Once a prefix of the files has failed, the files after it change nothing. |
| `Analyzer.DriveExtends` | analyzer/analyzer.go:80-84 | The diagnostics of a run over a prefix of the files are a prefix of the diagnostics of the whole run: nothing emitted is retracted. |
| `Analyzer.Analysis` | analyzer/analyzer.go:42-45 | A reading error gives no diagnostics and the error `load rules: ` followed by the reading error. |
| `Analyzer.EmptyConfigRunsNothing` | analyzer/analyzer.go:42-45 | With both flags empty, the pass emits nothing and fails with `load rules: both -e and -rules flags are empty`. |
| `Analyzer.LoadFailureRunsNoFile` | analyzer/analyzer.go:42-45 | If a piece fails to load, no file is run and no diagnostic is emitted. The error is that piece's loader error, wrapped in `cannot read rules: ` and then `load rules: `. |
| `Analyzer.TwoRuleFiles` | analyzer/analyzer.go:42-86 | With `-rules` set to `a,b` and both rules firing with the same message on one node, the pass emits two diagnostics at that node. They come in the order the engine reports them (here `a`'s rule first), with suffixes ` (Base(a))` and ` (Base(b))`, and there is no error. |
| `Analyzer.Pass.Report` | analyzer/analyzer.go:76 | The host's sink gains exactly the one diagnostic at its end. |
| `Analyzer.ReportMatch` | analyzer/analyzer.go:54-77 | The Report closure appends exactly one diagnostic, ToDiagnostic of the report, to the sink. |
| `Analyzer.DeliverReports` | analyzer/analyzer.go:81 | The engine's reports for one file are appended to the sink one by one, in order. |
| `Analyzer.RunFiles` | analyzer/analyzer.go:80-86 | The file loop appends exactly Drive's diagnostics to the sink and returns exactly Drive's error. |
| `Analyzer.RunAnalyzer` | analyzer/analyzer.go:38-87 | runAnalyzer appends exactly Analysis's diagnostics to the sink and returns exactly Analysis's error. |

## Left out

- `os.Open` and `http.Get` alone are the `openFile` and `httpGet` fields of `Engine`. They give
  the opened stream or an error text. The stream is read inside `ruleguard.ParseRules`
  (analyzer/analyzer.go:133, 147), so a read failure after a successful open, such as a
  directory given as a rule file or a body cut off mid-transfer, is a `parseRules` failure and
  reads `cannot parse rules: …`. Closing the stream is not modelled: the local loader never
  closes its file, and only the remote body is deferred-closed.
- The collaborators are pure functions of their arguments. A reference listed twice (`"a,a"`)
  loads the same both times, and a file or URL whose content changes between two loads is
  outside the model.
- `ruleguard.ParseRules`, `MergeRuleSets` and `RunRules` are uninterpreted functions. ParseRules
  is assumed to give either a rule set or an error, never both. So a failed `-e` parse leaves
  the result's rule set nil.
- The order of reports across the rule sets merged by `MergeRuleSets` belongs to the engine. In
  `Analyzer.TwoRuleFiles` it is a hypothesis about `runRules` (first file's rule first), not
  something the pass establishes; the pass only keeps whatever order the engine reports in.
- `RunRules` is modelled as its reports followed by its error. If the engine interleaved callback
  calls differently, the model would not capture it, but the sink sees the same order either way.
- "No loader is called" is stated as independence: the outcome is the same whatever the unused
  collaborator or later piece is. It is not stated as a trace of calls.
- Errors are their message text, as produced by `fmt.Errorf("...%v", err)`. Error identity for
  `errors.Is`/`errors.As` is not modelled, and the code does not wrap with `%w` anyway.
- `token.FileSet`, `go/types` information, the size model and `ast.Node` are left out. A node is
  its `Pos`, an integer, and the `Context` fields `Pkg`, `Types`, `Sizes` and `Fset` are only
  passed through to the engine.
- Diagnostic fields the pass does not set (`End`, `Category`, `Related`) are not modelled.
- The `analysis.Analyzer` registration, the flag `init` and the package-level flag variables
  (analyzer/analyzer.go:17-31) are left out. The two flags are the fields of `Config`.
- The `sync.Once` caching in the TODO (analyzer/analyzer.go:39-40) is not implemented in the
  source, so it is not modelled.
- GoStrings.TrimSpace: only ASCII white space is removed. Unicode spaces such as U+0085, U+00A0
  and U+2000–U+200A, which `strings.TrimSpace` also removes, are not.
- GoStrings.Base: only `/` separators are handled. Windows volume names and `\` are not.
- GoStrings.Split: modelled for a one-character separator only, which is the only use here.
- Go strings are byte sequences; here they are sequences of Unicode characters. Flag values, rule
  file names, URLs and messages that are not valid UTF-8 are outside the model.
- `analyzer/testdata/src/filtertest/f1.go` is input for the engine's filters, which are not part
  of this model.
