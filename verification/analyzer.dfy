/**
 * The ruleguard analysis pass (analyzer/analyzer.go): it reads the -rules / -e
 * configuration into one rule set, turns every match the rule engine reports
 * into a host diagnostic, and runs the rule set over the files of a package.
 *
 * The rule engine, the file system, HTTP and the host framework are outside
 * the model: they are the function-valued fields of an `Engine`.
 */
module Analyzer {
  import opened Wrappers
  import opened GoStrings

  /** token.Pos: an offset into the package's file set. */
  type Pos = int

  type byte = b: int | 0 <= b < 256

  /** The two flags of the pass: -rules (comma-separated rule files or URLs) and -e (one inline rule). */
  datatype Config = Config(rules: string, e: string)

  /** ruleguard.Suggestion: replace the bytes between `from` and `to` by `replacement`. */
  datatype Suggestion = Suggestion(from: Pos, to: Pos, replacement: seq<byte>)

  /**
   * One call of the engine's Report callback: the file of the rule that fired
   * (GoRuleInfo.Filename), the matched node's position, the message and an
   * optional suggestion.
   */
  datatype MatchReport = MatchReport(filename: string, node: Pos, msg: string, suggestion: Option<Suggestion>)

  /** analysis.TextEdit, analysis.SuggestedFix and analysis.Diagnostic (the fields the pass sets). */
  datatype TextEdit = TextEdit(pos: Pos, end: Pos, newText: seq<byte>)
  datatype SuggestedFix = SuggestedFix(message: string, textEdits: seq<TextEdit>)
  datatype Diagnostic = Diagnostic(pos: Pos, message: string, suggestedFixes: seq<SuggestedFix>)

  /** One ruleguard.RunRules call on a file: the reports it makes through the callback, in order, then its error. */
  datatype Execution = Execution(reports: seq<MatchReport>, err: Option<string>)

  /**
   * The collaborators: opening a local file (os.Open) and fetching a URL
   * (http.Get), each giving the opened stream or an error, and the engine's
   * ParseRules, MergeRuleSets and RunRules over rule sets of type R and files
   * of type F. ParseRules reads the stream as well as parsing it, so a read
   * error is a ParseRules failure. Errors are their message text.
   */
  datatype Engine<!R, -F> = Engine(
    openFile: string -> Result<string, string>,
    httpGet: string -> Result<string, string>,
    parseRules: (string, string) -> Result<R, string>,
    mergeRuleSets: seq<R> -> R,
    runRules: (F, R) -> Execution)

  /** parseRulesResult: a possibly nil rule set and whether several references were given. */
  datatype ParseRulesResult<R> = ParseRulesResult(rset: Option<R>, multiFile: bool)

  /** What readRules returns: a possibly nil *parseRulesResult and a possibly nil error. */
  datatype ReadOutcome<R> = ReadOutcome(result: Option<ParseRulesResult<R>>, err: Option<string>)

  const EmptyFlagsError := "both -e and -rules flags are empty"
  const FixMessage := "suggested replacement"

  // ---------------------------------------------------------------------------
  // Rule-source resolution

  datatype Loader = LocalConfig | RemoteConfig

  /** The loader readRules picks for a (trimmed) reference: case-sensitive scheme check. */
  function SelectLoader(filename: string): (l: Loader)
    ensures l == RemoteConfig <==>
      (|filename| >= 7 && filename[..7] == "http://") || (|filename| >= 8 && filename[..8] == "https://")
  {
    if "http://" <= filename || "https://" <= filename then RemoteConfig else LocalConfig
  }

  /**
   * loadLocalConfig: open the file, then parse it under its own name. It
   * succeeds exactly when both steps do, and an error says which step failed.
   */
  function LoadLocalConfig<R, F>(filename: string, eng: Engine<R, F>): (r: Result<R, string>)
    ensures r.Success? <==> eng.openFile(filename).Success? && eng.parseRules(filename, eng.openFile(filename).value).Success?
    ensures r.Success? ==> r.value == eng.parseRules(filename, eng.openFile(filename).value).value
    ensures r.Failure? && eng.openFile(filename).Failure? ==> r.error == "cannot open file: " + eng.openFile(filename).error
    ensures r.Failure? && eng.openFile(filename).Success? ==>
      r.error == "cannot parse rules: " + eng.parseRules(filename, eng.openFile(filename).value).error
  {
    match eng.openFile(filename)
    case Failure(e) => Failure("cannot open file: " + e)
    case Success(stream) =>
      match eng.parseRules(filename, stream)
      case Failure(e) => Failure("cannot parse rules: " + e)
      case Success(rset) => Success(rset)
  }

  /**
   * loadRemoteConfig: fetch the URL, then parse the body under the URL. It
   * succeeds exactly when both steps do, and an error says which step failed.
   */
  function LoadRemoteConfig<R, F>(url: string, eng: Engine<R, F>): (r: Result<R, string>)
    ensures r.Success? <==> eng.httpGet(url).Success? && eng.parseRules(url, eng.httpGet(url).value).Success?
    ensures r.Success? ==> r.value == eng.parseRules(url, eng.httpGet(url).value).value
    ensures r.Failure? && eng.httpGet(url).Failure? ==> r.error == "cannot open URL: " + eng.httpGet(url).error
    ensures r.Failure? && eng.httpGet(url).Success? ==>
      r.error == "cannot parse rules: " + eng.parseRules(url, eng.httpGet(url).value).error
  {
    match eng.httpGet(url)
    case Failure(e) => Failure("cannot open URL: " + e)
    case Success(body) =>
      match eng.parseRules(url, body)
      case Failure(e) => Failure("cannot parse rules: " + e)
      case Success(rset) => Success(rset)
  }

  /**
   * One piece of the -rules list: trimmed, then handed to the loader its
   * scheme selects. A local reference fails only on opening the file or on
   * parsing, a remote one only on fetching the URL or on parsing.
   */
  function LoadRef<R, F>(piece: string, eng: Engine<R, F>): (r: Result<R, string>)
    ensures r.Failure? && SelectLoader(TrimSpace(piece)) == LocalConfig ==>
      "cannot open file: " <= r.error || "cannot parse rules: " <= r.error
    ensures r.Failure? && SelectLoader(TrimSpace(piece)) == RemoteConfig ==>
      "cannot open URL: " <= r.error || "cannot parse rules: " <= r.error
  {
    var filename := TrimSpace(piece);
    match SelectLoader(filename)
    case LocalConfig => LoadLocalConfig(filename, eng)
    case RemoteConfig => LoadRemoteConfig(filename, eng)
  }

  /**
   * A reference with an http:// or https:// prefix after trimming never
   * touches the file system, and every other reference (the empty one
   * included) never touches the network: swapping the unused collaborator
   * does not change what is loaded.
   */
  lemma LoaderSelection<R, F>(piece: string, eng: Engine<R, F>,
                              otherFile: string -> Result<string, string>,
                              otherGet: string -> Result<string, string>)
    ensures var name := TrimSpace(piece);
      ("http://" <= name || "https://" <= name) ==>
        LoadRef(piece, eng) == LoadRef(piece, eng.(openFile := otherFile)) == LoadRemoteConfig(name, eng)
    ensures var name := TrimSpace(piece);
      !("http://" <= name || "https://" <= name) ==>
        LoadRef(piece, eng) == LoadRef(piece, eng.(httpGet := otherGet)) == LoadLocalConfig(name, eng)
  {
  }

  /** Outcome of loading the references in order: all rule sets, or the first failure. */
  datatype LoadOutcome<R> = Loaded(sets: seq<R>) | LoadFailed(index: nat, err: string)

  /**
   * The loading loop of readRules as a function of the per-reference loader:
   * the rule sets of all references in their order, or the index and error of
   * the FIRST reference that fails to load, every reference before it having
   * loaded.
   */
  function LoadAll<R>(pieces: seq<string>, load: string -> Result<R, string>): (o: LoadOutcome<R>)
    ensures o.Loaded? <==> forall i :: 0 <= i < |pieces| ==> load(pieces[i]).Success?
    ensures o.Loaded? ==> |o.sets| == |pieces|
    ensures o.Loaded? ==> forall i :: 0 <= i < |pieces| ==> load(pieces[i]) == Success(o.sets[i])
    ensures o.LoadFailed? ==> o.index < |pieces| && load(pieces[o.index]) == Failure(o.err)
    ensures o.LoadFailed? ==> forall i :: 0 <= i < o.index ==> load(pieces[i]).Success?
  {
    if pieces == [] then Loaded([])
    else
      match load(pieces[0])
      case Failure(e) => LoadFailed(0, e)
      case Success(rset) =>
        match LoadAll(pieces[1..], load)
        case Loaded(sets) => Loaded([rset] + sets)
        case LoadFailed(i, e) => LoadFailed(i + 1, e)
  }

  /** LoadAll fails at k when reference k is the first that does not load. */
  lemma FirstFailure<R>(pieces: seq<string>, k: nat, load: string -> Result<R, string>)
    requires k < |pieces| && load(pieces[k]).Failure?
    requires forall i :: 0 <= i < k ==> load(pieces[i]).Success?
    ensures LoadAll(pieces, load) == LoadFailed(k, load(pieces[k]).error)
  {
    var o := LoadAll(pieces, load);
    assert o.LoadFailed?;
    assert !(o.index < k) && !(o.index > k);
  }

  /**
   * The first failing reference decides the outcome: whatever follows it is
   * never loaded and cannot change the result.
   */
  lemma LoadAllStopsAtFirstFailure<R>(pieces: seq<string>, k: nat, later: seq<string>, load: string -> Result<R, string>)
    requires k < |pieces| && load(pieces[k]).Failure?
    requires forall i :: 0 <= i < k ==> load(pieces[i]).Success?
    ensures LoadAll(pieces, load) == LoadFailed(k, load(pieces[k]).error)
    ensures LoadAll(pieces[..k + 1] + later, load) == LoadAll(pieces, load)
  {
    var ps := pieces[..k + 1] + later;
    assert forall i :: 0 <= i <= k ==> ps[i] == pieces[i];
    FirstFailure(pieces, k, load);
    FirstFailure(ps, k, load);
  }

  /** The loader readRules applies to each piece of -rules. */
  function PieceLoader<R, F>(eng: Engine<R, F>): string -> Result<R, string>
  {
    piece => LoadRef(piece, eng)
  }

  // ---------------------------------------------------------------------------
  // The inline rule of -e

  const RuleTextHead := "\n\t\t\tpackage gorules\n\t\t\timport \"github.com/quasilyte/go-ruleguard/dsl/fluent\"\n\t\t\tfunc _(m fluent.Matcher) {\n\t\t\t\t"
  const RuleTextTail := ".Report(\"$$\")\n\t\t\t}"

  /** The rule file synthesised for -e: the expression spliced verbatim into a fixed one-rule template. */
  function RuleText(expr: string): (text: string)
    ensures |text| == |RuleTextHead| + |expr| + |RuleTextTail|
    ensures RuleTextHead <= text
    ensures text[|RuleTextHead|..|RuleTextHead| + |expr|] == expr
    ensures text[|text| - |RuleTextTail|..] == RuleTextTail
  {
    RuleTextHead + expr + RuleTextTail
  }

  /** Recovers the spliced expression from a synthesised rule file; None for any other text. */
  function InlineExpression(text: string): (r: Option<string>)
    ensures r.Some? ==> |r.value| + |RuleTextHead| + |RuleTextTail| == |text|
  {
    if |text| >= |RuleTextHead| + |RuleTextTail|
       && RuleTextHead <= text && text[|text| - |RuleTextTail|..] == RuleTextTail
    then Some(text[|RuleTextHead|..|text| - |RuleTextTail|])
    else None
  }

  /**
   * The template keeps the expression intact: it can be read back from the
   * synthesised text, and only synthesised texts give one back.
   */
  lemma InlineRoundTrip(expr: string, text: string)
    ensures InlineExpression(RuleText(expr)) == Some(expr)
    ensures InlineExpression(text) == Some(expr) ==> RuleText(expr) == text
  {
    var t := RuleText(expr);
    assert t[..|RuleTextHead|] == RuleTextHead;
    assert t[|t| - |RuleTextTail|..] == RuleTextTail;
    assert t[|RuleTextHead|..|t| - |RuleTextTail|] == expr;
    if InlineExpression(text) == Some(expr) {
      assert text == text[..|RuleTextHead|] + text[|RuleTextHead|..|text| - |RuleTextTail|] + text[|text| - |RuleTextTail|..];
    }
  }

  /** Distinct -e expressions give distinct rule files. */
  lemma RuleTextInjective(e1: string, e2: string)
    requires RuleText(e1) == RuleText(e2)
    ensures e1 == e2
  {
    InlineRoundTrip(e1, RuleText(e1));
    InlineRoundTrip(e2, RuleText(e2));
  }

  // ---------------------------------------------------------------------------
  // readRules

  /**
   * readRules as a function of the flags. A non-empty -rules wins over -e; with
   * -e alone the result is non-nil even when parsing fails and is never
   * multi-file; with neither flag there is only the configuration error. A
   * result without error always carries a rule set.
   */
  function ReadRulesResult<R, F>(cfg: Config, eng: Engine<R, F>): (r: ReadOutcome<R>)
    ensures r.err.None? ==> r.result.Some? && r.result.value.rset.Some?
    ensures cfg.rules != "" ==> (r.err.None? <==> r.result.Some?)
    ensures cfg.rules == "" && cfg.e != "" ==> r.result.Some? && !r.result.value.multiFile
    ensures cfg.rules == "" && cfg.e == "" ==> r == ReadOutcome(None, Some(EmptyFlagsError))
  {
    if cfg.rules != "" then
      var filenames := Split(cfg.rules, ',');
      match LoadAll(filenames, PieceLoader(eng))
      case LoadFailed(_, e) => ReadOutcome(None, Some("cannot read rules: " + e))
      case Loaded(sets) => ReadOutcome(Some(ParseRulesResult(Some(eng.mergeRuleSets(sets)), |filenames| > 1)), None)
    else if cfg.e != "" then
      match eng.parseRules(cfg.rules, RuleText(cfg.e))
      case Failure(e) => ReadOutcome(Some(ParseRulesResult(None, false)), Some(e))
      case Success(rset) => ReadOutcome(Some(ParseRulesResult(Some(rset), false)), None)
    else
      ReadOutcome(None, Some(EmptyFlagsError))
  }

  /**
   * The loop of readRules over the -rules pieces: each is loaded in turn and
   * its rule set appended, and the first loading error ends the loop.
   */
  method LoadPieces<R>(pieces: seq<string>, load: string -> Result<R, string>) returns (o: LoadOutcome<R>)
    ensures o == LoadAll(pieces, load)
  {
    var ruleSets: seq<R> := [];
    var i := 0;
    while i < |pieces|
      invariant 0 <= i <= |pieces|
      invariant |ruleSets| == i
      invariant forall k :: 0 <= k < i ==> load(pieces[k]) == Success(ruleSets[k])
    {
      var loaded := load(pieces[i]);
      if loaded.Failure? {
        FirstFailure(pieces, i, load);
        return LoadFailed(i, loaded.error);
      }
      ruleSets := ruleSets + [loaded.value];
      i := i + 1;
    }
    assert LoadAll(pieces, load).sets == ruleSets;
    return Loaded(ruleSets);
  }

  /** readRules: the -rules branch, the -e branch, or the configuration error. */
  method ReadRules<R, F>(cfg: Config, eng: Engine<R, F>) returns (r: ReadOutcome<R>)
    ensures r == ReadRulesResult(cfg, eng)
  {
    if cfg.rules != "" {
      var filenames := Split(cfg.rules, ',');
      var loaded := LoadPieces(filenames, PieceLoader(eng));
      if loaded.LoadFailed? {
        return ReadOutcome(None, Some("cannot read rules: " + loaded.err));
      }
      var rset := eng.mergeRuleSets(loaded.sets);
      return ReadOutcome(Some(ParseRulesResult(Some(rset), |filenames| > 1)), None);
    } else if cfg.e != "" {
      var parsed := eng.parseRules(cfg.rules, RuleText(cfg.e));
      var rset := if parsed.Success? then Some(parsed.value) else None;
      var err := if parsed.Failure? then Some(parsed.error) else None;
      return ReadOutcome(Some(ParseRulesResult(rset, false)), err);
    } else {
      return ReadOutcome(None, Some(EmptyFlagsError));
    }
  }

  /** With a non-empty -rules, the -e flag is ignored. */
  lemma RulesFlagWins<R, F>(cfg: Config, e: string, eng: Engine<R, F>)
    requires cfg.rules != ""
    ensures ReadRulesResult(cfg, eng) == ReadRulesResult(cfg.(e := e), eng)
  {
  }

  /**
   * Without -rules and -e nothing is consulted: the outcome is the same for
   * every set of collaborators.
   */
  lemma EmptyFlagsLoadNothing<R, F>(cfg: Config, eng1: Engine<R, F>, eng2: Engine<R, F>)
    requires cfg.rules == "" && cfg.e == ""
    ensures ReadRulesResult(cfg, eng1) == ReadRulesResult(cfg, eng2) == ReadOutcome(None, Some(EmptyFlagsError))
  {
  }

  /**
   * multiFile counts pieces of the split, not files: it is set exactly when
   * -rules holds a comma ("a," included), whatever the pieces are.
   */
  lemma MultiFileIffComma<R, F>(cfg: Config, eng: Engine<R, F>)
    requires cfg.rules != "" && ReadRulesResult(cfg, eng).err.None?
    ensures ReadRulesResult(cfg, eng).result.value.multiFile <==> ',' in cfg.rules
  {
    SplitManyPieces(cfg.rules, ',');
  }

  /**
   * When every reference loads, the merged set is built from their rule sets
   * in the order the references were written.
   */
  lemma RulesMergedInOrder<R, F>(cfg: Config, eng: Engine<R, F>)
    requires cfg.rules != ""
    requires forall i :: 0 <= i < |Split(cfg.rules, ',')| ==> LoadRef(Split(cfg.rules, ',')[i], eng).Success?
    ensures var pieces := Split(cfg.rules, ',');
      ReadRulesResult(cfg, eng) ==
        ReadOutcome(Some(ParseRulesResult(
          Some(eng.mergeRuleSets(seq(|pieces|, i requires 0 <= i < |pieces| => LoadRef(pieces[i], eng).value))),
          |pieces| > 1)), None)
  {
    var pieces := Split(cfg.rules, ',');
    var o := LoadAll(pieces, PieceLoader(eng));
    assert o.sets == seq(|pieces|, i requires 0 <= i < |pieces| => LoadRef(pieces[i], eng).value);
  }

  /**
   * The first reference that fails to load ends readRules with its error,
   * wrapped once, and no rule set.
   */
  lemma RulesLoadFailFast<R, F>(cfg: Config, k: nat, eng: Engine<R, F>)
    requires cfg.rules != ""
    requires k < |Split(cfg.rules, ',')| && LoadRef(Split(cfg.rules, ',')[k], eng).Failure?
    requires forall i :: 0 <= i < k ==> LoadRef(Split(cfg.rules, ',')[i], eng).Success?
    ensures ReadRulesResult(cfg, eng) ==
      ReadOutcome(None, Some("cannot read rules: " + LoadRef(Split(cfg.rules, ',')[k], eng).error))
  {
    FirstFailure(Split(cfg.rules, ','), k, PieceLoader(eng));
  }

  /**
   * With -e alone the only collaborator used is the parser, called under the
   * (empty) -rules value as name on the synthesised rule text.
   */
  lemma InlineRuleParsed<R, F>(cfg: Config, eng: Engine<R, F>)
    requires cfg.rules == "" && cfg.e != ""
    ensures var p := eng.parseRules("", RuleText(cfg.e));
      ReadRulesResult(cfg, eng) ==
        if p.Success? then ReadOutcome(Some(ParseRulesResult(Some(p.value), false)), None)
        else ReadOutcome(Some(ParseRulesResult(None, false)), Some(p.error))
  {
  }

  // ---------------------------------------------------------------------------
  // The Report callback

  /** The provenance suffix: the base name of the rule's file in parentheses. */
  function Provenance(filename: string): (p: string)
    ensures |p| == |Base(filename)| + 3
    ensures p[..2] == " (" && p[|p| - 1] == ')'
    ensures p[2..|p| - 1] == Base(filename)
  {
    " (" + Base(filename) + ")"
  }

  /** The fixes a suggestion becomes: none, or one labelled fix holding one edit. */
  function FixesFor(s: Option<Suggestion>): (fs: seq<SuggestedFix>)
    ensures |fs| == (if s.Some? then 1 else 0)
    ensures forall f :: f in fs ==> f.message == FixMessage && |f.textEdits| == 1
    ensures s.Some? ==> fs[0].textEdits[0] == TextEdit(s.value.from, s.value.to, s.value.replacement)
  {
    match s
    case None => []
    case Some(sg) => [SuggestedFix(FixMessage, [TextEdit(sg.from, sg.to, sg.replacement)])]
  }

  /**
   * The diagnostic one report becomes: at the matched node; with the report's
   * message, suffixed by the rule file's base name only in multi-file mode;
   * with no fix without a suggestion and exactly one single-edit fix with one.
   */
  function ToDiagnostic(multiFile: bool, r: MatchReport): (d: Diagnostic)
    ensures d.pos == r.node
    ensures r.msg <= d.message
    ensures d.message == r.msg <==> !multiFile
    ensures multiFile ==> d.message[|r.msg|..] == Provenance(r.filename)
    ensures |d.suggestedFixes| == (if r.suggestion.Some? then 1 else 0)
    ensures forall f :: f in d.suggestedFixes ==> f.message == FixMessage && |f.textEdits| == 1
  {
    var msg := if multiFile then r.msg + Provenance(r.filename) else r.msg;
    Diagnostic(r.node, msg, FixesFor(r.suggestion))
  }

  /** Reads the suggestion back out of a diagnostic's fixes. */
  function SuggestionOf(d: Diagnostic): Option<Suggestion>
  {
    if |d.suggestedFixes| == 1 && |d.suggestedFixes[0].textEdits| == 1 then
      var edit := d.suggestedFixes[0].textEdits[0];
      Some(Suggestion(edit.pos, edit.end, edit.newText))
    else None
  }

  /** The fix carries the suggestion unchanged: From, To and Replacement become Pos, End and NewText. */
  lemma SuggestionRoundTrip(multiFile: bool, r: MatchReport)
    ensures SuggestionOf(ToDiagnostic(multiFile, r)) == r.suggestion
  {
  }

  /**
   * Two reports with the same message from two rule files: in multi-file mode
   * their messages agree exactly when the files' base names do, and each is
   * the message plus its own file's suffix.
   */
  lemma ProvenanceDistinguishes(r1: MatchReport, r2: MatchReport)
    requires r1.msg == r2.msg
    ensures ToDiagnostic(true, r1).message == ToDiagnostic(true, r2).message <==> Base(r1.filename) == Base(r2.filename)
  {
    SuffixCancels(r1.msg, Base(r1.filename), Base(r2.filename));
  }

  /** The same message with two different parenthesised names gives two different texts. */
  lemma SuffixCancels(msg: string, b1: string, b2: string)
    ensures msg + (" (" + b1 + ")") == msg + (" (" + b2 + ")") <==> b1 == b2
  {
    var m1, m2 := msg + (" (" + b1 + ")"), msg + (" (" + b2 + ")");
    if m1 == m2 {
      assert m1[|msg| + 2..|m1| - 1] == b1;
      assert m2[|msg| + 2..|m2| - 1] == b2;
    }
  }

  /** The diagnostics a sequence of reports becomes, one each, in order. */
  function Emissions(multiFile: bool, reports: seq<MatchReport>): (ds: seq<Diagnostic>)
    ensures |ds| == |reports|
    ensures forall i :: 0 <= i < |reports| ==> ds[i] == ToDiagnostic(multiFile, reports[i])
  {
    seq(|reports|, i requires 0 <= i < |reports| => ToDiagnostic(multiFile, reports[i]))
  }

  /**
   * Emitting two batches of reports one after the other is emitting them
   * together: nothing is dropped, duplicated or reordered at the seam.
   */
  lemma EmissionsAppend(multiFile: bool, a: seq<MatchReport>, b: seq<MatchReport>)
    ensures Emissions(multiFile, a + b) == Emissions(multiFile, a) + Emissions(multiFile, b)
  {
    var whole, parts := Emissions(multiFile, a + b), Emissions(multiFile, a) + Emissions(multiFile, b);
    forall i | 0 <= i < |a + b|
      ensures whole[i] == parts[i]
    {
      if i < |a| {
        assert (a + b)[i] == a[i];
      } else {
        assert (a + b)[i] == b[i - |a|];
      }
    }
  }

  // ---------------------------------------------------------------------------
  // The per-file driver

  /** What a run leaves behind: the diagnostics sent to the host and the returned error. */
  datatype RunOutcome = RunOutcome(emitted: seq<Diagnostic>, err: Option<string>)

  /**
   * The file loop of runAnalyzer as a function: once a file's run fails, no
   * later file is run; otherwise each file's reports follow the previous ones.
   * An error returned is one file's own error, unwrapped.
   */
  function Drive<R, F>(files: seq<F>, rset: R, multiFile: bool, eng: Engine<R, F>): (o: RunOutcome)
    ensures o.err.Some? ==> exists i :: 0 <= i < |files| && eng.runRules(files[i], rset).err == o.err
  {
    if files == [] then RunOutcome([], None)
    else
      var before := Drive(files[..|files| - 1], rset, multiFile, eng);
      if before.err.Some? then before
      else
        var x := eng.runRules(files[|files| - 1], rset);
        RunOutcome(before.emitted + Emissions(multiFile, x.reports), x.err)
  }

  /** The loop ends without error exactly when no file's run fails. */
  lemma {:induction false} DriveSucceedsIffAllRun<R, F>(files: seq<F>, rset: R, multiFile: bool, eng: Engine<R, F>)
    ensures Drive(files, rset, multiFile, eng).err.None? <==>
      forall i :: 0 <= i < |files| ==> eng.runRules(files[i], rset).err.None?
  {
    if files != [] {
      var init := files[..|files| - 1];
      DriveSucceedsIffAllRun(init, rset, multiFile, eng);
      assert forall i :: 0 <= i < |init| ==> init[i] == files[i];
    }
  }

  /**
   * The first failing file decides the outcome: its own error is returned
   * unwrapped, the reports of the files before it and its own stay emitted,
   * and the files after it change nothing.
   */
  lemma {:induction false} DriveStopsAtFirstError<R, F>(files: seq<F>, k: nat, rset: R, multiFile: bool, eng: Engine<R, F>)
    requires k < |files| && eng.runRules(files[k], rset).err.Some?
    requires forall i :: 0 <= i < k ==> eng.runRules(files[i], rset).err.None?
    ensures Drive(files, rset, multiFile, eng) == Drive(files[..k + 1], rset, multiFile, eng)
    ensures Drive(files, rset, multiFile, eng).err == eng.runRules(files[k], rset).err
    ensures Drive(files, rset, multiFile, eng).emitted ==
      Drive(files[..k], rset, multiFile, eng).emitted + Emissions(multiFile, eng.runRules(files[k], rset).reports)
  {
    var pre := files[..k];
    assert files[..k + 1][..k] == pre;
    DriveSucceedsIffAllRun(pre, rset, multiFile, eng);
    if |files| > k + 1 {
      var init := files[..|files| - 1];
      assert init[..k + 1] == files[..k + 1] && init[..k] == pre;
      DriveStopsAtFirstError(init, k, rset, multiFile, eng);
    }
  }

  /** One more file: its reports follow the earlier ones, and its error is the loop's. */
  lemma DriveStep<R, F>(files: seq<F>, i: nat, rset: R, multiFile: bool, eng: Engine<R, F>)
    requires i < |files| && Drive(files[..i], rset, multiFile, eng).err.None?
    ensures Drive(files[..i + 1], rset, multiFile, eng) ==
      RunOutcome(Drive(files[..i], rset, multiFile, eng).emitted + Emissions(multiFile, eng.runRules(files[i], rset).reports),
                 eng.runRules(files[i], rset).err)
  {
    assert files[..i + 1][..i] == files[..i];
  }

  /** Once a prefix of the files has failed, the files after it change nothing. */
  lemma {:induction false} DriveFailureSticks<R, F>(files: seq<F>, j: nat, rset: R, multiFile: bool, eng: Engine<R, F>)
    requires j <= |files| && Drive(files[..j], rset, multiFile, eng).err.Some?
    ensures Drive(files, rset, multiFile, eng) == Drive(files[..j], rset, multiFile, eng)
  {
    if j < |files| {
      var init := files[..|files| - 1];
      assert init[..j] == files[..j];
      DriveFailureSticks(init, j, rset, multiFile, eng);
    } else {
      assert files[..j] == files;
    }
  }

  /** Diagnostics are only ever added: a run over more files extends the run over fewer. */
  lemma {:induction false} DriveExtends<R, F>(files: seq<F>, j: nat, rset: R, multiFile: bool, eng: Engine<R, F>)
    requires j <= |files|
    ensures Drive(files[..j], rset, multiFile, eng).emitted <= Drive(files, rset, multiFile, eng).emitted
  {
    if j < |files| {
      var init := files[..|files| - 1];
      assert init[..j] == files[..j];
      DriveExtends(init, j, rset, multiFile, eng);
    } else {
      assert files[..j] == files;
    }
  }

  // ---------------------------------------------------------------------------
  // runAnalyzer

  /**
   * runAnalyzer as a function of the flags, the collaborators and the files:
   * a reading error, wrapped as "load rules: ...", means no file is run;
   * otherwise the rule set is driven over the files.
   */
  function Analysis<R, F>(cfg: Config, eng: Engine<R, F>, files: seq<F>): (o: RunOutcome)
    ensures ReadRulesResult(cfg, eng).err.Some? ==>
      o == RunOutcome([], Some("load rules: " + ReadRulesResult(cfg, eng).err.value))
  {
    var read := ReadRulesResult(cfg, eng);
    if read.err.Some? then RunOutcome([], Some("load rules: " + read.err.value))
    else Drive(files, read.result.value.rset.value, read.result.value.multiFile, eng)
  }

  /** With neither flag the pass fails with the configuration error and emits nothing. */
  lemma EmptyConfigRunsNothing<R, F>(eng: Engine<R, F>, files: seq<F>)
    ensures Analysis(Config("", ""), eng, files) == RunOutcome([], Some("load rules: " + EmptyFlagsError))
  {
  }

  /**
   * A reference that fails to load stops the pass before any file is run: no
   * diagnostic, and the loader's error wrapped twice.
   */
  lemma LoadFailureRunsNoFile<R, F>(cfg: Config, k: nat, eng: Engine<R, F>, files: seq<F>)
    requires cfg.rules != ""
    requires k < |Split(cfg.rules, ',')| && LoadRef(Split(cfg.rules, ',')[k], eng).Failure?
    requires forall i :: 0 <= i < k ==> LoadRef(Split(cfg.rules, ',')[i], eng).Success?
    ensures Analysis(cfg, eng, files) ==
      RunOutcome([], Some("load rules: " + ("cannot read rules: " + LoadRef(Split(cfg.rules, ',')[k], eng).error)))
  {
    RulesLoadFailFast(cfg, k, eng);
  }

  /**
   * Two rule files given as "a,b", both firing with the same message on the
   * same node of a one-file package: two diagnostics at that node, in the
   * order the engine reports them (here a's rule first), each suffixed with
   * its own file's base name.
   */
  lemma TwoRuleFiles<R, F>(a: string, b: string, e: string, eng: Engine<R, F>, file: F, pos: Pos, msg: string)
    requires ',' !in a && ',' !in b
    requires LoadRef(a, eng).Success? && LoadRef(b, eng).Success?
    requires eng.runRules(file, eng.mergeRuleSets([LoadRef(a, eng).value, LoadRef(b, eng).value])) ==
      Execution([MatchReport(a, pos, msg, None), MatchReport(b, pos, msg, None)], None)
    ensures Analysis(Config(a + [','] + b, e), eng, [file]) ==
      RunOutcome([Diagnostic(pos, msg + Provenance(a), []), Diagnostic(pos, msg + Provenance(b), [])], None)
  {
    var rset := eng.mergeRuleSets([LoadRef(a, eng).value, LoadRef(b, eng).value]);
    var reports := [MatchReport(a, pos, msg, None), MatchReport(b, pos, msg, None)];
    TwoPiecesLoad(a, b, e, eng);
    DriveOne(file, rset, true, eng);
    TwoSameMessages(a, b, pos, msg);
    assert Analysis(Config(a + [','] + b, e), eng, [file]) == Drive([file], rset, true, eng);
  }

  /** Two suggestion-free reports at one node become two suffixed diagnostics there, in order. */
  lemma TwoSameMessages(a: string, b: string, pos: Pos, msg: string)
    ensures Emissions(true, [MatchReport(a, pos, msg, None), MatchReport(b, pos, msg, None)]) ==
      [Diagnostic(pos, msg + Provenance(a), []), Diagnostic(pos, msg + Provenance(b), [])]
  {
    var ds := Emissions(true, [MatchReport(a, pos, msg, None), MatchReport(b, pos, msg, None)]);
    assert ds[0] == Diagnostic(pos, msg + Provenance(a), []);
    assert ds[1] == Diagnostic(pos, msg + Provenance(b), []);
  }

  /** "a,b" with both pieces loading reads as the merge of their two rule sets, in multi-file mode. */
  lemma TwoPiecesLoad<R, F>(a: string, b: string, e: string, eng: Engine<R, F>)
    requires ',' !in a && ',' !in b
    requires LoadRef(a, eng).Success? && LoadRef(b, eng).Success?
    ensures ReadRulesResult(Config(a + [','] + b, e), eng) ==
      ReadOutcome(Some(ParseRulesResult(Some(eng.mergeRuleSets([LoadRef(a, eng).value, LoadRef(b, eng).value])), true)), None)
  {
    var cfg := Config(a + [','] + b, e);
    var pieces := [a, b];
    assert Join(pieces, ',') == cfg.rules;
    SplitJoin(pieces, ',');
    LoadTwo(a, b, PieceLoader(eng));
  }

  /** Two references that both load give their two rule sets in order. */
  lemma LoadTwo<R>(a: string, b: string, load: string -> Result<R, string>)
    requires load(a).Success? && load(b).Success?
    ensures LoadAll([a, b], load) == Loaded([load(a).value, load(b).value])
  {
    assert [a, b][1..] == [b];
  }

  /** A one-file package: the file's reports and its error. */
  lemma DriveOne<R, F>(file: F, rset: R, multiFile: bool, eng: Engine<R, F>)
    ensures Drive([file], rset, multiFile, eng) ==
      RunOutcome(Emissions(multiFile, eng.runRules(file, rset).reports), eng.runRules(file, rset).err)
  {
    assert [file][..0] == [];
  }

  /**
   * The host's side of a pass: the package's files and the diagnostic sink
   * that pass.Report appends to.
   */
  class Pass<F> {
    const files: seq<F>
    var diagnostics: seq<Diagnostic>

    constructor (files: seq<F>)
      ensures this.files == files && diagnostics == []
    {
      this.files := files;
      diagnostics := [];
    }

    /** pass.Report: the host takes one diagnostic. */
    method Report(d: Diagnostic)
      modifies this
      ensures diagnostics == old(diagnostics) + [d]
    {
      diagnostics := diagnostics + [d];
    }
  }

  /**
   * The Report closure of the rule engine's context: suffix the message in
   * multi-file mode, translate the suggestion, and hand one diagnostic to the host.
   */
  method ReportMatch<F>(pass: Pass<F>, multiFile: bool, r: MatchReport)
    modifies pass
    ensures pass.diagnostics == old(pass.diagnostics) + [ToDiagnostic(multiFile, r)]
  {
    var msg := r.msg;
    if multiFile {
      msg := msg + Provenance(r.filename);
    }
    var diag := Diagnostic(r.node, msg, []);
    if r.suggestion.Some? {
      var s := r.suggestion.value;
      diag := diag.(suggestedFixes := [SuggestedFix(FixMessage, [TextEdit(s.from, s.to, s.replacement)])]);
    }
    pass.Report(diag);
  }

  /**
   * The engine calling the Report closure once for each of its matches, in order.
   */
  method DeliverReports<F>(pass: Pass<F>, multiFile: bool, reports: seq<MatchReport>)
    modifies pass
    ensures pass.diagnostics == old(pass.diagnostics) + Emissions(multiFile, reports)
  {
    var j := 0;
    while j < |reports|
      invariant 0 <= j <= |reports|
      invariant pass.diagnostics == old(pass.diagnostics) + Emissions(multiFile, reports[..j])
    {
      ReportMatch(pass, multiFile, reports[j]);
      assert reports[..j + 1] == reports[..j] + [reports[j]];
      EmissionsAppend(multiFile, reports[..j], [reports[j]]);
      j := j + 1;
    }
    assert reports[..j] == reports;
  }

  /** Appending to the sink in two steps is appending the two parts at once. */
  lemma AppendAssociates<T>(a: seq<T>, b: seq<T>, c: seq<T>)
    ensures (a + b) + c == a + (b + c)
  {
  }

  /**
   * The file loop of runAnalyzer: run the rule set on each file in order and
   * return the first error unwrapped, leaving the diagnostics already reported.
   */
  method RunFiles<R, F>(pass: Pass<F>, rset: R, multiFile: bool, eng: Engine<R, F>) returns (err: Option<string>)
    modifies pass
    ensures pass.diagnostics == old(pass.diagnostics) + Drive(pass.files, rset, multiFile, eng).emitted
    ensures err == Drive(pass.files, rset, multiFile, eng).err
  {
    var files := pass.files;
    var i := 0;
    while i < |files|
      invariant 0 <= i <= |files| && files == pass.files
      invariant Drive(files[..i], rset, multiFile, eng).err.None?
      invariant pass.diagnostics == old(pass.diagnostics) + Drive(files[..i], rset, multiFile, eng).emitted
    {
      ghost var earlier := Drive(files[..i], rset, multiFile, eng).emitted;
      var x := eng.runRules(files[i], rset);
      DeliverReports(pass, multiFile, x.reports);
      AppendAssociates(old(pass.diagnostics), earlier, Emissions(multiFile, x.reports));
      DriveStep(files, i, rset, multiFile, eng);
      if x.err.Some? {
        DriveFailureSticks(files, i + 1, rset, multiFile, eng);
        return x.err;
      }
      i := i + 1;
    }
    assert files[..i] == files;
    return None;
  }

  /**
   * runAnalyzer: read the rules, wrapping a reading error as "load rules: ...",
   * then run them over the package's files.
   */
  method RunAnalyzer<R, F>(pass: Pass<F>, cfg: Config, eng: Engine<R, F>) returns (err: Option<string>)
    modifies pass
    ensures pass.diagnostics == old(pass.diagnostics) + Analysis(cfg, eng, pass.files).emitted
    ensures err == Analysis(cfg, eng, pass.files).err
  {
    var parseResult := ReadRules(cfg, eng);
    if parseResult.err.Some? {
      return Some("load rules: " + parseResult.err.value);
    }
    var rset := parseResult.result.value.rset.value;
    var multiFile := parseResult.result.value.multiFile;
    err := RunFiles(pass, rset, multiFile, eng);
  }
}
