/** How one job is dispatched to the services and what it leaves behind:
    `save_translation_output`, `process_csv_job` and
    `process_hot_folder_job` of core.py. The worker threads are replaced by
    the replies they collect and the order in which they finished. */
module Dispatch {
  import opened Text
  import opened Backends
  import opened Parsing
  import opened Naming
  import opened Storage

  /** The settings core.py binds when it is imported (core.py:21-27). */
  datatype Config = Config(mode: Mode, primary: Backend, defaultSource: string, defaultTarget: string)

  /** What the outside world contributes to one job:
      - `extracted`: what `get_text_from_file` returned;
      - `translations`, `critiques`: each service's reply;
      - `finished`: the order in which the translation threads finished;
      - `reviewed`: the order in which the critique threads finished;
      - `regenerated`: the status each regenerator call returned. */
  datatype Outcomes = Outcomes(
    extracted: string,
    translations: Replies,
    critiques: Replies,
    finished: seq<Backend>,
    reviewed: seq<Backend>,
    regenerated: Replies)

  /** Every thread that was started finishes exactly once. */
  predicate WellFormed(o: Outcomes, primary: Backend) {
    IsArrangementOf(o.finished, Registered) && IsArrangementOf(o.reviewed, Reviewers(primary))
  }

  /** What a job reports in the log when it ends. */
  datatype Verdict =
    | AllSucceeded(total: nat)
    | Partial(succeeded: nat, total: nat)
    | AllFailed(total: nat)
    | Aborted
    | Reported(succeeded: nat, total: nat)
    | NotRun

  // ---------------------------------------------------------------------
  // save_translation_output (core.py:64-79)
  // ---------------------------------------------------------------------

  /** Where the results of one job go: the file name for each service, and
      whether the source's extension selects a regenerator. */
  datatype Destination = Destination(source: string, names: Replies, regenerate: bool)

  function DestinationOf(sourcePath: string, jobId: Option<string>): Destination {
    Destination(sourcePath,
                Replies(OutputName(sourcePath, Gpt, jobId), OutputName(sourcePath, Claude, jobId), OutputName(sourcePath, Gemini, jobId)),
                IsRegeneratedExtension(Extension(sourcePath)))
  }

  predicate DistinctNames(d: Destination) {
    d.names.gpt != d.names.claude && d.names.gpt != d.names.gemini && d.names.claude != d.names.gemini
  }

  /** The three services of a job always write to three different files. */
  lemma DestinationNamesDistinct(sourcePath: string, jobId: Option<string>)
    ensures DistinctNames(DestinationOf(sourcePath, jobId))
  {
    OutputNamesDistinct(sourcePath, jobId, Gpt, Claude);
    OutputNamesDistinct(sourcePath, jobId, Gpt, Gemini);
    OutputNamesDistinct(sourcePath, jobId, Claude, Gemini);
  }

  lemma NameOfInjective(d: Destination, a: Backend, b: Backend)
    requires DistinctNames(d) && d.names.Of(a) == d.names.Of(b)
    ensures a == b
  {
  }

  /** The artifact written for a result: the rebuilt document for the
      regenerated formats, the plain text otherwise. */
  function ArtifactFor(d: Destination, result: string): Artifact {
    if d.regenerate then Regenerated(d.source, result) else PlainText(result)
  }

  /** A plain-text output is always written; a regenerated one unless the
      regenerator reported an `Error:` status, which is only logged. */
  predicate Writes(d: Destination, status: string) {
    !d.regenerate || !IsError(status)
  }

  function SaveOutput(outputs: map<string, Artifact>, d: Destination, service: Backend, result: string, status: string)
    : map<string, Artifact>
  {
    if Writes(d, status) then outputs[d.names.Of(service) := ArtifactFor(d, result)] else outputs
  }

  /** `save_translation_output`, given the destination of the job (the
      names it derives from the source path and the job id are those of
      `DestinationOf`). `status` is what the regenerator returns when the
      extension selects one. */
  method SaveTranslationOutput(ws: Workspace, d: Destination, service: Backend, result: string, status: string)
    modifies ws
    ensures ws.Snapshot() == old(ws.Snapshot()).(outputs := SaveOutput(old(ws.outputs), d, service, result, status))
  {
    var name := d.names.Of(service);
    if d.regenerate {
      if !IsError(status) {
        ws.WriteOutput(name, Regenerated(d.source, result));
      }
    } else {
      ws.WriteOutput(name, PlainText(result));
    }
  }

  /** A service's result ends up in the outputs directory. */
  predicate Kept(d: Destination, replies: Replies, status: Replies, b: Backend) {
    !IsError(replies.Of(b)) && Writes(d, status.Of(b))
  }

  /** The files written for the kept results of the services in `among`. */
  function Written(d: Destination, replies: Replies, status: Replies, among: set<Backend>): map<string, Artifact>
    requires DistinctNames(d)
  {
    map b | b in among && Kept(d, replies, status, b) :: d.names.Of(b) := ArtifactFor(d, replies.Of(b))
  }

  /** The saving loop over the collected results (core.py:104-105 and
      core.py:164-167): the non-error results, in completion order. */
  function SaveResults(outputs: map<string, Artifact>, order: seq<Backend>, d: Destination, replies: Replies,
                       status: Replies): map<string, Artifact>
  {
    if |order| == 0 then outputs
    else
      var b := order[|order| - 1];
      var m := SaveResults(outputs, order[..|order| - 1], d, replies, status);
      if IsError(replies.Of(b)) then m else SaveOutput(m, d, b, replies.Of(b), status.Of(b))
  }

  predicate Distinct(order: seq<Backend>) {
    forall i, j :: 0 <= i < j < |order| ==> order[i] != order[j]
  }

  /** The file of a service is in `Written` exactly when the service is
      among those saved and its result was kept. */
  lemma WrittenExactlyKept(d: Destination, replies: Replies, status: Replies, among: set<Backend>, b: Backend)
    requires DistinctNames(d)
    ensures var w := Written(d, replies, status, among);
            && (d.names.Of(b) in w <==> b in among && Kept(d, replies, status, b))
            && (b in among && Kept(d, replies, status, b) ==> w[d.names.Of(b)] == ArtifactFor(d, replies.Of(b)))
  {
    var w := Written(d, replies, status, among);
    if d.names.Of(b) in w {
      var a :| a in among && Kept(d, replies, status, a) && d.names.Of(a) == d.names.Of(b);
      NameOfInjective(d, a, b);
    }
  }

  /** Saving the results one by one adds exactly the files of the kept
      results: later saves never overwrite earlier ones. */
  lemma {:induction false} SaveResultsIsUnion(outputs: map<string, Artifact>, order: seq<Backend>, d: Destination,
                                             replies: Replies, status: Replies)
    requires Distinct(order) && DistinctNames(d)
    ensures SaveResults(outputs, order, d, replies, status) == outputs + Written(d, replies, status, set b | b in order)
    decreases |order|
  {
    if |order| > 0 {
      var init := order[..|order| - 1];
      var b := order[|order| - 1];
      assert Distinct(init);
      SaveResultsIsUnion(outputs, init, d, replies, status);
      assert (set x | x in order) == (set x | x in init) + {b} by {
        assert order == init + [b];
      }
      assert b !in init by {
        forall i | 0 <= i < |init| ensures init[i] != b {
          assert init[i] == order[i];
        }
      }
      SaveOneMore(outputs, SaveResults(outputs, init, d, replies, status), d, replies, status, (set x | x in init), b);
    }
  }

  /** One more save, of a service not saved yet, extends the union by that
      service's file. */
  lemma SaveOneMore(outputs: map<string, Artifact>, m: map<string, Artifact>, d: Destination, replies: Replies,
                    status: Replies, among: set<Backend>, b: Backend)
    requires DistinctNames(d) && b !in among && m == outputs + Written(d, replies, status, among)
    ensures (if IsError(replies.Of(b)) then m else SaveOutput(m, d, b, replies.Of(b), status.Of(b)))
            == outputs + Written(d, replies, status, among + {b})
  {
    WrittenAddOne(d, replies, status, among, b);
    if Kept(d, replies, status, b) {
      UnionThenUpdate(outputs, Written(d, replies, status, among), d.names.Of(b), ArtifactFor(d, replies.Of(b)));
    }
  }

  lemma UnionThenUpdate<K, V>(m: map<K, V>, w: map<K, V>, k: K, v: V)
    ensures (m + w)[k := v] == m + w[k := v]
  {
  }

  /** Adding one service not yet saved adds at most its own file. */
  lemma WrittenAddOne(d: Destination, replies: Replies, status: Replies, among: set<Backend>, b: Backend)
    requires DistinctNames(d) && b !in among
    ensures Written(d, replies, status, among + {b})
            == if Kept(d, replies, status, b) then Written(d, replies, status, among)[d.names.Of(b) := ArtifactFor(d, replies.Of(b))]
               else Written(d, replies, status, among)
  {
    var before := Written(d, replies, status, among);
    var after := Written(d, replies, status, among + {b});
    var expected := if Kept(d, replies, status, b) then before[d.names.Of(b) := ArtifactFor(d, replies.Of(b))] else before;
    forall k | k in after ensures k in expected && after[k] == expected[k] {
      var a :| a in among + {b} && Kept(d, replies, status, a) && d.names.Of(a) == k;
      WrittenExactlyKept(d, replies, status, among + {b}, a);
      if a != b {
        WrittenExactlyKept(d, replies, status, among, a);
      }
    }
    forall k | k in expected ensures k in after {
      if !(Kept(d, replies, status, b) && k == d.names.Of(b)) {
        var a :| a in among && Kept(d, replies, status, a) && d.names.Of(a) == k;
        WrittenExactlyKept(d, replies, status, among + {b}, a);
      } else {
        WrittenExactlyKept(d, replies, status, among + {b}, b);
      }
    }
  }

  /** An arrangement of the registered services lists each once. */
  lemma ArrangementDistinct(order: seq<Backend>)
    requires IsArrangementOf(order, Registered)
    ensures Distinct(order)
    ensures (set b | b in order) == {Gpt, Claude, Gemini}
  {
    forall i, j | 0 <= i < j < |order| ensures order[i] != order[j] {
      var x := order[i];
      assert order == order[..i] + [x] + order[i + 1..j] + [order[j]] + order[j + 1..];
      assert multiset(Registered)[x] == 1;
    }
    forall b ensures b in order <==> b in Registered {
      assert b in order <==> b in multiset(order);
    }
  }

  /** The completion order of the threads does not change which files are
      written or what they hold. */
  lemma SaveOrderIrrelevant(outputs: map<string, Artifact>, first: seq<Backend>, second: seq<Backend>, sourcePath: string,
                            replies: Replies, jobId: Option<string>, status: Replies)
    requires IsArrangementOf(first, Registered) && IsArrangementOf(second, Registered)
    ensures SaveResults(outputs, first, DestinationOf(sourcePath, jobId), replies, status)
            == SaveResults(outputs, second, DestinationOf(sourcePath, jobId), replies, status)
  {
    ArrangementDistinct(first);
    ArrangementDistinct(second);
    DestinationNamesDistinct(sourcePath, jobId);
    SaveResultsIsUnion(outputs, first, DestinationOf(sourcePath, jobId), replies, status);
    SaveResultsIsUnion(outputs, second, DestinationOf(sourcePath, jobId), replies, status);
  }

  /** Saving and counting one more element of the completion order. */
  lemma SavePrefixStep(outputs: map<string, Artifact>, order: seq<Backend>, i: nat, d: Destination, replies: Replies,
                       status: Replies)
    requires i < |order|
    ensures var b := order[i];
            var m := SaveResults(outputs, order[..i], d, replies, status);
            && SaveResults(outputs, order[..i + 1], d, replies, status)
               == (if IsError(replies.Of(b)) then m else SaveOutput(m, d, b, replies.Of(b), status.Of(b)))
            && Successes(order[..i + 1], replies) == Successes(order[..i], replies) + (if IsError(replies.Of(b)) then 0 else 1)
  {
    assert order[..i + 1][..i] == order[..i];
  }

  /** The saving loop, which also counts the successful results
      (core.py:163-167). */
  method SaveEach(ws: Workspace, d: Destination, order: seq<Backend>, replies: Replies, status: Replies)
    returns (count: nat)
    modifies ws
    ensures ws.Snapshot() == old(ws.Snapshot()).(outputs := SaveResults(old(ws.outputs), order, d, replies, status))
    ensures count == Successes(order, replies)
  {
    count := 0;
    var i := 0;
    while i < |order|
      invariant 0 <= i <= |order|
      invariant ws.Snapshot() == old(ws.Snapshot()).(outputs := SaveResults(old(ws.outputs), order[..i], d, replies, status))
      invariant count == Successes(order[..i], replies)
    {
      var service := order[i];
      var result := replies.Of(service);
      SavePrefixStep(old(ws.outputs), order, i, d, replies, status);
      if !IsError(result) {
        SaveTranslationOutput(ws, d, service, result, status.Of(service));
        count := count + 1;
      }
      i := i + 1;
    }
    assert order[..i] == order;
  }

  // ---------------------------------------------------------------------
  // The critique report (core.py:122-124)
  // ---------------------------------------------------------------------

  function SourceSection(text: string): string {
    "--- SOURCE TEXT ---\n" + text + "\n\n"
  }

  function PrimarySection(primary: Backend, translation: string): string {
    "--- PRIMARY TRANSLATION (" + Label(primary) + ") ---\n" + translation + "\n\n"
  }

  function CritiqueSection(reviewer: Backend, critique: string): string {
    "--- CRITIQUE & REFINEMENT (" + Label(reviewer) + ") ---\n" + critique + "\n\n"
  }

  /** One section per collected critique, in the order they were collected. */
  function CritiqueSections(order: seq<Backend>, critiques: Replies): string {
    if |order| == 0 then ""
    else CritiqueSections(order[..|order| - 1], critiques) + CritiqueSection(order[|order| - 1], critiques.Of(order[|order| - 1]))
  }

  function Report(text: string, primary: Backend, translation: string, order: seq<Backend>, critiques: Replies): string {
    SourceSection(text) + PrimarySection(primary, translation) + CritiqueSections(order, critiques)
  }

  /** The report is built with `+=`, one section per finished critique thread. */
  method BuildReport(text: string, primary: Backend, translation: string, order: seq<Backend>, critiques: Replies)
    returns (report: string)
    ensures report == Report(text, primary, translation, order, critiques)
  {
    var head := SourceSection(text) + PrimarySection(primary, translation);
    report := head;
    var i := 0;
    while i < |order|
      invariant 0 <= i <= |order|
      invariant report == head + CritiqueSections(order[..i], critiques)
    {
      var section := CritiqueSection(order[i], critiques.Of(order[i]));
      assert order[..i + 1][..i] == order[..i];
      assert CritiqueSections(order[..i + 1], critiques) == CritiqueSections(order[..i], critiques) + section;
      AppendAssoc(head, CritiqueSections(order[..i], critiques), section);
      report := report + section;
      i := i + 1;
    }
    assert order[..i] == order;
  }

  lemma AppendAssoc(a: string, b: string, c: string)
    ensures (a + b) + c == a + (b + c)
  {
  }

  /** The sections before, at and after position `k`. */
  lemma {:induction false} CritiqueSectionsAround(order: seq<Backend>, critiques: Replies, k: nat)
    requires k < |order|
    ensures CritiqueSections(order, critiques)
            == CritiqueSections(order[..k], critiques) + CritiqueSection(order[k], critiques.Of(order[k]))
               + CritiqueSections(order[k + 1..], critiques)
    decreases |order|
  {
    var init := order[..|order| - 1];
    var last := CritiqueSection(order[|order| - 1], critiques.Of(order[|order| - 1]));
    assert CritiqueSections(order, critiques) == CritiqueSections(init, critiques) + last;
    if k == |order| - 1 {
      assert order[..k] == init;
      assert order[k + 1..] == [];
    } else {
      var a := CritiqueSections(order[..k], critiques);
      var sec := CritiqueSection(order[k], critiques.Of(order[k]));
      var rest := CritiqueSections(init[k + 1..], critiques);
      CritiqueSectionsAround(init, critiques, k);
      assert init[..k] == order[..k];
      assert init[k] == order[k];
      assert CritiqueSections(init, critiques) == a + sec + rest;
      var after := order[k + 1..];
      assert init[k + 1..] == after[..|after| - 1];
      assert after[|after| - 1] == order[|order| - 1];
      assert CritiqueSections(after, critiques) == rest + last;
      AppendAssoc(a + sec, rest, last);
    }
  }

  /** The report opens with the source and the primary translation, and
      holds the section of every collected critique, failed ones included. */
  lemma ReportIncludesEveryCritique(text: string, primary: Backend, translation: string, order: seq<Backend>,
                                    critiques: Replies, b: Backend)
    requires b in order
    ensures var r := Report(text, primary, translation, order, critiques);
            StartsWith(r, SourceSection(text) + PrimarySection(primary, translation))
            && Contains(r, CritiqueSection(b, critiques.Of(b)))
  {
    var head := SourceSection(text) + PrimarySection(primary, translation);
    var k :| 0 <= k < |order| && order[k] == b;
    var a := CritiqueSections(order[..k], critiques);
    var sec := CritiqueSection(b, critiques.Of(b));
    var rest := CritiqueSections(order[k + 1..], critiques);
    CritiqueSectionsAround(order, critiques, k);
    assert Report(text, primary, translation, order, critiques) == head + (a + sec + rest);
    StartsWithAppend(head, a + sec + rest);
    AppendAssoc(head, a + sec, rest);
    AppendAssoc(head, a, sec);
    OccursBetween(head + a, sec, rest);
  }

  // ---------------------------------------------------------------------
  // process_csv_job (core.py:82-129)
  // ---------------------------------------------------------------------

  /** One translation request per service, started in the given order. */
  function TranslateCalls(services: seq<Backend>, text: string, target: Option<string>, source: Option<string>): (r: seq<Call>)
    ensures |r| == |services|
    ensures forall i :: 0 <= i < |r| ==> r[i] == Translate(services[i], text, target, source)
  {
    seq(|services|, i requires 0 <= i < |services| => Translate(services[i], text, target, source))
  }

  /** One critique request per reviewer, started in the given order. */
  function ReviewCalls(services: seq<Backend>, text: string, draft: string, target: Option<string>, source: Option<string>): (r: seq<Call>)
    ensures |r| == |services|
    ensures forall i :: 0 <= i < |r| ==> r[i] == Review(services[i], text, draft, target, source)
  {
    seq(|services|, i requires 0 <= i < |services| => Review(services[i], text, draft, target, source))
  }

  /** The effect of the mode's branch, before the ledger write. `d` says
      where results are saved and `reportName` where the critique report
      goes. */
  function RunMode(st: State, d: Destination, reportName: string, source: Option<string>, target: Option<string>,
                   cfg: Config, o: Outcomes): State
  {
    var p := cfg.primary;
    var text := o.extracted;
    match cfg.mode
    case Simple =>
      var st1 := st.(calls := st.calls + [Translate(p, text, target, source)]);
      var t := o.translations.Of(p);
      if IsError(t) then st1
      else st1.(outputs := SaveOutput(st1.outputs, d, p, t, o.regenerated.Of(p)))
    case Parallel =>
      st.(calls := st.calls + TranslateCalls(Registered, text, target, source),
          outputs := SaveResults(st.outputs, o.finished, d, o.translations, o.regenerated))
    case Critique =>
      var st1 := st.(calls := st.calls + [Translate(p, text, target, source)]);
      var t := o.translations.Of(p);
      if IsError(t) then st1
      else
        st1.(calls := st1.calls + ReviewCalls(Reviewers(p), text, t, target, source),
             outputs := st1.outputs[reportName := PlainText(Report(text, p, t, o.reviewed, o.critiques))])
    case Other => st
  }

  /** `process_csv_job`: the mode's branch, then the link is always logged. */
  function CsvJob(st: State, link: string, title: string, sourcePath: string, cfg: Config, o: Outcomes): State {
    var jobId := JobIdFromLink(link);
    var langs := ParseLanguages(title);
    var st1 := RunMode(st, DestinationOf(sourcePath, jobId), CritiqueReportName(jobId), langs.0, langs.1, cfg, o);
    st1.(ledger := st1.ledger + [link])
  }

  /** The verdict `process_csv_job` logs. PARALLEL knows only "all" and
      "partial": no success at all is logged as partial success. */
  function CsvVerdict(cfg: Config, o: Outcomes): Verdict {
    var p := cfg.primary;
    match cfg.mode
    case Simple => if IsError(o.translations.Of(p)) then AllFailed(1) else AllSucceeded(1)
    case Parallel =>
      var n := Successes(o.finished, o.translations);
      if n == |Registered| then AllSucceeded(|Registered|) else Partial(n, |Registered|)
    case Critique =>
      if IsError(o.translations.Of(p)) then Aborted else Reported(Successes(o.reviewed, o.critiques), |Reviewers(p)|)
    case Other => NotRun
  }

  method ProcessCsvJob(ws: Workspace, link: string, title: string, sourcePath: string, cfg: Config, o: Outcomes)
    returns (verdict: Verdict)
    modifies ws
    ensures ws.Snapshot() == CsvJob(old(ws.Snapshot()), link, title, sourcePath, cfg, o)
    ensures verdict == CsvVerdict(cfg, o)
  {
    var jobId := JobIdFromLink(link);
    var d := DestinationOf(sourcePath, jobId);
    var text := o.extracted;
    var langs := ParseLanguages(title);
    var source, target := langs.0, langs.1;
    var p := cfg.primary;
    match cfg.mode {
      case Simple =>
        ws.Invoke([Translate(p, text, target, source)]);
        var translation := o.translations.Of(p);
        if !IsError(translation) {
          SaveTranslationOutput(ws, d, p, translation, o.regenerated.Of(p));
          verdict := AllSucceeded(1);
        } else {
          verdict := AllFailed(1);
        }
      case Parallel =>
        ws.Invoke(TranslateCalls(Registered, text, target, source));
        var count := SaveEach(ws, d, o.finished, o.translations, o.regenerated);
        verdict := if count == |Registered| then AllSucceeded(|Registered|) else Partial(count, |Registered|);
      case Critique =>
        ws.Invoke([Translate(p, text, target, source)]);
        var translation := o.translations.Of(p);
        if IsError(translation) {
          verdict := Aborted;
        } else {
          ws.Invoke(ReviewCalls(Reviewers(p), text, translation, target, source));
          var report := BuildReport(text, p, translation, o.reviewed, o.critiques);
          ws.WriteOutput(CritiqueReportName(jobId), PlainText(report));
          verdict := Reported(Successes(o.reviewed, o.critiques), |Reviewers(p)|);
        }
      case Other =>
        verdict := NotRun;
    }
    ws.LogProcessedJob(link);
  }

  /** Whatever the mode and whatever the services answer, the job's link is
      appended to the ledger exactly once, and the job touches neither the
      claimed ids, the manifest nor the clipboard. */
  lemma CsvJobLogsOnce(st: State, link: string, title: string, sourcePath: string, cfg: Config, o: Outcomes)
    ensures var r := CsvJob(st, link, title, sourcePath, cfg, o);
            r.ledger == st.ledger + [link] && r.active == st.active && r.manifest == st.manifest
            && r.clipboard == st.clipboard
  {
    var jobId := JobIdFromLink(link);
    var langs := ParseLanguages(title);
    RunModeFrame(st, DestinationOf(sourcePath, jobId), CritiqueReportName(jobId), langs.0, langs.1, cfg, o);
  }

  /** The mode's branch only calls services and writes outputs. */
  lemma RunModeFrame(st: State, d: Destination, reportName: string, source: Option<string>, target: Option<string>,
                     cfg: Config, o: Outcomes)
    ensures var r := RunMode(st, d, reportName, source, target, cfg, o);
            r == st.(calls := r.calls, outputs := r.outputs)
  {
  }

  /** An unrecognised mode calls no service and writes no file; only the
      ledger entry remains. */
  lemma UnknownModeOnlyLogs(st: State, link: string, title: string, sourcePath: string, cfg: Config, o: Outcomes)
    requires cfg.mode == Other
    ensures CsvJob(st, link, title, sourcePath, cfg, o) == st.(ledger := st.ledger + [link])
  {
  }

  /** SIMPLE asks only the primary service and saves its result exactly when
      it is not an error. */
  lemma SimpleDispatch(st: State, d: Destination, reportName: string, source: Option<string>, target: Option<string>,
                       cfg: Config, o: Outcomes)
    requires cfg.mode == Simple && DistinctNames(d)
    ensures var r := RunMode(st, d, reportName, source, target, cfg, o);
            && r.calls == st.calls + [Translate(cfg.primary, o.extracted, target, source)]
            && r.outputs == st.outputs + Written(d, o.translations, o.regenerated, {cfg.primary})
  {
    var p := cfg.primary;
    WrittenExactlyKept(d, o.translations, o.regenerated, {p}, p);
    if Kept(d, o.translations, o.regenerated, p) {
      assert Written(d, o.translations, o.regenerated, {p}) == map[d.names.Of(p) := ArtifactFor(d, o.translations.Of(p))];
    } else {
      assert Written(d, o.translations, o.regenerated, {p}) == map[];
    }
  }

  /** PARALLEL asks every service, in registration order, and adds exactly
      the files of the results that are not errors, whatever order the
      threads finished in. */
  lemma ParallelDispatch(st: State, d: Destination, reportName: string, source: Option<string>, target: Option<string>,
                         cfg: Config, o: Outcomes)
    requires cfg.mode == Parallel && WellFormed(o, cfg.primary) && DistinctNames(d)
    ensures var r := RunMode(st, d, reportName, source, target, cfg, o);
            && r.calls == st.calls + [Translate(Gpt, o.extracted, target, source),
                                      Translate(Claude, o.extracted, target, source),
                                      Translate(Gemini, o.extracted, target, source)]
            && r.outputs == st.outputs + Written(d, o.translations, o.regenerated, {Gpt, Claude, Gemini})
  {
    ArrangementDistinct(o.finished);
    SaveResultsIsUnion(st.outputs, o.finished, d, o.translations, o.regenerated);
    var cs := TranslateCalls(Registered, o.extracted, target, source);
    assert cs == [cs[0], cs[1], cs[2]];
  }

  /** CRITIQUE with a failed primary translation asks for no critique and
      writes no file. */
  lemma CritiqueAbortsOnPrimaryError(st: State, d: Destination, reportName: string, source: Option<string>,
                                     target: Option<string>, cfg: Config, o: Outcomes)
    requires cfg.mode == Critique && IsError(o.translations.Of(cfg.primary))
    ensures var r := RunMode(st, d, reportName, source, target, cfg, o);
            && r.calls == st.calls + [Translate(cfg.primary, o.extracted, target, source)]
            && r.outputs == st.outputs
            && CsvVerdict(cfg, o) == Aborted
  {
  }

  /** CRITIQUE with a usable primary translation asks each service other than
      the primary for a critique of it, and writes a report that holds every
      critique, failed ones included. */
  lemma CritiqueReportsEveryReviewer(st: State, d: Destination, reportName: string, source: Option<string>,
                                     target: Option<string>, cfg: Config, o: Outcomes, b: Backend)
    requires cfg.mode == Critique && !IsError(o.translations.Of(cfg.primary)) && WellFormed(o, cfg.primary)
    requires b != cfg.primary
    ensures var r := RunMode(st, d, reportName, source, target, cfg, o);
            var p := cfg.primary;
            var t := o.translations.Of(p);
            && r.calls == st.calls + [Translate(p, o.extracted, target, source)] + ReviewCalls(Reviewers(p), o.extracted, t, target, source)
            && Review(b, o.extracted, t, target, source) in ReviewCalls(Reviewers(p), o.extracted, t, target, source)
            && reportName in r.outputs && r.outputs[reportName].PlainText?
            && StartsWith(r.outputs[reportName].text, SourceSection(o.extracted) + PrimarySection(p, t))
            && Contains(r.outputs[reportName].text, CritiqueSection(b, o.critiques.Of(b)))
  {
    var p := cfg.primary;
    var t := o.translations.Of(p);
    ReviewersAreNonPrimary(p);
    var k := if Reviewers(p)[0] == b then 0 else 1;
    assert ReviewCalls(Reviewers(p), o.extracted, t, target, source)[k] == Review(b, o.extracted, t, target, source);
    assert b in multiset(o.reviewed) by {
      assert b in multiset(Reviewers(p));
    }
    ReportIncludesEveryCritique(o.extracted, p, t, o.reviewed, o.critiques, b);
  }

  /** PARALLEL logs "all succeeded" exactly when no reply is an error; every
      other count, 0 included, is logged as partial. */
  lemma ParallelVerdictClasses(cfg: Config, o: Outcomes)
    requires cfg.mode == Parallel && WellFormed(o, cfg.primary)
    ensures CsvVerdict(cfg, o) == AllSucceeded(3) <==> forall b :: !IsError(o.translations.Of(b))
    ensures CsvVerdict(cfg, o).Partial? <==> exists b :: IsError(o.translations.Of(b))
    ensures (forall b :: IsError(o.translations.Of(b))) ==> CsvVerdict(cfg, o) == Partial(0, 3)
  {
    AllSucceedIffNoError(o.finished, o.translations);
    SuccessesPermutation(o.finished, Registered, o.translations);
    SuccessesOfRegistered(o.translations);
    if forall b :: IsError(o.translations.Of(b)) {
      assert IsError(o.translations.Of(Gpt)) && IsError(o.translations.Of(Claude)) && IsError(o.translations.Of(Gemini));
    }
  }

  // ---------------------------------------------------------------------
  // process_hot_folder_job (core.py:131-177)
  // ---------------------------------------------------------------------

  /** The job id of an ad-hoc file, from the clock in whole seconds. */
  function HotFolderJobId(now: nat): string {
    "hotfolder_" + NatToString(now)
  }

  /** The fan-out of an ad-hoc job whose file could be read: every service
      translates, and the non-error results are saved. */
  function HotFolderRun(st: State, d: Destination, source: string, target: string, o: Outcomes): State {
    st.(calls := st.calls + TranslateCalls(Registered, o.extracted, Some(target), Some(source)),
        outputs := SaveResults(st.outputs, o.finished, d, o.translations, o.regenerated))
  }

  /** `process_hot_folder_job`: the manifest line comes first; a file that
      cannot be read ends the job; otherwise the services translate into the
      target the file name asks for, saving under the job's id. */
  function HotFolderJob(st: State, sourcePath: string, jobId: string, cfg: Config, o: Outcomes): State {
    var st1 := st.(manifest := st.manifest + [ManifestLine(jobId, sourcePath)]);
    if IsError(o.extracted) then st1
    else HotFolderRun(st1, DestinationOf(sourcePath, Some(jobId)), cfg.defaultSource,
                      HotFolderTarget(Basename(sourcePath), cfg.defaultTarget), o)
  }

  /** Three-way classification of a fan-out's success count. */
  function Classify(count: nat, total: nat): (v: Verdict)
    ensures v.AllSucceeded? <==> count == total
    ensures v.Partial? <==> 0 < count != total
    ensures v.AllFailed? <==> count == 0 != total
  {
    if count == total then AllSucceeded(total) else if count > 0 then Partial(count, total) else AllFailed(total)
  }

  function HotFolderVerdict(o: Outcomes): Verdict {
    if IsError(o.extracted) then Aborted else Classify(Successes(o.finished, o.translations), |Registered|)
  }

  method ProcessHotFolderJob(ws: Workspace, sourcePath: string, now: nat, cfg: Config, o: Outcomes)
    returns (verdict: Verdict)
    modifies ws
    ensures ws.Snapshot() == HotFolderJob(old(ws.Snapshot()), sourcePath, HotFolderJobId(now), cfg, o)
    ensures verdict == HotFolderVerdict(o)
  {
    var filename := Basename(sourcePath);
    var jobId := HotFolderJobId(now);
    ws.AppendManifest(ManifestLine(jobId, sourcePath));
    var source, target := cfg.defaultSource, HotFolderTarget(filename, cfg.defaultTarget);
    var text := o.extracted;
    if IsError(text) {
      return Aborted;
    }
    ws.Invoke(TranslateCalls(Registered, text, Some(target), Some(source)));
    var count := SaveEach(ws, DestinationOf(sourcePath, Some(jobId)), o.finished, o.translations, o.regenerated);
    verdict := Classify(count, |Registered|);
  }

  /** An ad-hoc job never writes the ledger or the claimed ids; its manifest
      line is written even when the file cannot be read, and then nothing
      else happens. */
  lemma HotFolderJobEffects(st: State, sourcePath: string, jobId: string, cfg: Config, o: Outcomes)
    ensures var r := HotFolderJob(st, sourcePath, jobId, cfg, o);
            && r.ledger == st.ledger && r.active == st.active && r.clipboard == st.clipboard
            && r.manifest == st.manifest + [ManifestLine(jobId, sourcePath)]
            && (IsError(o.extracted) ==> r == st.(manifest := r.manifest))
  {
  }

  /** An ad-hoc job that reads its file asks every service and saves exactly
      the non-error results. */
  lemma HotFolderRunSaves(st: State, d: Destination, source: string, target: string, o: Outcomes)
    requires IsArrangementOf(o.finished, Registered) && DistinctNames(d)
    ensures var r := HotFolderRun(st, d, source, target, o);
            r.outputs == st.outputs + Written(d, o.translations, o.regenerated, {Gpt, Claude, Gemini})
  {
    ArrangementDistinct(o.finished);
    SaveResultsIsUnion(st.outputs, o.finished, d, o.translations, o.regenerated);
  }

  /** The count of an ad-hoc job is classified as all, partial or none, and
      a file that cannot be read aborts. */
  lemma HotFolderVerdictClasses(o: Outcomes)
    requires IsArrangementOf(o.finished, Registered)
    ensures IsError(o.extracted) <==> HotFolderVerdict(o) == Aborted
    ensures !IsError(o.extracted) ==>
              && (HotFolderVerdict(o).AllSucceeded? <==> forall b :: !IsError(o.translations.Of(b)))
              && (HotFolderVerdict(o).AllFailed? <==> forall b :: IsError(o.translations.Of(b)))
  {
    AllSucceedIffNoError(o.finished, o.translations);
    SuccessesPermutation(o.finished, Registered, o.translations);
    SuccessesOfRegistered(o.translations);
    if forall b :: IsError(o.translations.Of(b)) {
      assert IsError(o.translations.Of(Gpt)) && IsError(o.translations.Of(Claude)) && IsError(o.translations.Of(Gemini));
    }
  }
}
