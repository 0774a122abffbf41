# multi-llm-translator: a verified model of the job engine

This project models the job-handling engine of the multi-LLM translation
assistant, and proves properties of that model.

- **Feed worker.** It polls a CSV feed of jobs. Each new row's job id is
  copied to the clipboard. The worker waits for the translator to drop the
  source file into `uploads/`, then either processes the job or logs it as
  rejected.
- **Processing.** Processing sends the text to the GPT, Claude and Gemini
  services. The operation mode is `SIMPLE`, `PARALLEL` or `CRITIQUE`. The
  results are saved into `outputs/`.
- **Hot folder.** Files dropped into `uploads/` that the feed worker has
  not claimed become ad-hoc jobs, recorded in a manifest.
- **Other parts.**
  - the prompt builder, which injects a glossary and fills placeholders;
  - the review page's index, which groups output files by job and reads
    the manifest back;
  - the spreadsheet and slide regenerators, which put translated pieces
    back into the document.

It covers both versions of the worker:
- `core.py`, the current engine, with modes, a stop event and the manifest;
- `app.py`, the older single-file version, which always runs the three
  services one after another.

## Layout

| file | module | what it holds |
|---|---|---|
| text.dfy | `Text` | Python's `str.find`, `split`, `join`, `replace`, `strip`, `lower`, `startswith` on `seq<char>` |
| backends.dfy | `Backends` | the three services, their names, the `Error:` convention, counting successes |
| parsing.dfy | `Parsing` | `parse_languages`, `get_job_id_from_link`, the leading-digit match, `basename`/`splitext`, the `_to_<LANG>` rule |
| naming.dfy | `Naming` | output file names of both versions |
| workspace.dfy | `Storage` | the state the engine changes: ledger, manifest, outputs, active ids, service calls, clipboard; the `Workspace` class that holds it |
| dispatch.dfy | `Dispatch` | `save_translation_output`, `process_csv_job`, `process_hot_folder_job` |
| ledger.dfy | `Ledger` | the feed, the ledger filter, `find_job_file` |
| handshake.dfy | `Handshake` | one poll of `csv_handshake_worker` and `HotFolderHandler.on_created` of core.py |
| app.dfy | `Legacy` | the same loop and handler as app.py has them |
| prompt.dfy | `Prompt` | `get_prompt_with_glossary` |
| review.dfy | `Review` | `get_job_data` and `find_source_file` of run_ui.py |
| fill.dfy | `Fill` | the piece-to-element assignment both regenerators share, and their status strings |
| xlsx.dfy | `Xlsx` | `create_xlsx_from_text` |
| pptx.dfy | `Pptx` | `create_pptx_from_text` |

## How the model is set up

- **State.** Everything the engine writes is one `Storage.State` value.
  The mutable `Storage.Workspace` object holds those fields, and its
  class methods (`Storage.Workspace.LogProcessedJob`, `WriteOutput`,
  `Claim`, …) are the primitive updates. Each procedure of the source is
  a module-level method (`Dispatch.ProcessCsvJob`, `Handshake.PollOnce`,
  `Handshake.OnCreated`, …) that takes the `Workspace` as a parameter
  and modifies it through those primitives. Its postcondition says the
  new snapshot is a function of the old one:
  - `Dispatch.CsvJob` and `Dispatch.HotFolderJob`;
  - `Handshake.Step` and `Handshake.Poll`;
  - `Legacy.LegacyRun` and `Legacy.AdHocEvent`.

  Lemmas about those functions state what the source promises.
- **Inputs from outside.** `Outcomes` carries what the outside world
  contributes to a job:
  - the extracted text;
  - each service's reply;
  - each regenerator's status;
  - the order in which the worker threads finished.

  `Reaction` carries what happens at one feed row: whether the stop event
  was set before or during the wait, and what `uploads/` held afterwards.
- **Generic worker loop.** The loop is written once. `Handshake.Step` takes
  the job procedure as a parameter `Job`. Examples: `Handshake.CoreJob` for
  core.py and `Legacy.LegacyJob` for app.py. The ledger and active-set
  properties are proved for every job that logs its link exactly once
  (`Handshake.LogsOnce`).
- **Regenerators.** A workbook is an `array` of cells, and a presentation
  an `array` of shapes, in the order the nested loops visit them. The
  loops assign in place.
- **Placeholders.** `Prompt.Placeholders` is the caller's mutable placeholder
  dictionary. It is an association list in insertion order, because Python
  dictionaries iterate in that order.

## Where the model follows the code rather than the documentation

- **Hot-folder target.** The target language of a hot-folder file is
  `stem.split('_to_')[-1]`. This is not always the text after the last
  `_to_`. Occurrences are found leftmost first and never overlap, so
  `a_to_to_` gives `to_`. See `Parsing.OverlappingMarkerExample`.
- **PARALLEL mode.** When no service succeeds, it logs "partial success",
  never "all failed". See `Dispatch.ParallelVerdictClasses`.
- **CRITIQUE mode.**
  - Critique sections appear in the order the reviewer threads finished,
    not in registration order.
  - Critiques that are `Error:` strings are still included.
  - See `Dispatch.CritiqueReportsEveryReviewer`.
- **New rows.** The worker loops (`Handshake.Poll`, `Legacy.LegacyPoll`)
  compare each raw feed link with the stripped ledger lines, as core.py:211
  and app.py:81 do. A link with surrounding whitespace is therefore
  announced again on every poll. `Handshake.PollCorrected` compares the
  stripped link instead; the two agree when no link is padded
  (`Handshake.PollsAgree`). See "## Findings".
- **Prefix claims.** The hot folder ignores a file when its whole leading
  digit run is a claimed id. The feed worker picks the first upload that
  merely starts with the id. So `uploads/1234.txt` is taken by job `123`
  and is also dispatched as an ad-hoc job. See
  `Handshake.LongerNumberNotProtected`.
- **Critique report on the review page.** The review page lists job `id`'s
  critique report under the key `id_CRITIQUE`. The greedy group runs to
  the last `_`. The report therefore never appears beside the job's
  translations. See `Review.CritiqueReportGroup`.

## Model

| member | source | states |
|---|---|---|
| Text.Strip | core.py:45 | `strip()` removes only whitespace (every character `str.isspace` accepts, the Unicode separators included), and only at both ends; a non-empty result starts and ends with a non-space |
| Text.StripTrimmed | run_ui.py:43 | a string without surrounding whitespace strips to itself |
| Text.StripIdempotent | core.py:53 | stripping a stripped line changes nothing |
| Text.Lower | core.py:205 | `lower()` keeps the length and lower-cases each ASCII letter |
| Text.JoinSplit | core.py:143 | joining the pieces of `split(sep)` with `sep` gives the string back |
| Text.SplitPiecesLackSep | core.py:143 | no piece of `split(sep)` contains `sep` |
| Text.SplitOnce | run_ui.py:43 | `split(sep, 1)` on a string holding `sep`: head, `sep` and tail make up the string, and the head contains no `sep` |
| Text.ReplaceAllIsSplitJoin | translators/utils.py:25 | `replace(key, value)` with a non-empty key equals splitting at the key and joining with the value |
| Text.ReplaceAbsent | translators/utils.py:25 | `replace` leaves a string without the key unchanged |
| Text.NatToString | core.py:135 | the decimal rendering of a clock reading is a non-empty run of digits |
| Backends.Rank | core.py:88 | every service has a position in the registration order gpt, claude, gemini |
| Backends.Name | core.py:88 | a service's name is a non-empty run of ASCII letters |
| Backends.NameInjective | core.py:88 | different services have different names |
| Backends.Reviewers | core.py:116 | the reviewers are two distinct services, neither of them the primary |
| Backends.ReviewersAreNonPrimary | core.py:116 | a service reviews exactly when it is not the primary, and the reviewers keep registration order |
| Backends.SuccessesPermutation | core.py:103 | the success count does not depend on the order in which threads finished |
| Backends.SuccessesOfRegistered | core.py:103 | the success count is the number of replies without the `Error:` prefix |
| Backends.AllSucceedIffNoError | core.py:103-106 | the count reaches 3 exactly when no reply is an error |
| Parsing.MatchHasFlankedSlash | core.py:44 | every match of `([\w\s]+)/([\w\s]+)` has a word-or-space character on both sides of its slash |
| Parsing.FindPair | core.py:44 | no match exactly when no `i, j, k` match; otherwise the match `re.search` reports: leftmost start, greedy second group |
| Parsing.ParseLanguages | core.py:43-45 | the two languages are both present or both `None` |
| Parsing.ParseLanguagesMatch | core.py:43-45 | `(None, None)` exactly when the title holds no match; otherwise the stripped groups of the leftmost match |
| Parsing.JobIdFromLink | core.py:47-49 | `None` exactly when no `/` is followed by a digit; otherwise the whole digit run after the leftmost such `/` |
| Parsing.LeadingDigits | core.py:236 | `^(\d+)`: `None` exactly when the name does not start with a digit; otherwise the maximal leading digit run |
| Parsing.Basename | core.py:133 | the base name is a suffix of the path, contains no `/`, and is the whole path or follows a `/` |
| Parsing.SplitExt | core.py:66 | `splitext`: stem and extension make up the name; the extension is empty or a dot followed by no dot, with a non-dot before it |
| Parsing.HotFolderTargetShape | core.py:141-143 | with `_to_` in the stem the target is a `_to_`-free tail that directly follows a `_to_`; without it, the default |
| Parsing.OverlappingMarkerExample | core.py:143 | `a_to_to_.txt` targets `to_`, as `split('_to_')[-1]` gives |
| Parsing.LanguagesExample | tests/test_app_helpers.py:11-14 | a smaller instance of the whitespace test: `"\| ja/ en"` gives `("ja", "en")` |
| Parsing.NoLanguagesExample | tests/test_app_helpers.py:16-19 | a title without a pair gives `(None, None)` |
| Parsing.JobIdExample | tests/test_app_helpers.py:23-26 | a smaller instance of the referral test: `t/jobs/12?r` gives `12` |
| Parsing.NoJobIdExample | tests/test_app_helpers.py:33-36 | a link ending in `/jobs/` gives `None` |
| Naming.OutputExtensionShape | core.py:68-77 | the output extension is a dot followed by at least one character, none of them `.`, `/` or `_`, so it cannot merge with the base name or the service |
| Naming.OutputNameSplits | core.py:64-79 | an output name is its own base name and splits into `<base>_<service>` and the chosen extension |
| Naming.OutputNamesDistinct | core.py:72 | the outputs of two services for the same source and job have different names |
| Naming.OutputNameOfJob | core.py:67 | with a non-empty job id the name starts with `job_<id>_<service>` |
| Naming.LegacyOutputNamesDistinct | app.py:115-129 | the three legacy outputs `job_<id>_<target>_<service>.txt` have different names |
| Storage.ProcessedLinks | core.py:51-53 | the processed set is exactly the stripped ledger lines |
| Storage.Workspace.LogProcessedJob | core.py:55-56 | appends the link to the ledger and changes nothing else |
| Storage.Workspace.AppendManifest | core.py:138-139 | appends the line to the manifest and changes nothing else |
| Storage.Workspace.WriteOutput | core.py:78 | replaces one output file and changes nothing else |
| Storage.Workspace.Invoke | core.py:92 | records the service calls and changes nothing else |
| Storage.Workspace.CopyToClipboard | core.py:221 | records the id copied and changes nothing else |
| Storage.Workspace.Claim | core.py:214 | adds the ids to the active set and changes nothing else |
| Storage.Workspace.Release | core.py:228 | removes the id from the active set and changes nothing else |
| Dispatch.DestinationNamesDistinct | core.py:64-79 | the three services of one job write three different files |
| Dispatch.SaveTranslationOutput | core.py:64-79 | writes the named file: plain text, or the regenerated document unless the regenerator returned an `Error:` status |
| Dispatch.WrittenExactlyKept | core.py:104-105 | a service's file is written exactly when its reply is not an error and saving it did not fail, and it holds that reply |
| Dispatch.SaveResultsIsUnion | core.py:104-105 | saving in thread order writes exactly the kept results over the previous outputs |
| Dispatch.SaveOrderIrrelevant | core.py:104-105 | the saved outputs do not depend on the order in which threads finished |
| Dispatch.SaveEach | core.py:163-167 | the saving loop writes exactly the kept results, and its counter ends at the number of successes |
| Dispatch.BuildReport | core.py:122-123 | the report built with `+=` is the source section, the primary section, then one section per finished critique |
| Dispatch.CritiqueSectionsAround | core.py:123 | each critique's section sits in the report between those of the critiques finished before and after it |
| Dispatch.ReportIncludesEveryCritique | core.py:122-123 | the report starts with the source and primary sections and contains every collected critique |
| Dispatch.ProcessCsvJob | core.py:82-127 | the job leaves the state `CsvJob` describes and returns the verdict it logs |
| Dispatch.CsvJobLogsOnce | core.py:127 | whatever the mode and outcome, the job appends its link to the ledger once, and leaves the active set, manifest and clipboard alone |
| Dispatch.RunModeFrame | core.py:90-125 | a mode changes only the service calls and the outputs |
| Dispatch.UnknownModeOnlyLogs | core.py:90-127 | with an unrecognised mode the job only logs its link |
| Dispatch.SimpleDispatch | core.py:90-94 | SIMPLE calls only the primary service and saves its result exactly when it is not an error |
| Dispatch.ParallelDispatch | core.py:96-105 | PARALLEL calls all three services and saves exactly the non-error results |
| Dispatch.ParallelVerdictClasses | core.py:103-107 | PARALLEL reports "all succeeded" exactly when no reply is an error, otherwise "partial", and that includes 0 of 3 |
| Dispatch.CritiqueAbortsOnPrimaryError | core.py:111-112 | CRITIQUE with an error from the primary requests no critique and writes no file |
| Dispatch.CritiqueReportsEveryReviewer | core.py:113-124 | CRITIQUE asks exactly the non-primary services to review; the report holds the source, the primary translation and every reviewer's critique, errors included |
| Dispatch.Classify | core.py:169-175 | all / partial / none: all when the count is the total, partial when between, none when 0 |
| Dispatch.ProcessHotFolderJob | core.py:131-177 | the ad-hoc job leaves the state `HotFolderJob` describes and returns the verdict it logs |
| Dispatch.HotFolderJobEffects | core.py:138-149 | the manifest line `<id>,<path>` is appended first; an `Error:` extraction changes nothing else; the ledger, active set and clipboard are never touched |
| Dispatch.HotFolderRunSaves | core.py:163-167 | a readable ad-hoc file gets exactly the non-error results saved under its job id |
| Dispatch.HotFolderVerdictClasses | core.py:147-175 | aborted exactly on an unreadable file; otherwise "all" exactly when no reply is an error and "none" exactly when all are |
| Ledger.NormalizedHeaders | core.py:205 | each header is stripped and lower-cased |
| Ledger.NewRowsAsWritten | core.py:211 | as written: a row is new exactly when its raw link is not among the stripped ledger lines |
| Ledger.NewRows | core.py:211 | corrected: a row is new exactly when its stripped link is not among the stripped ledger lines |
| Ledger.FiltersAgree | core.py:211 | when no feed link has surrounding whitespace, the filter as written and the corrected one select the same rows |
| Ledger.LoggedLinkNeverNew | core.py:211 | once a link is logged, no row with that link is new again |
| Ledger.PaddedLinkReannounced | core.py:211 | as written, a logged link with a leading space is still new; the corrected filter drops it |
| Ledger.PendingIds | core.py:213 | the pending ids are exactly the ids of the new rows, `None` discarded |
| Ledger.FirstWithPrefix | core.py:60-61 | the first listed name that starts with the id, or none when no name does |
| Ledger.MatchingUpload | core.py:58-62 | a path is found exactly when the directory exists and some name starts with the id |
| Ledger.FindJobFile | app.py:44-49 | the loop returns `uploads/<name>` for the first listed name that starts with the id, else `None` |
| Ledger.PrefixMatchExample | app.py:47 | job `123` takes `uploads/1234.txt`: the match is by prefix |
| Handshake.CoreJobLogsOnce | core.py:127 | `process_csv_job` logs its link exactly once and touches neither the active set, the manifest nor the clipboard |
| Handshake.Completed | core.py:216-224 | the rows before the first break complete, and the loop breaks at the row it reports |
| Handshake.StepEffects | core.py:216-228 | one row: the loop breaks exactly when the stop is set before the row, or during the wait of a row with an id; a resolved row logs its link once and releases its id; an id is copied unless the stop came first; the manifest is never touched |
| Handshake.StepsEffects | core.py:216-228 | the loop logs the links of the completed rows with ids, in order, releases their ids, and announces the ids of the rows it reached |
| Handshake.IdlessRowsChangeNothing | core.py:218-219 | rows whose link yields no id change nothing |
| Handshake.NoBreakCompletesAll | core.py:216-228 | without a stop every row completes |
| Handshake.PollWaits | core.py:202-212 | a missing, unreadable or malformed feed, or no row whose raw link is outside the stripped ledger, leaves the state unchanged |
| Handshake.PollEffects | core.py:211-228 | one poll, new rows chosen by raw link as written: ledger += links of completed rows with ids; active = (active + pending ids) − ids of completed rows; manifest unchanged; clipboard += announced ids |
| Handshake.HandleEffects | core.py:213-228 | the same for the handling of a non-empty list of new rows |
| Handshake.PollIdempotent | core.py:211-228 | for the loop as written: when no link that carries an id has surrounding whitespace, a poll without stops followed by another poll of the same feed changes nothing more |
| Handshake.PollCorrectedIdempotent | core.py:211-228 | for the corrected loop: a poll without stops followed by another poll of the same feed changes nothing more, whatever the links' whitespace |
| Handshake.PollsAgree | core.py:211-228 | when no feed link has surrounding whitespace, the loop as written and the corrected loop leave the same state |
| Handshake.PaddedLinkFacts | core.py:47-53 | the link `" /1"` carries id `1`, strips to `"/1"`, and is never among the stripped ledger lines |
| Handshake.HandleOne | core.py:216-228 | one new row with an id and no stop: its id is appended to the clipboard and its link to the ledger |
| Handshake.PaddedLinkReannouncedByPoll | core.py:211-228 | with `" /1"` already logged, the loop as written copies id `1` to the clipboard and logs `" /1"` again; the corrected loop leaves the state unchanged |
| Handshake.PollHandlesAll | core.py:216-228 | without a stop the poll as written logs the link of every new row with an id |
| Handshake.HandlesAll | core.py:216-228 | the same for the handling of the new rows |
| Handshake.IdlessPendingNothing | core.py:213 | rows without ids pre-register nothing |
| Handshake.LoggedAfterPoll | core.py:211-228 | after an uninterrupted poll as written every row with an id has its stripped link in the processed set, and its raw link too when the link has no surrounding whitespace |
| Handshake.LoggedAfterCorrectedPoll | core.py:211-228 | after an uninterrupted corrected poll every row with an id has its stripped link in the processed set |
| Handshake.PollOfIdless | core.py:211-212 | when the raw link of every row with an id is among the stripped ledger lines, the poll as written changes nothing |
| Handshake.PollCorrectedOfIdless | core.py:211-212 | when the stripped link of every row with an id is among the stripped ledger lines, the corrected poll changes nothing |
| Handshake.HandleIdless | core.py:213-219 | new rows without ids change nothing |
| Handshake.HotFolderEventIgnores | core.py:233-240 | the handler leaves the state alone exactly for directories and files whose leading digit run is a claimed id |
| Handshake.ClaimedWhileWaiting | core.py:211-240 | for the new rows as written: when the loop reaches row k, its id is still claimed, and a file named after it is ignored, exactly when no earlier new row with the same id has resolved |
| Handshake.ReleasedAfterResolving | core.py:224-240 | for the new rows as written: once row k has resolved, its id is no longer claimed and a file named after it is dispatched as an ad-hoc job |
| Handshake.LastResolvedReleased | core.py:228 | when every handled row resolved, the last row's id has been discarded from the active set |
| Handshake.LongerNumberName | core.py:236 | `uploads/1234.txt` has base name `1234.txt` and leading digits `1234` |
| Handshake.LongerNumberNotProtected | core.py:236-240 | with `123` claimed, `uploads/1234.txt` is the upload for job `123` and is still dispatched as an ad-hoc job |
| Handshake.PollOnce | core.py:202-228 | one iteration of the worker loop leaves the state `Poll` describes, the new rows chosen by raw link as core.py:211 does |
| Handshake.HandshakeRow | core.py:216-228 | the loop body for one row leaves the state `Step` describes and reports whether it broke |
| Handshake.OnCreated | core.py:233-240 | the handler leaves the state `HotFolderEvent` describes |
| Legacy.LegacyRunEffects | app.py:106-133 | GPT, Claude and Gemini are called in that order; each non-error reply is written to its `job_<id>_<target>_<service>.txt`; an error writes nothing; only the link reaches the ledger |
| Legacy.LegacyRunOutputs | app.py:113-131 | each service that did not answer with an error gets its output file holding its reply; an error leaves its name as it was; no other name changes |
| Legacy.LegacyJobLogsOnce | app.py:133 | the legacy job logs its link exactly once and touches neither the active set, the manifest nor the clipboard |
| Legacy.LegacyPollEffects | app.py:80-140 | one poll, new rows chosen by raw link as written, logs every new row with an id, claims and then releases all pending ids, and announces every id |
| Legacy.LegacyHandleEffects | app.py:87-140 | the same for the handling of a non-empty list of new rows |
| Legacy.LegacyPollIdempotent | app.py:80-140 | for the loop as written: when no link that carries an id has surrounding whitespace, a second poll of the same feed changes nothing more |
| Legacy.LegacyPollCorrectedIdempotent | app.py:80-140 | for the corrected loop: a second poll of the same feed changes nothing more, whatever the links' whitespace |
| Legacy.AdHocEventEffects | app.py:144-165 | the state is unchanged exactly for directories, claimed files and stems without `_to_`; otherwise one GPT call into the stem's target and `<stem>_translated_gpt.txt` written with the reply, errors included |
| Legacy.TranslateAndSave | app.py:113-117 | one service call, and its file written only when the reply is not an error |
| Legacy.ProcessLegacyJob | app.py:109-134 | a found job leaves the state `LegacyJob` describes |
| Legacy.RunLegacy | app.py:112-133 | the three service calls, their output files and the ledger line leave the state `LegacyRun` describes |
| Legacy.LegacyHandshakeRow | app.py:93-140 | the loop body leaves the state `Step` describes and never breaks |
| Legacy.LegacyPollOnce | app.py:80-140 | one iteration of the worker loop leaves the state `LegacyPoll` describes, the new rows chosen by raw link as app.py:81 does |
| Legacy.LegacyOnCreated | app.py:144-165 | the handler leaves the state `AdHocEvent` describes |
| Prompt.PutLookup | translators/utils.py:22 | after `d[key] = value` the key maps to the value, other keys keep theirs, and keys stay distinct |
| Prompt.PutPosition | translators/utils.py:22 | an existing key keeps its position; a new key goes to the end |
| Prompt.TermLines | translators/utils.py:19 | one `- "k" must be translated as "v"` line per glossary entry, in glossary order |
| Prompt.GlossarySection | translators/utils.py:17-20 | the section is empty exactly when the glossary is |
| Prompt.GlossarySectionShape | translators/utils.py:18-20 | a non-empty glossary's section starts with the header line, ends with a newline and contains every term line |
| Prompt.SubstituteSnoc | translators/utils.py:24-25 | each key is replaced over the result of the keys before it |
| Prompt.SubstituteAbsent | translators/utils.py:24-27 | a template containing none of the keys comes back unchanged |
| Prompt.ReplaceSingle | translators/utils.py:25 | a key that occurs once is replaced where it stands |
| Prompt.ReplaceEveryOccurrence | translators/utils.py:25 | every occurrence is replaced: the result joins the key-free pieces with the value |
| Prompt.FillOnce | translators/utils.py:25 | a key whose first character appears nowhere else is replaced in place |
| Prompt.FillExample | tests/test_prompt_generation.py:28 | `Text: {text}` becomes `Text: Translate this.` |
| Prompt.Placeholders.Set | translators/utils.py:22 | the dictionary assignment on the caller's object |
| Prompt.InjectedItemsEffects | translators/utils.py:22 | the caller's dict afterwards holds the section under `{glossary_section}`, last unless already present, and keeps every other entry |
| Prompt.GetPromptWithGlossary | translators/utils.py:11-27 | mutates the caller's dict as above and returns the template with the keys substituted one after another in dict order |
| Review.MatchAtMeaning | run_ui.py:34 | a match at `i` captures the longest class run after `job_` that is followed by `_`; there is none when no such run exists |
| Review.SearchFromLeftmost | run_ui.py:34 | `re.search` reports the capture of the leftmost position that matches |
| Review.GroupKeyLeftmost | run_ui.py:34-35 | a file's key is the capture of the leftmost match, and files with no match have none |
| Review.GroupOfJobName | run_ui.py:34-36 | `job_<key>_<tail>` is grouped under `key` when the tail has no `_` |
| Review.OutputGroupedByJob | run_ui.py:33-36 | every output file `save_translation_output` writes for job `id` is grouped under `id` |
| Review.CritiqueReportGroup | run_ui.py:34 | the critique report of job `id` is grouped under `id_CRITIQUE` |
| Review.HotFolderIdInClass | core.py:135 | a hot-folder id consists of class characters only |
| Review.GroupExample | run_ui.py:34 | `job_123_gpt.txt` is grouped under `123` |
| Review.HotFolderGroupExample | run_ui.py:34 | `job_hotfolder_1700_gpt.txt` is grouped under `hotfolder_1700` |
| Review.CritiqueGroupExample | run_ui.py:34 | `job_123_CRITIQUE_REPORT.md` is grouped under `123_CRITIQUE` |
| Review.GroupFilesByKey | run_ui.py:31-36 | a key is present exactly when some file has it, and lists exactly those files in listing order |
| Review.ParseManifestLineShape | run_ui.py:42-43 | a line is ignored exactly when it has no comma; otherwise id, comma and path make up the stripped line and the id has no comma |
| Review.ManifestLastWins | run_ui.py:41-44 | an id is in the manifest exactly when a line records it, with the path of its last such line |
| Review.ManifestRoundTrip | run_ui.py:43 | the line `<id>,<path>\n` written for an ad-hoc job reads back as `id -> path` when the id has no comma and nothing is padded |
| Review.HotFolderIdShape | core.py:135 | a hot-folder id has no comma and does not start with whitespace |
| Review.HotFolderManifestReadBack | run_ui.py:38-44 | after an ad-hoc job whose source path holds no `\n` or `\r` (run_ui.py:41 reads the file line by line, with universal newlines) and does not end in whitespace (run_ui.py:43 strips the line), the manifest file maps its id to its path |
| Review.BrokenPathReadsBackCut | run_ui.py:40-44 | a path with a newline in it reads back cut: the id maps to the part before the newline, and the rest, a line without a comma, is skipped |
| Review.GetJobData | run_ui.py:29-45 | returns the grouping of the outputs listing and the manifest read from the file; a missing directory or file gives an empty one |
| Review.CollectJobFiles | run_ui.py:31-36 | the loop builds exactly `GroupFiles` of the listing |
| Review.CollectManifest | run_ui.py:38-44 | the loop builds exactly `ReadManifest` of the lines |
| Review.FindSource | run_ui.py:47-61 | no file name exactly when the path is missing, empty or does not exist, and then `Source file not found.` |
| Review.FindSourceRouting | run_ui.py:50-56 | `hotfolder_` ids depend only on the manifest; other ids only on the uploads listing |
| Review.FindSourceFound | run_ui.py:50-60 | a found file's text is its content and its name the base name of its manifest path or of the first upload with the id as prefix |
| Review.FindSourceFile | run_ui.py:47-61 | the scan with `break` gives what `FindSource` describes |
| Fill.Pieces | regenerators/xlsx_regenerator.py:9 | the pieces are at least one, none contains a blank line, and joined by `\n\n` give the text back |
| Fill.Slot | regenerators/xlsx_regenerator.py:15-18 | an element takes a piece exactly when it is a candidate and fewer candidates than pieces come before it |
| Fill.SlotsInOrder | regenerators/xlsx_regenerator.py:16-18 | earlier candidates take earlier pieces, so no piece is used twice |
| Fill.PiecesUsed | regenerators/xlsx_regenerator.py:16-18 | exactly the first min(candidates, pieces) pieces are placed; the rest are dropped |
| Fill.StatusIsError | regenerators/xlsx_regenerator.py:20-23 | the status, `Successfully created <path>` or `Error: Failed to regenerate .<ext> file. <exception>`, starts with `Error:` exactly when the regeneration failed, for both regenerators |
| Xlsx.FilledCells | regenerators/xlsx_regenerator.py:12-18 | the k-th non-empty string cell takes piece k while pieces last; all other cells keep their value |
| Xlsx.FillCells | regenerators/xlsx_regenerator.py:12-18 | the loops change the workbook as `Filled` says, and `text_index` ends at min(candidates, pieces) |
| Xlsx.CreateXlsxFromText | regenerators/xlsx_regenerator.py:3-23 | a loaded workbook is filled with the pieces; the status is `Successfully created <path>` or the error message, an error exactly when loading or saving failed |
| Pptx.FilledShapes | regenerators/pptx_regenerator.py:15-20 | the k-th shape with a text frame, even an empty one, takes piece k while pieces last; the rest are unchanged |
| Pptx.FillShapes | regenerators/pptx_regenerator.py:15-20 | the loops change the deck as `Filled` says, and `para_index` ends at min(candidates, pieces) |
| Pptx.CreatePptxFromText | regenerators/pptx_regenerator.py:4-25 | an opened deck is filled with the pieces; the status is `Successfully created <path>` or the error message, an error exactly when opening or saving failed |

## Left out

- **Service calls.** GPT, Claude and Gemini requests go over the network.
  They are not modelled; each service's reply is an input. The same holds
  for text extraction (`fetchers/file_fetcher.py`) and
  `regenerators/docx_regenerator.py`.
- **Worker threads.** The threads of `process_csv_job` and
  `process_hot_folder_job` are replaced by the replies they collect and the
  order in which they finished.
- **Stop event and observer.**
  - The stop event is two booleans per row: set before the row, or set
    during the wait.
  - `folder_monitor_worker`, the watchdog observer, `time.sleep`, and the
    thread start-up of `run_service.py` and app.py's `__main__` are not
    modelled.
- **Configuration reload.** The reload at core.py:185-200 does not rebind
  the names core.py imported. The mode, the primary service and the
  default languages are therefore a fixed `Config` parameter.
- **Logging and signals.**
  - Log and console messages are not modelled. Only the outcome a job logs
    is kept, as a `Verdict`.
  - The UI reload signal file (core.py:129, core.py:177) is not modelled.
- **Clock.** The clock reading behind `hotfolder_<time>` is a parameter.
  Two ad-hoc files in the same second get the same id.
- **External libraries.** pandas, the filesystem and `os.path.exists`
  become inputs:
  - the feed is a `Feed` value;
  - directory listings are sequences in `os.listdir` order, with `None`
    for a missing directory;
  - the set of existing paths is given.
- **Ledger lines.** A ledger is read back line by line. A link that itself
  holds a newline would read back as two entries; this is not modelled.
  The ad-hoc manifest's line reading is modelled (`Review.ReadLines`), and
  a source path with a newline reads back cut
  (`Review.BrokenPathReadsBackCut`).
- **Regex character classes.** `\w` is ASCII letters, digits, `_` and every
  non-ASCII character that is not whitespace. Python's Unicode `\w` is
  `str.isalnum()` plus `_`, so it also excludes every non-ASCII character
  that is not alphanumeric (punctuation, symbols such as `€` and `©`,
  combining marks, C1 controls); the model accepts all of these. `\s` and `strip()` use the characters
  `str.isspace` accepts, the Unicode separators included (`Text.IsSpace`).
- Text.IsDigit: `\d` is the ASCII digits only. Python's Unicode `\d` also
  matches every other decimal digit, such as the Arabic-Indic `٣`, so a
  link such as `/٣` yields no id in the model but id `٣` in the source
  (`Parsing.JobIdFromLink`, `Parsing.LeadingDigits`).
- Text.Lower: lower-cases the ASCII letters only. Python's `lower()` also
  maps other letters, some onto ASCII ones: the Kelvin sign U+212A lowers
  to `k`, and U+0130 lowers to two characters. A header such as
  `LIN\u212a` is therefore a `link` column in the source but not in the
  model (`Ledger.NormalizedHeaders`, `Ledger.Usable`).
- **Exceptions that end a worker thread.** Each is outside the model,
  which has no raising outcome:
  - a title without a language pair gives `None` languages
    (core.py:43-45); the GPT translator then builds its prompt
    (translators/gpt_translator.py:11 and :23), and `str.replace` with a
    `None` value raises at translators/utils.py:25. In SIMPLE mode, and in
    CRITIQUE mode with GPT as primary, the feed worker dies; in PARALLEL
    mode the GPT thread dies and the job never reaches three results; in
    CRITIQUE mode with GPT as reviewer its section is missing; app.py:113
    kills app.py's worker. This holds for a text that is not blank; a
    blank one returns `""` first (translators/gpt_translator.py:10). The
    model passes `None` as a value and takes each reply as an input, so
    it runs such a job to completion (calls recorded, non-error replies
    saved, link logged) where the source's worker or thread dies;
  - an empty `link` cell is read as NaN, and `get_job_id_from_link`
    raises on it at core.py:213 (app.py:87); the model's links are
    strings;
  - an empty `title` cell is read as NaN, and `re.search` raises on it
    inside `parse_languages` (core.py:44, called at core.py:87; app.py:28,
    called at app.py:110), in every mode and before any service is
    called; the worker dies, the link is never logged and the ids claimed
    at core.py:214 stay in the active set. The model's titles are
    strings, and an empty one gives `(None, None)`;
  - an unknown `PRIMARY_MODEL` raises `KeyError` at core.py:92 and
    core.py:111; the model's primary service is one of the three services.
- Dispatch.CsvJobLogsOnce: holds for jobs that do not raise; a job that
  raises (above) logs nothing and ends the worker.
- Handshake.CoreJobLogsOnce: holds for jobs that do not raise; a job that
  raises (above), such as one with a NaN title, logs nothing and ends the worker.
- Legacy.LegacyJobLogsOnce: holds for jobs that do not raise; a NaN title
  (app.py:110) or a `None` language reaching the GPT prompt (app.py:113)
  raises, logs nothing and ends app.py's worker.
- Dispatch.ParallelVerdictClasses: holds for jobs in which no translator
  thread raises; a thread that raises leaves its service out of the
  count and of the outputs.
- Dispatch.CritiqueReportsEveryReviewer: holds for jobs in which no
  critique thread raises; a reviewer thread that raises has no section.
- Prompt.GetPromptWithGlossary: the placeholder values are strings; a
  `None` value, which raises at translators/utils.py:25, is not modelled.
- Handshake.PollIdempotent: for the loop as written it holds only when no
  link that carries an id has surrounding whitespace; a padded link is
  announced again on every poll (see "## Findings").
- Legacy.LegacyPollIdempotent: the same condition as
  `Handshake.PollIdempotent`, for app.py:81.
- **Glossary loading.** `load_glossary` (translators/utils.py:4-9) reads a
  JSON file. The glossary is an input. Malformed JSON, which raises at
  translators/utils.py:7, is not modelled.
- **Prompt template.** Reading the template file is I/O. The template
  text is an input.
- **Review page.** The Streamlit page (run_ui.py:16-25 and
  run_ui.py:64-113) is not modelled. Neither is the cache of
  `get_job_data`. The text of the found source file is an input to
  `Review.FindSource`.
- Xlsx.CreateXlsxFromText: the workbook's nesting (sheets, rows, cells) is
  flattened into one array in visiting order. The library can raise only
  when loading or saving; an exception in the middle of the loop, after
  some cells were already assigned, is not modelled.
- Pptx.CreatePptxFromText: slides and their shape trees are flattened into
  one array in visiting order, and a shape's text frame into one string.
  As with the workbook, only loading and saving can fail.
- **Examples.** `Parsing.LanguagesExample` and `Parsing.JobIdExample` use
  shorter strings than the repository's tests. They exercise the same
  cases: a pair after `|` with padding, and digits ended by a query string.
  The tests' own strings are covered by the general lemmas
  `Parsing.ParseLanguagesMatch` and `Parsing.JobIdFromLink`.

## Findings

| source | as written | input that shows it | evidently intended | confidence | as-written member | corrected member |
|---|---|---|---|---|---|---|
| core.py:211 | new rows are those whose raw `link` is not among the ledger lines, which `get_processed_jobs` strips (core.py:53; app.py:80-81 is the same) | a feed link `" /1"` that was logged as `" /1"`: the stripped ledger holds `"/1"`, so the row is announced and processed again on every poll | a logged link is never new again, so the link is compared after stripping | not executed | Ledger.NewRowsAsWritten, Ledger.PaddedLinkReannounced, Handshake.Poll, Handshake.PollOnce, Handshake.PaddedLinkReannouncedByPoll, Legacy.LegacyPollOnce | Ledger.NewRows, Ledger.LoggedLinkNeverNew, Handshake.PollCorrected, Handshake.PollCorrectedIdempotent, Legacy.LegacyPollCorrectedIdempotent |
