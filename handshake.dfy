/** One iteration of `csv_handshake_worker` and the hot-folder handler of
    core.py (core.py:180-240). The ids of the new feed rows are claimed,
    then each row is announced, waited for and resolved in turn, until the
    stop event is seen. app.py's worker runs the same loop without a stop
    event and with its own job (module Legacy). */
module Handshake {
  import opened Text
  import opened Parsing
  import opened Storage
  import opened Dispatch
  import opened Ledger

  /** What the world does around one new feed row: whether the stop event
      is set when the row comes up (core.py:217) and after the wait
      (core.py:224), what the uploads directory lists after the wait, and
      what the services answer if the job runs. */
  datatype Reaction = Reaction(stopBefore: bool, stopDuring: bool, uploads: Option<seq<string>>, outcomes: Outcomes)

  /** What processing a found job does: from the state, the feed row, its
      job id, the path of its upload and the services' answers, the new
      state. */
  type Job = (State, FeedRow, string, string, Outcomes) -> State

  /** A job logs its row's link once and touches neither the claimed ids,
      the clipboard nor the manifest. */
  ghost predicate LogsOnce(job: Job) {
    forall s: State, row: FeedRow, id: string, path: string, o: Outcomes ::
      && job(s, row, id, path, o).ledger == s.ledger + [row.link]
      && job(s, row, id, path, o).active == s.active
      && job(s, row, id, path, o).clipboard == s.clipboard
      && job(s, row, id, path, o).manifest == s.manifest
  }

  /** The loop breaks at this row. */
  predicate Breaks(row: FeedRow, r: Reaction) {
    r.stopBefore || (JobIdFromLink(row.link).Some? && r.stopDuring)
  }

  /** The row is resolved: found and processed, or timed out. */
  predicate Resolves(row: FeedRow, r: Reaction) {
    !r.stopBefore && JobIdFromLink(row.link).Some? && !r.stopDuring
  }

  /** The loop body for one row (core.py:217-228): the new state, and
      whether the loop broke. A row without id is skipped; a found upload
      is processed by `job`, which logs the link; otherwise the job counts
      as rejected and only its link is logged; either way its id is then
      given up. */
  function Step(st: State, row: FeedRow, r: Reaction, job: Job): (State, bool) {
    if r.stopBefore then (st, true)
    else
      match JobIdFromLink(row.link)
      case None => (st, false)
      case Some(id) =>
        var st1 := st.(clipboard := st.clipboard + [id]);
        if r.stopDuring then (st1, true)
        else
          var st2 := match MatchingUpload(r.uploads, id)
                     case Some(path) => job(st1, row, id, path, r.outcomes)
                     case None => st1.(ledger := st1.ledger + [row.link]);
          (st2.(active := st2.active - {id}), false)
  }

  /** The loop over the new rows; `rs[k]` is the reaction to `rows[k]`. */
  function Steps(st: State, rows: seq<FeedRow>, rs: seq<Reaction>, job: Job): (State, bool)
    requires |rows| <= |rs|
  {
    if |rows| == 0 then (st, false)
    else
      var before := Steps(st, rows[..|rows| - 1], rs, job);
      if before.1 then before else Step(before.0, rows[|rows| - 1], rs[|rows| - 1], job)
  }

  /** One iteration of the worker loop, after the configuration check: an
      unusable feed only waits; otherwise its new rows, selected by the raw
      link as core.py:211 does, are handled. */
  function Poll(st: State, feed: Feed, rs: seq<Reaction>, job: Job): State
    requires feed.Table? ==> |feed.rows| <= |rs|
  {
    if !Usable(feed) then st else Handle(st, NewRowsAsWritten(feed.rows, st.ledger), rs, job)
  }

  /** The same iteration with the new rows selected by the stripped link,
      as the ledger is read. */
  function PollCorrected(st: State, feed: Feed, rs: seq<Reaction>, job: Job): State
    requires feed.Table? ==> |feed.rows| <= |rs|
  {
    if !Usable(feed) then st else Handle(st, NewRows(feed.rows, st.ledger), rs, job)
  }

  /** Without new rows the worker only waits; otherwise every id of the new
      rows is claimed before the first handshake. */
  function Handle(st: State, incoming: seq<FeedRow>, rs: seq<Reaction>, job: Job): State
    requires |incoming| <= |rs|
  {
    if |incoming| == 0 then st
    else Steps(st.(active := st.active + PendingIds(incoming)), incoming, rs, job).0
  }

  /** `process_csv_job` as the worker's job. */
  function CoreJob(cfg: Config): Job {
    (s: State, row: FeedRow, id: string, path: string, o: Outcomes) => CsvJob(s, row.link, row.title, path, cfg, o)
  }

  lemma {:induction false} CoreJobLogsOnce(cfg: Config)
    ensures LogsOnce(CoreJob(cfg))
  {
    forall s: State, row: FeedRow, id: string, path: string, o: Outcomes {
      CsvJobLogsOnce(s, row.link, row.title, path, cfg, o);
    }
  }

  // ---------------------------------------------------------------------
  // A reference description of the loop's effect
  // ---------------------------------------------------------------------

  /** How many rows are handled before the loop breaks. */
  function Completed(rows: seq<FeedRow>, rs: seq<Reaction>): (n: nat)
    requires |rows| <= |rs|
    ensures n <= |rows|
    ensures forall k :: 0 <= k < n ==> !Breaks(rows[k], rs[k])
    ensures n < |rows| ==> Breaks(rows[n], rs[n])
  {
    if |rows| == 0 then 0
    else
      var m := Completed(rows[..|rows| - 1], rs);
      if m < |rows| - 1 then m
      else if Breaks(rows[|rows| - 1], rs[|rows| - 1]) then |rows| - 1
      else |rows|
  }

  function RowLink(row: FeedRow): seq<string> {
    if JobIdFromLink(row.link).Some? then [row.link] else []
  }

  function RowId(row: FeedRow): seq<string> {
    match JobIdFromLink(row.link)
    case Some(id) => [id]
    case None => []
  }

  function RowIdSet(row: FeedRow): set<string> {
    match JobIdFromLink(row.link)
    case Some(id) => {id}
    case None => {}
  }

  /** The links of the rows that carry a job id, in order. */
  function LinksWithIds(rows: seq<FeedRow>): seq<string> {
    if |rows| == 0 then [] else LinksWithIds(rows[..|rows| - 1]) + RowLink(rows[|rows| - 1])
  }

  /** The job ids of the rows that carry one, in order. */
  function IdsOf(rows: seq<FeedRow>): seq<string> {
    if |rows| == 0 then [] else IdsOf(rows[..|rows| - 1]) + RowId(rows[|rows| - 1])
  }

  /** The set of those ids. */
  function IdSet(rows: seq<FeedRow>): set<string> {
    if |rows| == 0 then {} else IdSet(rows[..|rows| - 1]) + RowIdSet(rows[|rows| - 1])
  }

  /** The rows whose id was copied to the clipboard: the handled ones, and
      the row whose wait the stop event interrupted. */
  function Announced(rows: seq<FeedRow>, rs: seq<Reaction>): seq<FeedRow>
    requires |rows| <= |rs|
  {
    var n := Completed(rows, rs);
    if n < |rows| && !rs[n].stopBefore then rows[..n + 1] else rows[..n]
  }

  /** A set of ids is the ids some row carries. */
  lemma {:induction false} IdSetMembers(rows: seq<FeedRow>, id: string)
    ensures id in IdSet(rows) <==> exists k :: 0 <= k < |rows| && JobIdFromLink(rows[k].link) == Some(id)
    decreases |rows|
  {
    if |rows| > 0 {
      var init := rows[..|rows| - 1];
      IdSetMembers(init, id);
      if id in IdSet(rows) {
        if id in IdSet(init) {
          var k :| 0 <= k < |init| && JobIdFromLink(init[k].link) == Some(id);
          assert rows[k] == init[k];
        } else {
          assert JobIdFromLink(rows[|rows| - 1].link) == Some(id);
        }
      } else {
        forall k | 0 <= k < |rows| ensures JobIdFromLink(rows[k].link) != Some(id) {
          if k < |init| {
            assert rows[k] == init[k];
          }
        }
      }
    }
  }

  /** Every row with an id has its link among the links with ids. */
  lemma {:induction false} LinkListed(rows: seq<FeedRow>, k: nat)
    requires k < |rows| && JobIdFromLink(rows[k].link).Some?
    ensures rows[k].link in LinksWithIds(rows)
    decreases |rows|
  {
    var init := rows[..|rows| - 1];
    if k < |init| {
      LinkListed(init, k);
      assert init[k] == rows[k];
    }
  }

  /** One step in terms of the reference description. */
  lemma {:induction false} StepEffects(st: State, row: FeedRow, r: Reaction, job: Job)
    requires LogsOnce(job)
    ensures var s := Step(st, row, r, job);
            && s.1 == Breaks(row, r)
            && s.0.manifest == st.manifest
            && s.0.ledger == st.ledger + (if Resolves(row, r) then RowLink(row) else [])
            && s.0.active == st.active - (if Resolves(row, r) then RowIdSet(row) else {})
            && s.0.clipboard == st.clipboard + (if r.stopBefore then [] else RowId(row))
  {
  }

  /** The effect `s` of the loop over `rows`, from `st`, as the reference
      description states it: every handled row that carries an id appends
      its link once and gives up its id; rows without id leave no trace;
      the loop breaks exactly at the first row where the stop event is
      seen; the manifest is untouched. */
  ghost predicate Accounts(st: State, rows: seq<FeedRow>, rs: seq<Reaction>, s: (State, bool))
    requires |rows| <= |rs|
  {
    var done := rows[..Completed(rows, rs)];
    && (s.1 <==> Completed(rows, rs) < |rows|)
    && s.0.manifest == st.manifest
    && s.0.ledger == st.ledger + LinksWithIds(done)
    && s.0.active == st.active - IdSet(done)
    && s.0.clipboard == st.clipboard + IdsOf(Announced(rows, rs))
  }

  /** The loop does what the reference description says. */
  lemma {:induction false} StepsEffects(st: State, rows: seq<FeedRow>, rs: seq<Reaction>, job: Job)
    requires |rows| <= |rs| && LogsOnce(job)
    ensures Accounts(st, rows, rs, Steps(st, rows, rs, job))
    decreases |rows|
  {
    if |rows| == 0 {
      assert rows[..0] == [];
    } else {
      var init := rows[..|rows| - 1];
      StepsEffects(st, init, rs, job);
      if Completed(init, rs) < |init| {
        StepsAfterBreak(st, rows, rs, job);
      } else {
        StepsLastRow(st, rows, rs, job);
      }
    }
  }

  /** The inductive step of `StepsEffects` when the loop broke before the
      last row: the last row changes nothing. */
  lemma {:induction false} StepsAfterBreak(st: State, rows: seq<FeedRow>, rs: seq<Reaction>, job: Job)
    requires 0 < |rows| <= |rs|
    requires Completed(rows[..|rows| - 1], rs) < |rows| - 1
    requires Accounts(st, rows[..|rows| - 1], rs, Steps(st, rows[..|rows| - 1], rs, job))
    ensures Accounts(st, rows, rs, Steps(st, rows, rs, job))
  {
    var init := rows[..|rows| - 1];
    var m := Completed(init, rs);
    assert Steps(st, init, rs, job).1;
    assert Steps(st, rows, rs, job) == Steps(st, init, rs, job);
    assert Completed(rows, rs) == m;
    assert rows[..m] == init[..m];
    assert rows[..m + 1] == init[..m + 1];
    assert Announced(rows, rs) == Announced(init, rs);
  }

  /** The inductive step of `StepsEffects` when every earlier row was
      handled. */
  lemma {:induction false} StepsLastRow(st: State, rows: seq<FeedRow>, rs: seq<Reaction>, job: Job)
    requires 0 < |rows| <= |rs| && LogsOnce(job)
    requires Completed(rows[..|rows| - 1], rs) == |rows| - 1
    requires Accounts(st, rows[..|rows| - 1], rs, Steps(st, rows[..|rows| - 1], rs, job))
    ensures Accounts(st, rows, rs, Steps(st, rows, rs, job))
  {
    var n := |rows|;
    var init := rows[..n - 1];
    assert init[..n - 1] == init;
    assert Announced(init, rs) == init;
    var before := Steps(st, init, rs, job);
    assert !before.1;
    assert Steps(st, rows, rs, job) == Step(before.0, rows[n - 1], rs[n - 1], job);
    assert rows[..n] == rows;
    if Breaks(rows[n - 1], rs[n - 1]) {
      LastRowBreaks(st, rows, rs, before.0, job);
    } else {
      LastRowContinues(st, rows, rs, before.0, job);
    }
  }

  /** The last row, on which the loop breaks, after every earlier row was
      handled. */
  lemma {:induction false} LastRowBreaks(st: State, rows: seq<FeedRow>, rs: seq<Reaction>, before: State, job: Job)
    requires 0 < |rows| <= |rs|
    requires Completed(rows[..|rows| - 1], rs) == |rows| - 1 && Breaks(rows[|rows| - 1], rs[|rows| - 1])
    requires var init := rows[..|rows| - 1];
             && before.manifest == st.manifest && before.ledger == st.ledger + LinksWithIds(init)
             && before.active == st.active - IdSet(init) && before.clipboard == st.clipboard + IdsOf(init)
    ensures Accounts(st, rows, rs, Step(before, rows[|rows| - 1], rs[|rows| - 1], job))
  {
    var n := |rows|;
    var init := rows[..n - 1];
    var row, r := rows[n - 1], rs[n - 1];
    assert Completed(rows, rs) == n - 1;
    StepBreaks(st, before, row, r, job, LinksWithIds(init), IdSet(init), IdsOf(init));
    if r.stopBefore {
      assert Announced(rows, rs) == init;
    } else {
      assert rows[..n] == rows;
      assert Announced(rows, rs) == rows;
      assert IdsOf(rows) == IdsOf(init) + RowId(row);
    }
  }

  /** The last row, which does not break the loop, after every earlier row
      was handled. */
  lemma {:induction false} LastRowContinues(st: State, rows: seq<FeedRow>, rs: seq<Reaction>, before: State, job: Job)
    requires 0 < |rows| <= |rs| && LogsOnce(job)
    requires Completed(rows[..|rows| - 1], rs) == |rows| - 1 && !Breaks(rows[|rows| - 1], rs[|rows| - 1])
    requires var init := rows[..|rows| - 1];
             && before.manifest == st.manifest && before.ledger == st.ledger + LinksWithIds(init)
             && before.active == st.active - IdSet(init) && before.clipboard == st.clipboard + IdsOf(init)
    ensures Accounts(st, rows, rs, Step(before, rows[|rows| - 1], rs[|rows| - 1], job))
  {
    var n := |rows|;
    var init := rows[..n - 1];
    var row, r := rows[n - 1], rs[n - 1];
    assert Completed(rows, rs) == n;
    assert rows[..n] == rows;
    assert Announced(rows, rs) == rows;
    assert LinksWithIds(rows) == LinksWithIds(init) + RowLink(row);
    assert IdSet(rows) == IdSet(init) + RowIdSet(row);
    assert IdsOf(rows) == IdsOf(init) + RowId(row);
    StepContinues(st, before, row, r, job, LinksWithIds(init), IdSet(init), IdsOf(init));
  }

  /** A row at which the loop breaks logs nothing and gives up no id. */
  lemma {:induction false} StepBreaks(st: State, before: State, row: FeedRow, r: Reaction, job: Job,
                   links: seq<string>, ids: set<string>, clip: seq<string>)
    requires Breaks(row, r)
    requires before.manifest == st.manifest && before.ledger == st.ledger + links
    requires before.active == st.active - ids && before.clipboard == st.clipboard + clip
    ensures var s := Step(before, row, r, job);
            && s.1
            && s.0.manifest == st.manifest
            && s.0.ledger == st.ledger + links
            && s.0.active == st.active - ids
            && s.0.clipboard == st.clipboard + clip + (if r.stopBefore then [] else RowId(row))
  {
  }

  /** A row at which the loop goes on logs its link and gives up its id,
      if it has one. */
  lemma {:induction false} StepContinues(st: State, before: State, row: FeedRow, r: Reaction, job: Job,
                      links: seq<string>, ids: set<string>, clip: seq<string>)
    requires !Breaks(row, r) && LogsOnce(job)
    requires before.manifest == st.manifest && before.ledger == st.ledger + links
    requires before.active == st.active - ids && before.clipboard == st.clipboard + clip
    ensures var s := Step(before, row, r, job);
            && !s.1
            && s.0.manifest == st.manifest
            && s.0.ledger == st.ledger + (links + RowLink(row))
            && s.0.active == st.active - (ids + RowIdSet(row))
            && s.0.clipboard == st.clipboard + (clip + RowId(row))
  {
    StepEffects(before, row, r, job);
  }

  /** Rows without a job id change nothing, whatever happens around them. */
  lemma {:induction false} IdlessRowsChangeNothing(st: State, rows: seq<FeedRow>, rs: seq<Reaction>, job: Job)
    requires |rows| <= |rs|
    requires forall k :: 0 <= k < |rows| ==> JobIdFromLink(rows[k].link).None?
    ensures Steps(st, rows, rs, job).0 == st
    decreases |rows|
  {
    if |rows| > 0 {
      IdlessRowsChangeNothing(st, rows[..|rows| - 1], rs, job);
    }
  }

  /** Every row before the break point is handled. */
  lemma {:induction false} CompletedOfPrefix(rows: seq<FeedRow>, rs: seq<Reaction>, k: nat)
    requires |rows| <= |rs| && k <= Completed(rows, rs)
    ensures Completed(rows[..k], rs) == k
    decreases k
  {
    if k > 0 {
      CompletedOfPrefix(rows, rs, k - 1);
      assert rows[..k][..k - 1] == rows[..k - 1];
      assert rows[..k][k - 1] == rows[k - 1];
    }
  }

  /** Without a stop, every row is handled. */
  lemma {:induction false} NoBreakCompletesAll(rows: seq<FeedRow>, rs: seq<Reaction>)
    requires |rows| <= |rs|
    requires forall k :: 0 <= k < |rs| ==> !rs[k].stopBefore && !rs[k].stopDuring
    ensures Completed(rows, rs) == |rows|
    decreases |rows|
  {
    if |rows| > 0 {
      NoBreakCompletesAll(rows[..|rows| - 1], rs);
    }
  }

  // ---------------------------------------------------------------------
  // Properties of one poll
  // ---------------------------------------------------------------------

  /** A missing, unreadable or malformed feed, or one without new rows,
      leaves everything as it was. */
  lemma {:induction false} PollWaits(st: State, feed: Feed, rs: seq<Reaction>, job: Job)
    requires feed.Table? ==> |feed.rows| <= |rs|
    requires !Usable(feed) || |NewRowsAsWritten(feed.rows, st.ledger)| == 0
    ensures Poll(st, feed, rs, job) == st
  {
  }

  /** A poll appends to the ledger the links of the handled rows that carry
      an id, in order, and leaves claimed exactly the ids it claimed that no
      handled row gave up. */
  lemma {:induction false} PollEffects(st: State, feed: Feed, rs: seq<Reaction>, job: Job)
    requires feed.Table? ==> |feed.rows| <= |rs|
    requires Usable(feed) && |NewRowsAsWritten(feed.rows, st.ledger)| > 0 && LogsOnce(job)
    ensures var incoming := NewRowsAsWritten(feed.rows, st.ledger);
            var done := incoming[..Completed(incoming, rs)];
            var r := Poll(st, feed, rs, job);
            && r.ledger == st.ledger + LinksWithIds(done)
            && r.active == (st.active + PendingIds(incoming)) - IdSet(done)
            && r.manifest == st.manifest
            && r.clipboard == st.clipboard + IdsOf(Announced(incoming, rs))
  {
    HandleEffects(st, NewRowsAsWritten(feed.rows, st.ledger), rs, job);
  }

  /** `PollEffects` for the new rows themselves. */
  lemma {:induction false} HandleEffects(st: State, incoming: seq<FeedRow>, rs: seq<Reaction>, job: Job)
    requires 0 < |incoming| <= |rs| && LogsOnce(job)
    ensures var done := incoming[..Completed(incoming, rs)];
            var r := Handle(st, incoming, rs, job);
            && r.ledger == st.ledger + LinksWithIds(done)
            && r.active == (st.active + PendingIds(incoming)) - IdSet(done)
            && r.manifest == st.manifest
            && r.clipboard == st.clipboard + IdsOf(Announced(incoming, rs))
  {
    StepsEffects(st.(active := st.active + PendingIds(incoming)), incoming, rs, job);
  }

  /** A poll in which the stop event is never seen handles every new row,
      so a second poll of the same feed announces nothing and changes
      nothing, provided no link that carries an id has surrounding
      whitespace: such a link never matches its stripped ledger line and
      is announced again on every poll (`PaddedLinkReannouncedByPoll`). */
  lemma {:induction false} PollIdempotent(st: State, feed: Feed, rs: seq<Reaction>, rs2: seq<Reaction>, job: Job)
    requires feed.Table? ==> |feed.rows| <= |rs| && |feed.rows| <= |rs2|
    requires forall k :: 0 <= k < |rs| ==> !rs[k].stopBefore && !rs[k].stopDuring
    requires feed.Table? ==> forall row :: row in feed.rows && JobIdFromLink(row.link).Some? ==> Strip(row.link) == row.link
    requires LogsOnce(job)
    ensures Poll(Poll(st, feed, rs, job), feed, rs2, job) == Poll(st, feed, rs, job)
  {
    var st1 := Poll(st, feed, rs, job);
    if Usable(feed) && |NewRowsAsWritten(feed.rows, st.ledger)| > 0 {
      var incoming := NewRowsAsWritten(feed.rows, st.ledger);
      PollHandlesAll(st, feed, rs, job);
      forall row | row in feed.rows && JobIdFromLink(row.link).Some?
        ensures row.link in ProcessedLinks(st1.ledger)
      {
        LoggedAfterPoll(st.ledger, feed, incoming, row);
      }
      PollOfIdless(st1, feed, rs2, job);
    }
  }

  /** With the corrected filter a poll in which the stop event is never
      seen is idempotent whatever whitespace the links carry. */
  lemma {:induction false} PollCorrectedIdempotent(st: State, feed: Feed, rs: seq<Reaction>, rs2: seq<Reaction>, job: Job)
    requires feed.Table? ==> |feed.rows| <= |rs| && |feed.rows| <= |rs2|
    requires forall k :: 0 <= k < |rs| ==> !rs[k].stopBefore && !rs[k].stopDuring
    requires LogsOnce(job)
    ensures PollCorrected(PollCorrected(st, feed, rs, job), feed, rs2, job) == PollCorrected(st, feed, rs, job)
  {
    var st1 := PollCorrected(st, feed, rs, job);
    if Usable(feed) && |NewRows(feed.rows, st.ledger)| > 0 {
      var incoming := NewRows(feed.rows, st.ledger);
      HandlesAll(st, incoming, rs, job);
      forall row | row in feed.rows && JobIdFromLink(row.link).Some?
        ensures Strip(row.link) in ProcessedLinks(st1.ledger)
      {
        LoggedAfterCorrectedPoll(st.ledger, feed, incoming, row);
      }
      PollCorrectedOfIdless(st1, feed, rs2, job);
    }
  }

  /** Without padded links the loop as written and the corrected one do
      the same. */
  lemma {:induction false} PollsAgree(st: State, feed: Feed, rs: seq<Reaction>, job: Job)
    requires feed.Table? ==> |feed.rows| <= |rs|
    requires feed.Table? ==> Unpadded(feed.rows)
    ensures Poll(st, feed, rs, job) == PollCorrected(st, feed, rs, job)
  {
    if Usable(feed) {
      FiltersAgree(feed.rows, st.ledger);
    }
  }

  /** The link ` /1` carries the id `1` and strips to `/1`, which no
      ledger line strips to ` /1`. */
  lemma PaddedLinkFacts(ledger: seq<string>)
    ensures JobIdFromLink(" /1") == Some("1")
    ensures Strip(" /1") == "/1"
    ensures " /1" !in ProcessedLinks(ledger)
  {
    assert JobIdFromLink(" /1") == Some("1") by {
      assert FirstSlashThenDigit(" /1", 0) == Some(1);
      assert DigitRunEnd(" /1", 2) == 3;
      assert " /1"[2..3] == "1";
    }
    assert Strip(" /1") == "/1" by {
      assert SkipSpace(" /1", 0) == 1;
      assert TrimEnd(" /1", 1, 3) == 3;
    }
  }

  /** One new row with an id, not stopped at: its id is copied to the
      clipboard and its link logged. */
  lemma {:induction false} HandleOne(st: State, row: FeedRow, rs: seq<Reaction>, job: Job)
    requires JobIdFromLink(row.link).Some?
    requires |rs| >= 1 && !rs[0].stopBefore && !rs[0].stopDuring && LogsOnce(job)
    ensures Handle(st, [row], rs, job).clipboard == st.clipboard + [JobIdFromLink(row.link).value]
    ensures Handle(st, [row], rs, job).ledger == st.ledger + [row.link]
  {
    var s1 := st.(active := st.active + PendingIds([row]));
    assert [row][..0] == [];
    assert Steps(s1, [row], rs, job) == Step(s1, row, rs[0], job);
  }

  /** A feed row whose link is ` /1`, already in the ledger as ` /1`, is
      announced and logged again by the loop as written, while the
      corrected loop skips it. */
  lemma {:induction false} PaddedLinkReannouncedByPoll(st: State, feed: Feed, rs: seq<Reaction>, job: Job)
    requires Usable(feed) && feed.rows == [FeedRow(" /1", "t")] && " /1" in st.ledger
    requires |rs| >= 1 && !rs[0].stopBefore && !rs[0].stopDuring && LogsOnce(job)
    ensures Poll(st, feed, rs, job).clipboard == st.clipboard + ["1"]
    ensures Poll(st, feed, rs, job).ledger == st.ledger + [" /1"]
    ensures PollCorrected(st, feed, rs, job) == st
  {
    PaddedLinkFacts(st.ledger);
    assert NewRowsAsWritten(feed.rows, st.ledger) == feed.rows by {
      assert feed.rows[..0] == [];
    }
    HandleOne(st, FeedRow(" /1", "t"), rs, job);
    var q :| 0 <= q < |st.ledger| && st.ledger[q] == " /1";
    assert Strip(st.ledger[q]) == "/1";
    PollCorrectedOfIdless(st, feed, rs, job);
  }

  /** A poll in which the stop event is never seen logs the link of every
      new row that carries an id. */
  lemma {:induction false} PollHandlesAll(st: State, feed: Feed, rs: seq<Reaction>, job: Job)
    requires feed.Table? ==> |feed.rows| <= |rs|
    requires forall k :: 0 <= k < |rs| ==> !rs[k].stopBefore && !rs[k].stopDuring
    requires Usable(feed) && |NewRowsAsWritten(feed.rows, st.ledger)| > 0 && LogsOnce(job)
    ensures Poll(st, feed, rs, job).ledger == st.ledger + LinksWithIds(NewRowsAsWritten(feed.rows, st.ledger))
  {
    HandlesAll(st, NewRowsAsWritten(feed.rows, st.ledger), rs, job);
  }

  lemma {:induction false} HandlesAll(st: State, incoming: seq<FeedRow>, rs: seq<Reaction>, job: Job)
    requires 0 < |incoming| <= |rs| && LogsOnce(job)
    requires forall k :: 0 <= k < |rs| ==> !rs[k].stopBefore && !rs[k].stopDuring
    ensures Handle(st, incoming, rs, job).ledger == st.ledger + LinksWithIds(incoming)
  {
    HandleEffects(st, incoming, rs, job);
    NoBreakCompletesAll(incoming, rs);
    assert incoming[..|incoming|] == incoming;
  }

  /** Rows without an id claim nothing. */
  lemma {:induction false} IdlessPendingNothing(rows: seq<FeedRow>)
    requires forall k :: 0 <= k < |rows| ==> JobIdFromLink(rows[k].link).None?
    ensures PendingIds(rows) == {}
  {
  }

  /** After a poll that handled every new row, every feed row that carries
      an id is in the ledger; the raw link matches its ledger line when it
      has no surrounding whitespace. */
  lemma {:induction false} LoggedAfterPoll(ledger: seq<string>, feed: Feed, incoming: seq<FeedRow>, row: FeedRow)
    requires feed.Table? && incoming == NewRowsAsWritten(feed.rows, ledger)
    requires row in feed.rows && JobIdFromLink(row.link).Some?
    ensures Strip(row.link) in ProcessedLinks(ledger + LinksWithIds(incoming))
    ensures Strip(row.link) == row.link ==> row.link in ProcessedLinks(ledger + LinksWithIds(incoming))
  {
    var links := LinksWithIds(incoming);
    if row.link in ProcessedLinks(ledger) {
      var q :| 0 <= q < |ledger| && row.link == Strip(ledger[q]);
      StripIdempotent(ledger[q]);
      assert (ledger + links)[q] == ledger[q];
    } else {
      assert row in incoming;
      var q :| 0 <= q < |incoming| && incoming[q] == row;
      LinkListed(incoming, q);
      var w :| 0 <= w < |links| && links[w] == row.link;
      assert (ledger + links)[|ledger| + w] == row.link;
    }
  }

  /** `LoggedAfterPoll` for the corrected filter. */
  lemma {:induction false} LoggedAfterCorrectedPoll(ledger: seq<string>, feed: Feed, incoming: seq<FeedRow>, row: FeedRow)
    requires feed.Table? && incoming == NewRows(feed.rows, ledger)
    requires row in feed.rows && JobIdFromLink(row.link).Some?
    ensures Strip(row.link) in ProcessedLinks(ledger + LinksWithIds(incoming))
  {
    var links := LinksWithIds(incoming);
    if Strip(row.link) in ProcessedLinks(ledger) {
      var q :| 0 <= q < |ledger| && Strip(row.link) == Strip(ledger[q]);
      assert (ledger + links)[q] == ledger[q];
    } else {
      assert row in incoming;
      var q :| 0 <= q < |incoming| && incoming[q] == row;
      LinkListed(incoming, q);
      var w :| 0 <= w < |links| && links[w] == row.link;
      assert (ledger + links)[|ledger| + w] == row.link;
    }
  }

  /** A poll whose new rows all lack an id changes nothing. */
  lemma {:induction false} PollOfIdless(st: State, feed: Feed, rs: seq<Reaction>, job: Job)
    requires feed.Table? ==> |feed.rows| <= |rs|
    requires feed.Table? ==> forall row :: row in feed.rows && JobIdFromLink(row.link).Some? ==> row.link in ProcessedLinks(st.ledger)
    ensures Poll(st, feed, rs, job) == st
  {
    if Usable(feed) {
      var incoming := NewRowsAsWritten(feed.rows, st.ledger);
      assert forall k :: 0 <= k < |incoming| ==> incoming[k] in feed.rows && JobIdFromLink(incoming[k].link).None?;
      HandleIdless(st, incoming, rs, job);
    }
  }

  /** `PollOfIdless` for the corrected filter. */
  lemma {:induction false} PollCorrectedOfIdless(st: State, feed: Feed, rs: seq<Reaction>, job: Job)
    requires feed.Table? ==> |feed.rows| <= |rs|
    requires feed.Table? ==> forall row :: row in feed.rows && JobIdFromLink(row.link).Some? ==> Strip(row.link) in ProcessedLinks(st.ledger)
    ensures PollCorrected(st, feed, rs, job) == st
  {
    if Usable(feed) {
      var incoming := NewRows(feed.rows, st.ledger);
      assert forall k :: 0 <= k < |incoming| ==> incoming[k] in feed.rows && JobIdFromLink(incoming[k].link).None?;
      HandleIdless(st, incoming, rs, job);
    }
  }

  lemma {:induction false} HandleIdless(st: State, incoming: seq<FeedRow>, rs: seq<Reaction>, job: Job)
    requires |incoming| <= |rs|
    requires forall k :: 0 <= k < |incoming| ==> JobIdFromLink(incoming[k].link).None?
    ensures Handle(st, incoming, rs, job) == st
  {
    if |incoming| > 0 {
      IdlessPendingNothing(incoming);
      assert st.(active := st.active + {}) == st;
      IdlessRowsChangeNothing(st, incoming, rs, job);
    }
  }

  // ---------------------------------------------------------------------
  // The hot-folder handler (core.py:233-240)
  // ---------------------------------------------------------------------

  /** Whether the handler leaves a new file to the feed worker: its name
      starts with a digit run that is a claimed id. */
  predicate LeftToWorker(st: State, path: string) {
    var lead := LeadingDigits(Basename(path));
    lead.Some? && lead.value in st.active
  }

  /** `HotFolderHandler.on_created`: directories and files left to the
      feed worker are ignored; any other file becomes an ad-hoc job whose
      id comes from the clock reading `now`. */
  function HotFolderEvent(st: State, path: string, isDirectory: bool, now: nat, cfg: Config, o: Outcomes): State {
    if isDirectory || LeftToWorker(st, path) then st
    else HotFolderJob(st, path, HotFolderJobId(now), cfg, o)
  }

  /** A file is ignored exactly when it is a directory or its leading digit
      run is a claimed id. */
  lemma {:induction false} HotFolderEventIgnores(st: State, path: string, isDirectory: bool, now: nat, cfg: Config, o: Outcomes)
    ensures HotFolderEvent(st, path, isDirectory, now, cfg, o) == st <==> isDirectory || LeftToWorker(st, path)
  {
    if !(isDirectory || LeftToWorker(st, path)) {
      HotFolderJobEffects(st, path, HotFolderJobId(now), cfg, o);
    }
  }

  /** While the `k`-th new row is being waited for, its id is claimed
      unless an earlier row with the same id has already given it up; a
      file named after it dropped into the hot folder at that moment is
      then left to the worker. */
  lemma {:induction false} ClaimedWhileWaiting(st: State, feed: Feed, rs: seq<Reaction>, cfg: Config, k: nat, path: string, now: nat,
                            o: Outcomes)
    requires feed.Table? ==> |feed.rows| <= |rs|
    requires Usable(feed)
    requires k <= Completed(NewRowsAsWritten(feed.rows, st.ledger), rs) && k < |NewRowsAsWritten(feed.rows, st.ledger)|
    requires JobIdFromLink(NewRowsAsWritten(feed.rows, st.ledger)[k].link).Some?
    requires LeadingDigits(Basename(path)) == JobIdFromLink(NewRowsAsWritten(feed.rows, st.ledger)[k].link)
    ensures var incoming := NewRowsAsWritten(feed.rows, st.ledger);
            var id := JobIdFromLink(incoming[k].link).value;
            var s := Steps(st.(active := st.active + PendingIds(incoming)), incoming[..k], rs, CoreJob(cfg)).0;
            && (id in s.active <==> id !in IdSet(incoming[..k]))
            && (HotFolderEvent(s, path, false, now, cfg, o) == s <==> id !in IdSet(incoming[..k]))
  {
    var incoming := NewRowsAsWritten(feed.rows, st.ledger);
    var s1 := st.(active := st.active + PendingIds(incoming));
    var prefix := incoming[..k];
    CoreJobLogsOnce(cfg);
    StepsEffects(s1, prefix, rs, CoreJob(cfg));
    CompletedOfPrefix(incoming, rs, k);
    assert prefix[..k] == prefix;
    var s := Steps(s1, prefix, rs, CoreJob(cfg)).0;
    HotFolderEventIgnores(s, path, false, now, cfg, o);
  }

  /** Once the `k`-th new row has resolved, its id is given up, so a file
      named after it dropped into the hot folder from then on is
      dispatched as an ad-hoc job. */
  lemma {:induction false} ReleasedAfterResolving(st: State, feed: Feed, rs: seq<Reaction>, cfg: Config, k: nat, path: string,
                                                  now: nat, o: Outcomes)
    requires feed.Table? ==> |feed.rows| <= |rs|
    requires Usable(feed)
    requires k < Completed(NewRowsAsWritten(feed.rows, st.ledger), rs)
    requires JobIdFromLink(NewRowsAsWritten(feed.rows, st.ledger)[k].link).Some?
    requires LeadingDigits(Basename(path)) == JobIdFromLink(NewRowsAsWritten(feed.rows, st.ledger)[k].link)
    ensures var incoming := NewRowsAsWritten(feed.rows, st.ledger);
            var id := JobIdFromLink(incoming[k].link).value;
            var s := Steps(st.(active := st.active + PendingIds(incoming)), incoming[..k + 1], rs, CoreJob(cfg)).0;
            && id !in s.active
            && HotFolderEvent(s, path, false, now, cfg, o) != s
  {
    var incoming := NewRowsAsWritten(feed.rows, st.ledger);
    var prefix := incoming[..k + 1];
    CompletedOfPrefix(incoming, rs, k + 1);
    assert prefix[k] == incoming[k];
    CoreJobLogsOnce(cfg);
    LastResolvedReleased(st.(active := st.active + PendingIds(incoming)), prefix, rs, CoreJob(cfg));
    var s := Steps(st.(active := st.active + PendingIds(incoming)), prefix, rs, CoreJob(cfg)).0;
    HotFolderEventIgnores(s, path, false, now, cfg, o);
  }

  /** When every row resolved, the last row's id is no longer claimed. */
  lemma LastResolvedReleased(st: State, rows: seq<FeedRow>, rs: seq<Reaction>, job: Job)
    requires 0 < |rows| <= |rs| && LogsOnce(job)
    requires Completed(rows, rs) == |rows|
    requires JobIdFromLink(rows[|rows| - 1].link).Some?
    ensures JobIdFromLink(rows[|rows| - 1].link).value !in Steps(st, rows, rs, job).0.active
  {
    StepsEffects(st, rows, rs, job);
    assert rows[..|rows|] == rows;
    assert JobIdFromLink(rows[|rows| - 1].link).value in RowIdSet(rows[|rows| - 1]);
  }

  /** The base name of `uploads/1234.txt` and its leading digit run. */
  lemma {:induction false} LongerNumberName()
    ensures Basename("uploads/1234.txt") == "1234.txt"
    ensures LeadingDigits("1234.txt") == Some("1234")
  {
    var path := "uploads/1234.txt";
    assert AfterLast(path, '/', 16) == 8;
    assert path[8..] == "1234.txt";
    var name := "1234.txt";
    assert DigitRunEnd(name, 0) == 4;
    assert name[..4] == "1234";
  }

  /** A claimed id only protects a file whose whole leading digit run is
      that id: `1234.txt` is found by the worker for job `123` (a prefix
      match) and is also dispatched as an ad-hoc job. */
  lemma {:induction false} LongerNumberNotProtected(st: State, now: nat, cfg: Config, o: Outcomes)
    requires st.active == {"123"}
    ensures MatchingUpload(Some(["1234.txt"]), "123") == Some("uploads/1234.txt")
    ensures HotFolderEvent(st, "uploads/1234.txt", false, now, cfg, o) != st
  {
    PrefixMatchExample();
    LongerNumberName();
    assert "1234" != "123";
    assert !LeftToWorker(st, "uploads/1234.txt");
    HotFolderEventIgnores(st, "uploads/1234.txt", false, now, cfg, o);
  }

  // ---------------------------------------------------------------------
  // The imperative loop
  // ---------------------------------------------------------------------

  /** Unfolding the loop by one row. */
  lemma {:induction false} StepsSnoc(st: State, rows: seq<FeedRow>, i: nat, rs: seq<Reaction>, job: Job)
    requires i < |rows| <= |rs|
    ensures Steps(st, rows[..i + 1], rs, job)
            == (var before := Steps(st, rows[..i], rs, job);
                if before.1 then before else Step(before.0, rows[i], rs[i], job))
  {
    assert rows[..i + 1][..i] == rows[..i];
  }

  /** Once the loop has broken, later rows change nothing. */
  lemma {:induction false} BrokenStays(st: State, rows: seq<FeedRow>, i: nat, rs: seq<Reaction>, job: Job)
    requires i <= |rows| <= |rs|
    requires Steps(st, rows[..i], rs, job).1
    ensures Steps(st, rows, rs, job) == Steps(st, rows[..i], rs, job)
    decreases |rows| - i
  {
    if i < |rows| {
      StepsSnoc(st, rows, i, rs, job);
      BrokenStays(st, rows, i + 1, rs, job);
    } else {
      assert rows[..i] == rows;
    }
  }

  /** One iteration of `csv_handshake_worker`'s loop. */
  method PollOnce(ws: Workspace, feed: Feed, rs: seq<Reaction>, cfg: Config)
    requires feed.Table? ==> |feed.rows| <= |rs|
    modifies ws
    ensures ws.Snapshot() == Poll(old(ws.Snapshot()), feed, rs, CoreJob(cfg))
  {
    if !Usable(feed) {
      return;
    }
    var incoming := NewRowsAsWritten(feed.rows, ws.ledger);
    if |incoming| == 0 {
      return;
    }
    ws.Claim(PendingIds(incoming));
    ghost var s1 := ws.Snapshot();
    ghost var job := CoreJob(cfg);
    var i := 0;
    while i < |incoming|
      invariant 0 <= i <= |incoming|
      invariant Steps(s1, incoming[..i], rs, job) == (ws.Snapshot(), false)
    {
      StepsSnoc(s1, incoming, i, rs, job);
      var stopped := HandshakeRow(ws, incoming[i], rs[i], cfg);
      if stopped {
        BrokenStays(s1, incoming, i + 1, rs, job);
        return;
      }
      i := i + 1;
    }
    assert incoming[..i] == incoming;
  }

  /** The loop body for one new row: announce its id, wait, and process the
      upload or log the job as rejected. */
  method HandshakeRow(ws: Workspace, row: FeedRow, r: Reaction, cfg: Config) returns (stopped: bool)
    modifies ws
    ensures (ws.Snapshot(), stopped) == Step(old(ws.Snapshot()), row, r, CoreJob(cfg))
  {
    if r.stopBefore {
      return true;
    }
    var jobId := JobIdFromLink(row.link);
    if jobId.None? {
      return false;
    }
    var id := jobId.value;
    ws.CopyToClipboard(id);
    if r.stopDuring {
      return true;
    }
    var path := FindJobFile(r.uploads, id);
    if path.Some? {
      var verdict := ProcessCsvJob(ws, row.link, row.title, path.value, cfg, r.outcomes);
    } else {
      ws.LogProcessedJob(row.link);
    }
    ws.Release(id);
    return false;
  }

  /** `HotFolderHandler.on_created`. */
  method OnCreated(ws: Workspace, path: string, isDirectory: bool, now: nat, cfg: Config, o: Outcomes)
    modifies ws
    ensures ws.Snapshot() == HotFolderEvent(old(ws.Snapshot()), path, isDirectory, now, cfg, o)
  {
    if isDirectory {
      return;
    }
    var lead := LeadingDigits(Basename(path));
    if lead.Some? && lead.value in ws.active {
      return;
    }
    var verdict := ProcessHotFolderJob(ws, path, now, cfg, o);
  }
}
