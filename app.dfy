/** app.py, the earlier single-file engine. Its feed worker runs the loop of
    module Handshake with no stop event and with a job of its own: every
    service in a fixed order, plain-text outputs only. Its hot-folder
    handler knows only ad-hoc `_to_` files. */
module Legacy {
  import opened Text
  import opened Backends
  import opened Parsing
  import opened Naming
  import opened Storage
  import opened Dispatch
  import opened Ledger
  import opened Handshake

  /** What the world does around one new feed row in app.py: the listing of
      the uploads directory after the wait, and what the services answer. */
  datatype Arrival = Arrival(uploads: Option<seq<string>>, outcomes: Outcomes)

  /** app.py's loop has no stop event. */
  function AsReaction(a: Arrival): Reaction {
    Reaction(false, false, a.uploads, a.outcomes)
  }

  function AsReactions(arrivals: seq<Arrival>): (rs: seq<Reaction>)
    ensures |rs| == |arrivals|
    ensures forall k :: 0 <= k < |rs| ==> rs[k] == AsReaction(arrivals[k])
  {
    seq(|arrivals|, k requires 0 <= k < |arrivals| => AsReaction(arrivals[k]))
  }

  /** One service's output, saved only when it is not an error string
      (app.py:114-116). */
  function SaveLegacy(outputs: map<string, Artifact>, id: string, target: Option<string>, b: Backend, reply: string)
    : map<string, Artifact>
  {
    if IsError(reply) then outputs else outputs[LegacyOutputName(id, target, b) := PlainText(reply)]
  }

  /** A found feed job once its languages and text are known: GPT, Claude
      and Gemini are asked in that order, each answer that is not an error
      is saved, and the link is logged (app.py:108-134). */
  function LegacyRun(s: State, link: string, id: string, source: Option<string>, target: Option<string>,
                     text: string, replies: Replies): State
  {
    s.(calls := s.calls + [Translate(Gpt, text, target, source), Translate(Claude, text, target, source),
                           Translate(Gemini, text, target, source)],
       outputs := SaveLegacy(SaveLegacy(SaveLegacy(s.outputs, id, target, Gpt, replies.gpt),
                                        id, target, Claude, replies.claude),
                             id, target, Gemini, replies.gemini),
       ledger := s.ledger + [link])
  }

  /** app.py's job for a row whose upload was found. */
  function LegacyJob(s: State, row: FeedRow, id: string, path: string, o: Outcomes): State {
    var langs := ParseLanguages(row.title);
    LegacyRun(s, row.link, id, langs.0, langs.1, o.extracted, o.translations)
  }

  /** `m` and `m'` agree about the name `n`. */
  predicate SameEntry(m: map<string, Artifact>, m': map<string, Artifact>, n: string) {
    (n in m <==> n in m') && (n in m ==> m[n] == m'[n])
  }

  /** The order of the calls, which outputs are written, and that nothing
      but the link reaches the ledger. */
  lemma {:induction false} LegacyRunEffects(s: State, link: string, id: string, source: Option<string>,
                                            target: Option<string>, text: string, replies: Replies)
    ensures var r := LegacyRun(s, link, id, source, target, text, replies);
            && |r.calls| == |s.calls| + 3
            && r.calls[..|s.calls|] == s.calls
            && (forall k :: 0 <= k < 3 ==> r.calls[|s.calls| + k] == Translate(Registered[k], text, target, source))
            && r.ledger == s.ledger + [link]
            && r.active == s.active && r.manifest == s.manifest && r.clipboard == s.clipboard
    ensures var r := LegacyRun(s, link, id, source, target, text, replies);
            forall b: Backend ::
              if IsError(replies.Of(b)) then SameEntry(r.outputs, s.outputs, LegacyOutputName(id, target, b))
              else LegacyOutputName(id, target, b) in r.outputs
                   && r.outputs[LegacyOutputName(id, target, b)] == PlainText(replies.Of(b))
    ensures var r := LegacyRun(s, link, id, source, target, text, replies);
            forall n ::
              (n != LegacyOutputName(id, target, Gpt) && n != LegacyOutputName(id, target, Claude)
               && n != LegacyOutputName(id, target, Gemini)) ==> SameEntry(r.outputs, s.outputs, n)
  {
    var r := LegacyRun(s, link, id, source, target, text, replies);
    var cs := [Translate(Gpt, text, target, source), Translate(Claude, text, target, source),
               Translate(Gemini, text, target, source)];
    assert r.calls == s.calls + cs;
    assert r.calls[..|s.calls|] == s.calls;
    LegacyRunOutputs(s.outputs, id, target, replies);
  }

  /** The output files of `LegacyRun`: one per service that did not answer
      with an error, and no other name touched. */
  lemma {:induction false} LegacyRunOutputs(outputs: map<string, Artifact>, id: string, target: Option<string>, replies: Replies)
    ensures var m := SaveLegacy(SaveLegacy(SaveLegacy(outputs, id, target, Gpt, replies.gpt),
                                           id, target, Claude, replies.claude),
                                id, target, Gemini, replies.gemini);
            && (forall b: Backend ::
                  if IsError(replies.Of(b)) then SameEntry(m, outputs, LegacyOutputName(id, target, b))
                  else LegacyOutputName(id, target, b) in m && m[LegacyOutputName(id, target, b)] == PlainText(replies.Of(b)))
            && (forall n ::
                  (n != LegacyOutputName(id, target, Gpt) && n != LegacyOutputName(id, target, Claude)
                   && n != LegacyOutputName(id, target, Gemini)) ==> SameEntry(m, outputs, n))
  {
    LegacyOutputNamesDistinct(id, target, Gpt, Claude);
    LegacyOutputNamesDistinct(id, target, Gpt, Gemini);
    LegacyOutputNamesDistinct(id, target, Claude, Gemini);
  }

  /** The legacy job logs its link once and touches neither the claimed ids,
      the clipboard nor the manifest. */
  lemma LegacyJobLogsOnce()
    ensures LogsOnce(LegacyJob)
  {
    forall s: State, row: FeedRow, id: string, path: string, o: Outcomes
      ensures LegacyJob(s, row, id, path, o).ledger == s.ledger + [row.link]
      ensures LegacyJob(s, row, id, path, o).active == s.active
      ensures LegacyJob(s, row, id, path, o).clipboard == s.clipboard
      ensures LegacyJob(s, row, id, path, o).manifest == s.manifest
    {
      var langs := ParseLanguages(row.title);
      assert LegacyJob(s, row, id, path, o) == LegacyRun(s, row.link, id, langs.0, langs.1, o.extracted, o.translations);
    }
  }

  /** One iteration of app.py's `csv_handshake_worker`, after the feed was
      read: the loop of module Handshake with no stop and the legacy job. */
  function LegacyPoll(st: State, feed: Feed, arrivals: seq<Arrival>): State
    requires feed.Table? ==> |feed.rows| <= |arrivals|
  {
    Poll(st, feed, AsReactions(arrivals), LegacyJob)
  }

  /** The same iteration with the corrected filter of `PollCorrected`. */
  function LegacyPollCorrected(st: State, feed: Feed, arrivals: seq<Arrival>): State
    requires feed.Table? ==> |feed.rows| <= |arrivals|
  {
    PollCorrected(st, feed, AsReactions(arrivals), LegacyJob)
  }

  lemma {:induction false} NoStops(arrivals: seq<Arrival>)
    ensures forall k :: 0 <= k < |AsReactions(arrivals)| ==>
              !AsReactions(arrivals)[k].stopBefore && !AsReactions(arrivals)[k].stopDuring
  {
  }

  /** Every new row is handled: the link of each one that carries an id is
      logged once, in feed order; its id is claimed, copied to the
      clipboard and given up again. */
  lemma {:induction false} LegacyPollEffects(st: State, feed: Feed, arrivals: seq<Arrival>)
    requires feed.Table? ==> |feed.rows| <= |arrivals|
    requires Usable(feed) && |NewRowsAsWritten(feed.rows, st.ledger)| > 0
    ensures var incoming := NewRowsAsWritten(feed.rows, st.ledger);
            var r := LegacyPoll(st, feed, arrivals);
            && r.ledger == st.ledger + LinksWithIds(incoming)
            && r.active == (st.active + PendingIds(incoming)) - IdSet(incoming)
            && r.manifest == st.manifest
            && r.clipboard == st.clipboard + IdsOf(incoming)
  {
    LegacyHandleEffects(st, NewRowsAsWritten(feed.rows, st.ledger), arrivals);
  }

  /** `LegacyPollEffects` for the new rows themselves. */
  lemma {:induction false} LegacyHandleEffects(st: State, incoming: seq<FeedRow>, arrivals: seq<Arrival>)
    requires 0 < |incoming| <= |arrivals|
    ensures var r := Handle(st, incoming, AsReactions(arrivals), LegacyJob);
            && r.ledger == st.ledger + LinksWithIds(incoming)
            && r.active == (st.active + PendingIds(incoming)) - IdSet(incoming)
            && r.manifest == st.manifest
            && r.clipboard == st.clipboard + IdsOf(incoming)
  {
    var rs := AsReactions(arrivals);
    LegacyJobLogsOnce();
    HandleEffects(st, incoming, rs, LegacyJob);
    NoStops(arrivals);
    NoBreakCompletesAll(incoming, rs);
    assert incoming[..|incoming|] == incoming;
    assert Announced(incoming, rs) == incoming;
  }

  /** A row already in the ledger is never announced again: polling the
      same feed a second time changes nothing, provided no link that
      carries an id has surrounding whitespace (app.py:81 compares the raw
      link, as core.py:211 does). */
  lemma {:induction false} LegacyPollIdempotent(st: State, feed: Feed, arrivals: seq<Arrival>, arrivals2: seq<Arrival>)
    requires feed.Table? ==> |feed.rows| <= |arrivals| && |feed.rows| <= |arrivals2|
    requires feed.Table? ==> forall row :: row in feed.rows && JobIdFromLink(row.link).Some? ==> Strip(row.link) == row.link
    ensures LegacyPoll(LegacyPoll(st, feed, arrivals), feed, arrivals2) == LegacyPoll(st, feed, arrivals)
  {
    LegacyJobLogsOnce();
    NoStops(arrivals);
    PollIdempotent(st, feed, AsReactions(arrivals), AsReactions(arrivals2), LegacyJob);
  }

  /** With the corrected filter the second poll changes nothing whatever
      whitespace the links carry. */
  lemma {:induction false} LegacyPollCorrectedIdempotent(st: State, feed: Feed, arrivals: seq<Arrival>, arrivals2: seq<Arrival>)
    requires feed.Table? ==> |feed.rows| <= |arrivals| && |feed.rows| <= |arrivals2|
    ensures LegacyPollCorrected(LegacyPollCorrected(st, feed, arrivals), feed, arrivals2) == LegacyPollCorrected(st, feed, arrivals)
  {
    LegacyJobLogsOnce();
    NoStops(arrivals);
    PollCorrectedIdempotent(st, feed, AsReactions(arrivals), AsReactions(arrivals2), LegacyJob);
  }

  // ---------------------------------------------------------------------
  // The ad-hoc hot-folder handler (app.py:144-165)
  // ---------------------------------------------------------------------

  /** `HotFolderHandler.on_created` of app.py: directories and files left to
      the feed worker are ignored, and so are files whose stem lacks `_to_`;
      any other file is translated by GPT from English into the text after
      the last marker piece, and the answer is written even when it is an
      error string. */
  function AdHocEvent(st: State, path: string, isDirectory: bool, o: Outcomes): State {
    if isDirectory || LeftToWorker(st, path) then st
    else
      var stem := Stem(path);
      if !Contains(stem, TargetMarker) then st
      else
        var target := HotFolderTarget(Basename(path), "");
        st.(calls := st.calls + [Translate(Gpt, o.extracted, Some(target), Some("English"))],
            outputs := st.outputs[AdHocOutputName(stem) := PlainText(o.translations.gpt)])
  }

  /** Which files the handler acts on, and what it writes. */
  lemma {:induction false} AdHocEventEffects(st: State, path: string, isDirectory: bool, o: Outcomes)
    ensures var r := AdHocEvent(st, path, isDirectory, o);
            r == st <==> isDirectory || LeftToWorker(st, path) || !Contains(Stem(path), TargetMarker)
    ensures var r := AdHocEvent(st, path, isDirectory, o);
            var stem := Stem(path);
            r != st ==>
              && r.outputs == st.outputs[AdHocOutputName(stem) := PlainText(o.translations.gpt)]
              && |r.calls| == |st.calls| + 1
              && r.calls[|st.calls|].service == Gpt && r.calls[|st.calls|].source == Some("English")
              && r.calls[|st.calls|].target.Some?
              && EndsWith(stem, TargetMarker + r.calls[|st.calls|].target.value)
              && !Contains(r.calls[|st.calls|].target.value, TargetMarker)
              && r.ledger == st.ledger && r.active == st.active && r.manifest == st.manifest
              && r.clipboard == st.clipboard
  {
    if !(isDirectory || LeftToWorker(st, path)) && Contains(Stem(path), TargetMarker) {
      HotFolderTargetShape(Basename(path), "");
      var r := AdHocEvent(st, path, isDirectory, o);
      assert |r.calls| == |st.calls| + 1;
    }
  }

  // ---------------------------------------------------------------------
  // The imperative code
  // ---------------------------------------------------------------------

  /** One service's call and, unless it answered with an error, its output
      file. */
  method TranslateAndSave(ws: Workspace, b: Backend, id: string, source: Option<string>, target: Option<string>,
                          text: string, reply: string)
    modifies ws
    ensures ws.Snapshot() == old(ws.Snapshot()).(calls := old(ws.calls) + [Translate(b, text, target, source)],
                                                 outputs := SaveLegacy(old(ws.outputs), id, target, b, reply))
  {
    ws.Invoke([Translate(b, text, target, source)]);
    if !IsError(reply) {
      ws.WriteOutput(LegacyOutputName(id, target, b), PlainText(reply));
    }
  }

  /** The found-file branch of app.py's worker loop. */
  method ProcessLegacyJob(ws: Workspace, row: FeedRow, id: string, path: string, o: Outcomes)
    modifies ws
    ensures ws.Snapshot() == LegacyJob(old(ws.Snapshot()), row, id, path, o)
  {
    var langs := ParseLanguages(row.title);
    RunLegacy(ws, row.link, id, langs.0, langs.1, o.extracted, o.translations);
  }

  /** The three service calls, their output files and the ledger line. */
  method RunLegacy(ws: Workspace, link: string, id: string, source: Option<string>, target: Option<string>,
                   text: string, replies: Replies)
    modifies ws
    ensures ws.Snapshot() == LegacyRun(old(ws.Snapshot()), link, id, source, target, text, replies)
  {
    ghost var s0 := ws.Snapshot();
    TranslateAndSave(ws, Gpt, id, source, target, text, replies.gpt);
    TranslateAndSave(ws, Claude, id, source, target, text, replies.claude);
    TranslateAndSave(ws, Gemini, id, source, target, text, replies.gemini);
    ws.LogProcessedJob(link);
    assert ws.calls == s0.calls + [Translate(Gpt, text, target, source), Translate(Claude, text, target, source),
                                   Translate(Gemini, text, target, source)];
  }

  /** The body of app.py's worker loop for one new row. */
  method LegacyHandshakeRow(ws: Workspace, row: FeedRow, a: Arrival)
    modifies ws
    ensures (ws.Snapshot(), false) == Step(old(ws.Snapshot()), row, AsReaction(a), LegacyJob)
  {
    var jobId := JobIdFromLink(row.link);
    if jobId.None? {
      return;
    }
    var id := jobId.value;
    ws.CopyToClipboard(id);
    var path := FindJobFile(a.uploads, id);
    if path.Some? {
      ProcessLegacyJob(ws, row, id, path.value, a.outcomes);
    } else {
      ws.LogProcessedJob(row.link);
    }
    ws.Release(id);
  }

  /** One iteration of app.py's `csv_handshake_worker`. */
  method LegacyPollOnce(ws: Workspace, feed: Feed, arrivals: seq<Arrival>)
    requires feed.Table? ==> |feed.rows| <= |arrivals|
    modifies ws
    ensures ws.Snapshot() == LegacyPoll(old(ws.Snapshot()), feed, arrivals)
  {
    if !Usable(feed) {
      return;
    }
    var incoming := NewRowsAsWritten(feed.rows, ws.ledger);
    if |incoming| == 0 {
      return;
    }
    ws.Claim(PendingIds(incoming));
    ghost var s1 := ws.Snapshot();
    ghost var rs := AsReactions(arrivals);
    var i := 0;
    while i < |incoming|
      invariant 0 <= i <= |incoming|
      invariant Steps(s1, incoming[..i], rs, LegacyJob) == (ws.Snapshot(), false)
    {
      StepsSnoc(s1, incoming, i, rs, LegacyJob);
      LegacyHandshakeRow(ws, incoming[i], arrivals[i]);
      i := i + 1;
    }
    assert incoming[..i] == incoming;
  }

  /** app.py's `HotFolderHandler.on_created`. */
  method LegacyOnCreated(ws: Workspace, path: string, isDirectory: bool, o: Outcomes)
    modifies ws
    ensures ws.Snapshot() == AdHocEvent(old(ws.Snapshot()), path, isDirectory, o)
  {
    ghost var st := ws.Snapshot();
    if isDirectory {
      return;
    }
    var filename := Basename(path);
    var lead := LeadingDigits(filename);
    if lead.Some? && lead.value in ws.active {
      assert LeftToWorker(st, path);
      return;
    }
    assert !LeftToWorker(st, path);
    var stem := SplitExt(filename).0;
    assert stem == Stem(path);
    if !Contains(stem, TargetMarker) {
      return;
    }
    var target := Last(Split(stem, TargetMarker));
    assert target == HotFolderTarget(filename, "");
    ghost var next := AdHocEvent(st, path, isDirectory, o);
    ws.Invoke([Translate(Gpt, o.extracted, Some(target), Some("English"))]);
    assert ws.Snapshot().calls == next.calls;
    ws.WriteOutput(AdHocOutputName(stem), PlainText(o.translations.gpt));
    assert ws.Snapshot().outputs == next.outputs;
  }
}
