/** The job feed, the processed-jobs ledger and the uploads directory as the
    feed worker sees them (core.py:51-62 and core.py:202-213; app.py keeps
    identical copies at app.py:35-49 and app.py:56-91). */
module Ledger {
  import opened Text
  import opened Parsing
  import opened Storage

  /** The two columns of a feed row the worker uses. */
  datatype FeedRow = FeedRow(link: string, title: string)

  /** `jobs_feed.csv` as pandas reads it: absent, unreadable (pandas raised),
      or a table with its raw header names and, per row, the `link` and
      `title` cells. */
  datatype Feed = Missing | Unreadable | Table(headers: seq<string>, rows: seq<FeedRow>)

  /** `df.columns = [c.strip().lower() for c in df.columns]`. */
  function NormalizedHeaders(headers: seq<string>): (r: seq<string>)
    ensures |r| == |headers|
    ensures forall i :: 0 <= i < |r| ==> r[i] == Lower(Strip(headers[i]))
  {
    seq(|headers|, i requires 0 <= i < |headers| => Lower(Strip(headers[i])))
  }

  /** The feed can be processed: it was read and, once normalized, its
      headers hold both `link` and `title`. */
  predicate Usable(feed: Feed) {
    feed.Table? && "link" in NormalizedHeaders(feed.headers) && "title" in NormalizedHeaders(feed.headers)
  }

  /** `df[~df['link'].isin(processed_links)]` as written: the raw link is
      compared with the stripped ledger lines. */
  function NewRowsAsWritten(rows: seq<FeedRow>, ledger: seq<string>): (r: seq<FeedRow>)
    ensures |r| <= |rows|
    ensures forall row :: row in r <==> row in rows && row.link !in ProcessedLinks(ledger)
  {
    if |rows| == 0 then []
    else
      var init := NewRowsAsWritten(rows[..|rows| - 1], ledger);
      var row := rows[|rows| - 1];
      assert rows == rows[..|rows| - 1] + [row];
      if row.link in ProcessedLinks(ledger) then init else init + [row]
  }

  /** The filter with the comparison the ledger reader evidently intends:
      the link is stripped like the ledger lines are. */
  function NewRows(rows: seq<FeedRow>, ledger: seq<string>): (r: seq<FeedRow>)
    ensures |r| <= |rows|
    ensures forall row :: row in r <==> row in rows && Strip(row.link) !in ProcessedLinks(ledger)
  {
    if |rows| == 0 then []
    else
      var init := NewRows(rows[..|rows| - 1], ledger);
      var row := rows[|rows| - 1];
      assert rows == rows[..|rows| - 1] + [row];
      if Strip(row.link) in ProcessedLinks(ledger) then init else init + [row]
  }

  /** No feed link carries surrounding whitespace. */
  predicate Unpadded(rows: seq<FeedRow>) {
    forall k :: 0 <= k < |rows| ==> Strip(rows[k].link) == rows[k].link
  }

  /** Without padded links the filter as written and the corrected one
      select the same rows. */
  lemma {:induction false} FiltersAgree(rows: seq<FeedRow>, ledger: seq<string>)
    requires Unpadded(rows)
    ensures NewRowsAsWritten(rows, ledger) == NewRows(rows, ledger)
  {
    if |rows| > 0 {
      var init := rows[..|rows| - 1];
      assert Unpadded(init) by {
        forall k | 0 <= k < |init| ensures Strip(init[k].link) == init[k].link {
          assert init[k] == rows[k];
        }
      }
      FiltersAgree(init, ledger);
      assert Strip(rows[|rows| - 1].link) == rows[|rows| - 1].link;
    }
  }

  /** Once a link is in the ledger, no feed row with that link is new. */
  lemma LoggedLinkNeverNew(rows: seq<FeedRow>, ledger: seq<string>, link: string, row: FeedRow)
    requires row.link == link
    ensures row !in NewRows(rows, ledger + [link])
  {
    var l := ledger + [link];
    assert Strip(l[|ledger|]) in ProcessedLinks(l);
  }

  /** The as-written filter announces a job again although its link was
      logged: a link with a leading space never matches its stripped
      ledger line. The corrected filter does not. */
  lemma PaddedLinkReannounced()
    ensures var ledger := [" /1"];
            var rows := [FeedRow(" /1", "t")];
            NewRowsAsWritten(rows, ledger) == rows && NewRows(rows, ledger) == []
  {
    var ledger := [" /1"];
    assert Strip(" /1") == "/1" by {
      assert SkipSpace(" /1", 0) == 1;
      assert TrimEnd(" /1", 1, 3) == 3;
    }
    assert " /1" != "/1";
    assert Strip(ledger[0]) in ProcessedLinks(ledger);
    var rows := [FeedRow(" /1", "t")];
    assert rows[..0] == [];
  }

  /** `pending_job_ids`: the ids of the new rows, without `None`. */
  function PendingIds(rows: seq<FeedRow>): (r: set<string>)
    ensures forall k :: 0 <= k < |rows| && JobIdFromLink(rows[k].link).Some? ==> JobIdFromLink(rows[k].link).value in r
    ensures forall id :: id in r ==> exists k :: 0 <= k < |rows| && JobIdFromLink(rows[k].link) == Some(id)
  {
    set k | 0 <= k < |rows| && JobIdFromLink(rows[k].link).Some? :: JobIdFromLink(rows[k].link).value
  }

  const UploadsDir: string := "uploads"

  /** Position of the first listed file whose name starts with `id`. */
  function FirstWithPrefix(files: seq<string>, id: string): (r: Option<nat>)
    ensures r.None? <==> forall k :: 0 <= k < |files| ==> !StartsWith(files[k], id)
    ensures r.Some? ==> r.value < |files| && StartsWith(files[r.value], id)
                        && forall k :: 0 <= k < r.value ==> !StartsWith(files[k], id)
  {
    if |files| == 0 then None
    else if StartsWith(files[0], id) then Some(0)
    else
      match FirstWithPrefix(files[1..], id)
      case None => None
      case Some(k) => Some(k + 1)
  }

  /** What `find_job_file` should return for a listing of the uploads
      directory (`None` when the directory does not exist). */
  function MatchingUpload(uploads: Option<seq<string>>, id: string): (r: Option<string>)
    ensures r.Some? <==> uploads.Some? && exists k :: 0 <= k < |uploads.value| && StartsWith(uploads.value[k], id)
  {
    if uploads.None? then None
    else
      match FirstWithPrefix(uploads.value, id)
      case None => None
      case Some(k) => Some(UploadsDir + "/" + uploads.value[k])
  }

  /** `find_job_file`: the first entry of the listing, in listing order,
      whose name starts with the job id. A longer number with the id as
      prefix matches too. */
  method FindJobFile(uploads: Option<seq<string>>, id: string) returns (path: Option<string>)
    ensures path == MatchingUpload(uploads, id)
    ensures path.Some? ==> exists k :: 0 <= k < |uploads.value| && StartsWith(uploads.value[k], id)
                                       && path.value == UploadsDir + "/" + uploads.value[k]
                                       && forall j :: 0 <= j < k ==> !StartsWith(uploads.value[j], id)
  {
    if uploads.None? {
      return None;
    }
    var files := uploads.value;
    var i := 0;
    while i < |files|
      invariant 0 <= i <= |files|
      invariant forall k :: 0 <= k < i ==> !StartsWith(files[k], id)
    {
      if StartsWith(files[i], id) {
        assert FirstWithPrefix(files, id) == Some(i);
        return Some(UploadsDir + "/" + files[i]);
      }
      i := i + 1;
    }
    return None;
  }

  /** A job id is found by a file named after a longer number. */
  lemma PrefixMatchExample()
    ensures MatchingUpload(Some(["1234.txt"]), "123") == Some("uploads/1234.txt")
  {
    assert StartsWith("1234.txt", "123");
    assert FirstWithPrefix(["1234.txt"], "123") == Some(0);
    assert UploadsDir + "/" + "1234.txt" == "uploads/1234.txt";
  }
}
