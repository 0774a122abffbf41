/** What the engine reads and writes outside its own variables: the ledger
    file of processed links, the hot-folder manifest, the outputs directory,
    the set of job ids the feed worker has claimed, the services it called
    and what it put on the clipboard. */
module Storage {
  import opened Text
  import opened Backends

  /** A file in the outputs directory: a plain-text translation, or a
      document rebuilt from the source file with the translation in it. */
  datatype Artifact = PlainText(text: string) | Regenerated(source: string, text: string)

  /** A snapshot of everything the engine changes.
      - `ledger`: the entries appended to the processed-jobs log, one per
        write of `link + "\n"`;
      - `manifest`: the lines of the hot-folder manifest, each written with
        a trailing newline;
      - `outputs`: file name to content in the outputs directory;
      - `active`: `active_handshake_jobs`;
      - `calls`: every call into a service, in the order they were started;
      - `clipboard`: every id copied to the clipboard. */
  datatype State = State(
    ledger: seq<string>,
    manifest: seq<string>,
    outputs: map<string, Artifact>,
    active: set<string>,
    calls: seq<Call>,
    clipboard: seq<string>)

  /** The manifest line written for an ad-hoc job (core.py:139), without its
      newline. */
  function ManifestLine(jobId: string, path: string): string {
    jobId + "," + path
  }

  /** `get_processed_jobs`: every ledger line with surrounding whitespace
      removed. Each entry is written as one line, so reading the file gives
      back the entries (links holding a newline are not modelled). */
  function ProcessedLinks(ledger: seq<string>): (r: set<string>)
    ensures forall k :: 0 <= k < |ledger| ==> Strip(ledger[k]) in r
    ensures forall x :: x in r ==> exists k :: 0 <= k < |ledger| && x == Strip(ledger[k])
  {
    set k | 0 <= k < |ledger| :: Strip(ledger[k])
  }

  /** The global state of the worker process. */
  class Workspace {
    var ledger: seq<string>
    var manifest: seq<string>
    var outputs: map<string, Artifact>
    var active: set<string>
    var calls: seq<Call>
    var clipboard: seq<string>

    function Snapshot(): State
      reads this
    {
      State(ledger, manifest, outputs, active, calls, clipboard)
    }

    constructor (s: State)
      ensures Snapshot() == s
    {
      ledger := s.ledger;
      manifest := s.manifest;
      outputs := s.outputs;
      active := s.active;
      calls := s.calls;
      clipboard := s.clipboard;
    }

    /** `log_processed_job`: append one entry to the ledger. */
    method LogProcessedJob(link: string)
      modifies this
      ensures Snapshot() == old(Snapshot()).(ledger := old(ledger) + [link])
    {
      ledger := ledger + [link];
    }

    /** Append one line to the hot-folder manifest. */
    method AppendManifest(line: string)
      modifies this
      ensures Snapshot() == old(Snapshot()).(manifest := old(manifest) + [line])
    {
      manifest := manifest + [line];
    }

    /** Create or overwrite one file in the outputs directory. */
    method WriteOutput(name: string, content: Artifact)
      modifies this
      ensures Snapshot() == old(Snapshot()).(outputs := old(outputs)[name := content])
    {
      outputs := outputs[name := content];
    }

    /** Record calls into the services. */
    method Invoke(cs: seq<Call>)
      modifies this
      ensures Snapshot() == old(Snapshot()).(calls := old(calls) + cs)
    {
      calls := calls + cs;
    }

    /** `pyperclip.copy`. */
    method CopyToClipboard(id: string)
      modifies this
      ensures Snapshot() == old(Snapshot()).(clipboard := old(clipboard) + [id])
    {
      clipboard := clipboard + [id];
    }

    /** `active_handshake_jobs.update(ids)`. */
    method Claim(ids: set<string>)
      modifies this
      ensures Snapshot() == old(Snapshot()).(active := old(active) + ids)
    {
      active := active + ids;
    }

    /** `active_handshake_jobs.discard(id)`. */
    method Release(id: string)
      modifies this
      ensures Snapshot() == old(Snapshot()).(active := old(active) - {id})
    {
      active := active - {id};
    }
  }
}
