/**
 The storing half of the `crawl_and_store_articles` task: after the crawl
 subprocess has written its JSON-lines file, each line is decoded and its
 record is inserted into the `articles` collection unless a document with the
 same `url` is already there. The collection is modelled as the sequence of
 its documents in insertion order; the JSON parser as a given decode outcome.
 */
module CeleryTask {
  import opened Wrappers
  import opened Text

  /**
   A decoded JSON object: `url` is what `article.get("url")` returns (`None`
   for an absent key or a JSON null), `fields` are the remaining keys with
   their decoded string values.
   */
  datatype Document = Document(fields: map<string, string>, url: Option<string>)

  /** What `json.loads` makes of a line: an error, an object, or some other JSON value. */
  datatype Decoded = DecodeError | JsonObject(doc: Document) | OtherJson

  /** One line of the output file: its text and what decoding it gives. */
  datatype RawLine = RawLine(text: string, decoded: Decoded)

  /** How the loop treats a line. */
  datatype Line =
    | Blank              // skipped before decoding
    | Malformed          // JSONDecodeError: reported and skipped
    | NonObject          // decodes, but `.get` raises, ending the task
    | Record(doc: Document)

  /** The collection after the loop, how many documents were added, and whether an exception ended it. */
  datatype Ingested = Ingested(store: seq<Document>, newCount: nat, aborted: bool)

  /** Why the task stopped: the crawl failed, its file is missing, or the file was processed. */
  datatype TaskOutcome = CrawlFailed | NoOutput | Ran(result: Ingested)

  /** `collection.find_one({"url": key})` finds a document. */
  predicate HasUrl(store: seq<Document>, key: Option<string>) {
    exists k :: 0 <= k < |store| && store[k].url == key
  }

  /** No two documents of `store` share a `url` key. */
  predicate UniqueUrls(store: seq<Document>) {
    forall i, j :: 0 <= i < j < |store| ==> store[i].url != store[j].url
  }

  /** The treatment of one raw line: blank test on the stripped text first, then the decode outcome. */
  function Classify(raw: RawLine): (l: Line)
    ensures l.Blank? <==> AllSpace(raw.text)
    ensures !AllSpace(raw.text) ==> (l.Malformed? <==> raw.decoded.DecodeError?)
    ensures !AllSpace(raw.text) ==> (l.NonObject? <==> raw.decoded.OtherJson?)
    ensures l.Record? <==> !AllSpace(raw.text) && raw.decoded.JsonObject?
    ensures l.Record? ==> l.doc == raw.decoded.doc
  {
    StripEmptyIffAllSpace(raw.text);
    if Strip(raw.text) == [] then Blank
    else match raw.decoded
      case DecodeError => Malformed
      case OtherJson => NonObject
      case JsonObject(doc) => Record(doc)
  }

  /** The treatment of every line of the file, in order. */
  function ClassifyAll(file: seq<RawLine>): (r: seq<Line>)
    ensures |r| == |file|
    ensures forall i :: 0 <= i < |file| ==> r[i] == Classify(file[i])
  {
    if file == [] then [] else [Classify(file[0])] + ClassifyAll(file[1..])
  }

  /** The number of lines the loop gets through: everything before the first non-object line. */
  function Handled(lines: seq<Line>): (n: nat)
    ensures n <= |lines|
    ensures forall i :: 0 <= i < n ==> !lines[i].NonObject?
    ensures n < |lines| ==> lines[n].NonObject?
  {
    if lines == [] || lines[0].NonObject? then 0 else 1 + Handled(lines[1..])
  }

  /**
   The collection after the loop body handles a line that does not end the
   run: a record whose `url` no stored document has is appended; anything
   else leaves the collection as it was.
   */
  function Admit(store: seq<Document>, line: Line): (r: seq<Document>)
    requires !line.NonObject?
    ensures store <= r && |r| <= |store| + 1
    ensures |r| == |store| + 1 <==> line.Record? && !HasUrl(store, line.doc.url)
    ensures |r| == |store| + 1 ==> r[|store|] == line.doc
    ensures line.Record? ==> HasUrl(r, line.doc.url)
  {
    if line.Record? && !HasUrl(store, line.doc.url) then store + [line.doc] else store
  }

  /**
   The loop over the lines as a fold: each line is admitted in turn, the
   counter goes up by one per insert, and a non-object line ends the run
   with the inserts made so far kept.
   */
  function Ingest(store: seq<Document>, lines: seq<Line>): (r: Ingested)
    ensures store <= r.store
    ensures |r.store| == |store| + r.newCount
    decreases |lines|
  {
    if lines == [] then Ingested(store, 0, false)
    else if lines[0].NonObject? then Ingested(store, 0, true)
    else
      var next := Admit(store, lines[0]);
      var rest := Ingest(next, lines[1..]);
      Ingested(rest.store, rest.newCount + (|next| - |store|), rest.aborted)
  }

  /** Dropping the first line leaves the lines the loop gets to, shifted by one. */
  lemma HandledTail(lines: seq<Line>)
    requires lines != [] && !lines[0].NonObject?
    ensures Handled(lines) == 1 + Handled(lines[1..])
    ensures lines[..Handled(lines)] == [lines[0]] + lines[1..][..Handled(lines[1..])]
  {
  }

  /** The run ends early exactly when some line decodes to a JSON value that is not an object. */
  lemma {:induction false} IngestAbortsOnNonObject(store: seq<Document>, lines: seq<Line>)
    ensures Ingest(store, lines).aborted <==> exists i :: 0 <= i < |lines| && lines[i].NonObject?
    decreases |lines|
  {
    if lines != [] && !lines[0].NonObject? {
      IngestAbortsOnNonObject(Admit(store, lines[0]), lines[1..]);
      assert forall i :: 1 <= i < |lines| ==> lines[i] == lines[1..][i - 1];
    }
  }

  /**
   Every inserted document carries a `url` no document had before the run,
   and no two inserted documents share one.
   */
  lemma {:induction false} IngestAddsFresh(store: seq<Document>, lines: seq<Line>)
    ensures var r := Ingest(store, lines);
      && (forall k :: |store| <= k < |r.store| ==> !HasUrl(store, r.store[k].url))
      && UniqueUrls(r.store[|store|..])
    decreases |lines|
  {
    if lines != [] && !lines[0].NonObject? {
      var next := Admit(store, lines[0]);
      IngestAddsFresh(next, lines[1..]);
      var rest := Ingest(next, lines[1..]);
      assert Ingest(store, lines).store == rest.store;
      if |next| != |store| {
        FreshAfterInsert(store, lines[0].doc, rest.store);
      }
    }
  }

  /** The step of `IngestAddsFresh` for a line that inserts `d`. */
  lemma FreshAfterInsert(store: seq<Document>, d: Document, final: seq<Document>)
    requires !HasUrl(store, d.url)
    requires store + [d] <= final
    requires forall k :: |store| + 1 <= k < |final| ==> !HasUrl(store + [d], final[k].url)
    requires UniqueUrls(final[|store| + 1..])
    ensures forall k :: |store| <= k < |final| ==> !HasUrl(store, final[k].url)
    ensures UniqueUrls(final[|store|..])
  {
    var next := store + [d];
    forall k | |store| <= k < |final|
      ensures !HasUrl(store, final[k].url)
    {
      if k > |store| {
        assert !HasUrl(next, final[k].url);
        assert forall m :: 0 <= m < |store| ==> store[m] == next[m];
      }
    }
    var added := final[|store|..];
    forall i, j | 0 <= i < j < |added|
      ensures added[i].url != added[j].url
    {
      assert added[j] == final[|store| + j];
      if i == 0 {
        assert added[0] == next[|store|];
        assert !HasUrl(next, final[|store| + j].url);
      } else {
        assert added[i] == final[|next|..][i - 1];
        assert added[j] == final[|next|..][j - 1];
      }
    }
  }

  /** A collection with unique `url` keys keeps them unique through a run. */
  lemma IngestKeepsUrlsUnique(store: seq<Document>, lines: seq<Line>)
    ensures UniqueUrls(store) ==> UniqueUrls(Ingest(store, lines).store)
  {
    var r := Ingest(store, lines);
    IngestAddsFresh(store, lines);
    forall i, j | UniqueUrls(store) && 0 <= i < j < |r.store|
      ensures r.store[i].url != r.store[j].url
    {
      if j < |store| {
        assert r.store[i] == store[i] && r.store[j] == store[j];
      } else if i < |store| {
        assert r.store[i] == store[i];
      } else {
        assert r.store[|store|..][i - |store|] == r.store[i];
        assert r.store[|store|..][j - |store|] == r.store[j];
      }
    }
  }

  /** Every inserted document is the record of one of the lines the loop got to. */
  lemma {:induction false} IngestAddsOnlyRecords(store: seq<Document>, lines: seq<Line>)
    ensures var r := Ingest(store, lines);
      forall k :: |store| <= k < |r.store| ==> Record(r.store[k]) in lines[..Handled(lines)]
    decreases |lines|
  {
    if lines != [] && !lines[0].NonObject? {
      HandledTail(lines);
      var next := Admit(store, lines[0]);
      IngestAddsOnlyRecords(next, lines[1..]);
      var r := Ingest(store, lines);
      assert r.store == Ingest(next, lines[1..]).store;
      var h := lines[..Handled(lines)];
      forall k | |store| <= k < |r.store|
        ensures Record(r.store[k]) in h
      {
        if k < |next| {
          assert r.store[k] == next[k] == lines[0].doc;
          assert h[0] == lines[0];
        } else {
          assert Record(r.store[k]) in lines[1..][..Handled(lines[1..])];
        }
      }
    }
  }

  /** After a run, every record the loop got to has its `url` in the collection. */
  lemma {:induction false} IngestStoresEveryRecord(store: seq<Document>, lines: seq<Line>)
    ensures var r := Ingest(store, lines);
      forall i :: 0 <= i < Handled(lines) && lines[i].Record? ==> HasUrl(r.store, lines[i].doc.url)
    decreases |lines|
  {
    if lines != [] && !lines[0].NonObject? {
      HandledTail(lines);
      var next := Admit(store, lines[0]);
      IngestStoresEveryRecord(next, lines[1..]);
      var r := Ingest(store, lines);
      if lines[0].Record? {
        var m :| 0 <= m < |next| && next[m].url == lines[0].doc.url;
        assert r.store[m] == next[m];
      }
      assert forall i :: 1 <= i < Handled(lines) ==> lines[i] == lines[1..][i - 1];
    }
  }

  /** A record the loop gets to is inserted when its `url` is neither stored nor carried by an earlier record. */
  lemma {:induction false} FirstOccurrenceInserted(store: seq<Document>, lines: seq<Line>, i: nat)
    requires i < Handled(lines) && lines[i].Record?
    requires !HasUrl(store, lines[i].doc.url)
    requires forall j :: 0 <= j < i && lines[j].Record? ==> lines[j].doc.url != lines[i].doc.url
    ensures lines[i].doc in Ingest(store, lines).store[|store|..]
    decreases i
  {
    var key := lines[i].doc.url;
    var next := Admit(store, lines[0]);
    var r := Ingest(store, lines);
    var rest := Ingest(next, lines[1..]);
    assert r.store == rest.store;
    if i == 0 {
      assert r.store[|store|] == lines[0].doc;
    } else {
      var tail := lines[1..];
      assert tail[i - 1] == lines[i];
      forall j | 0 <= j < i - 1 && tail[j].Record?
        ensures tail[j].doc.url != key
      {
        assert tail[j] == lines[j + 1];
      }
      FirstOccurrenceInserted(next, tail, i - 1);
      var d := lines[i].doc;
      var p :| 0 <= p < |rest.store| - |next| && rest.store[|next|..][p] == d;
      assert r.store[|store|..][p + |next| - |store|] == d;
    }
  }

  /**
   Among records the loop gets to that share a `url` new to the collection,
   only the first is inserted: it is the one inserted document with that `url`.
   */
  lemma OnlyFirstOccurrenceInserted(store: seq<Document>, lines: seq<Line>, i: nat)
    requires i < Handled(lines) && lines[i].Record?
    requires !HasUrl(store, lines[i].doc.url)
    requires forall j :: 0 <= j < i && lines[j].Record? ==> lines[j].doc.url != lines[i].doc.url
    ensures var added := Ingest(store, lines).store[|store|..];
      forall k :: 0 <= k < |added| && added[k].url == lines[i].doc.url ==> added[k] == lines[i].doc
  {
    var added := Ingest(store, lines).store[|store|..];
    FirstOccurrenceInserted(store, lines, i);
    IngestAddsFresh(store, lines);
    var p :| 0 <= p < |added| && added[p] == lines[i].doc;
  }

  /** When every record the loop gets to is already stored, a run leaves the collection and counter alone. */
  lemma {:induction false} IngestCovered(store: seq<Document>, lines: seq<Line>)
    requires forall i :: 0 <= i < Handled(lines) && lines[i].Record? ==> HasUrl(store, lines[i].doc.url)
    ensures Ingest(store, lines).store == store
    ensures Ingest(store, lines).newCount == 0
    decreases |lines|
  {
    if lines != [] && !lines[0].NonObject? {
      HandledTail(lines);
      forall i | 0 <= i < Handled(lines[1..]) && lines[1..][i].Record?
        ensures HasUrl(store, lines[1..][i].doc.url)
      {
        assert lines[1..][i] == lines[i + 1];
      }
      assert Admit(store, lines[0]) == store;
      IngestCovered(store, lines[1..]);
    }
  }

  /** Processing the same file again against the resulting collection adds nothing. */
  lemma Idempotent(store: seq<Document>, lines: seq<Line>)
    ensures var r := Ingest(store, lines);
      Ingest(r.store, lines) == Ingested(r.store, 0, r.aborted)
  {
    var r := Ingest(store, lines);
    IngestStoresEveryRecord(store, lines);
    IngestCovered(r.store, lines);
    IngestAbortsOnNonObject(store, lines);
    IngestAbortsOnNonObject(r.store, lines);
  }

  /** The run that results from resuming the loop on the remaining `lines` with collection `stored` and counter `newCount`. */
  function Resume(stored: seq<Document>, newCount: nat, lines: seq<Line>): Ingested {
    var r := Ingest(stored, lines);
    Ingested(r.store, newCount + r.newCount, r.aborted)
  }

  /** Handling one line that does not end the run moves the loop on to the next line. */
  lemma ResumeStep(stored: seq<Document>, newCount: nat, lines: seq<Line>)
    requires lines != [] && !lines[0].NonObject?
    ensures var next := Admit(stored, lines[0]);
      Resume(stored, newCount, lines) == Resume(next, newCount + (|next| - |stored|), lines[1..])
  {
  }

  /**
   The body of the task's loop for one line of the file: a line that strips
   to nothing is skipped, an undecodable one is reported and skipped, a
   decoded non-object raises, and a decoded object is inserted and counted
   when `find_one` on its `url` finds nothing.
   */
  method HandleLine(stored: seq<Document>, newCount: nat, raw: RawLine) returns (stored': seq<Document>, newCount': nat, raised: bool)
    ensures raised <==> Classify(raw).NonObject?
    ensures raised ==> stored' == stored && newCount' == newCount
    ensures !raised ==> stored' == Admit(stored, Classify(raw))
    ensures !raised ==> newCount' == newCount + (|stored'| - |stored|)
  {
    stored', newCount', raised := stored, newCount, false;
    if Strip(raw.text) == [] {
      return;
    }
    match raw.decoded {
      case DecodeError =>
      case OtherJson =>
        raised := true;
      case JsonObject(article) =>
        if !HasUrl(stored, article.url) {
          stored' := stored + [article];
          newCount' := newCount + 1;
        }
    }
  }

  /**
   The task's loop over the file: each line goes through the loop body in
   turn, and a line whose body raises ends the loop with the inserts
   already made.
   */
  method StoreFile(store: seq<Document>, file: seq<RawLine>) returns (stored: seq<Document>, newCount: nat, aborted: bool)
    ensures Ingest(store, ClassifyAll(file)) == Ingested(stored, newCount, aborted)
    ensures store <= stored && |stored| == |store| + newCount
  {
    stored, newCount, aborted := store, 0, false;
    var remaining := file;
    while remaining != []
      invariant Ingest(store, ClassifyAll(file)) == Resume(stored, newCount, ClassifyAll(remaining))
    {
      var raised;
      ghost var lines := ClassifyAll(remaining);
      ghost var before, count := stored, newCount;
      stored, newCount, raised := HandleLine(stored, newCount, remaining[0]);
      if raised {
        aborted := true;
        return;
      }
      ResumeStep(before, count, lines);
      remaining := remaining[1..];
    }
  }

  /**
   The whole task after the crawl: a nonzero exit code or a missing output
   file ends it before the collection is touched; otherwise the file is stored.
   */
  function CrawlAndStore(returnCode: int, outputExists: bool, store: seq<Document>, file: seq<RawLine>): (r: TaskOutcome)
    ensures returnCode != 0 ==> r == CrawlFailed
    ensures returnCode == 0 && !outputExists ==> r == NoOutput
    ensures returnCode == 0 && outputExists ==> r == Ran(Ingest(store, ClassifyAll(file)))
    ensures r.Ran? ==> store <= r.result.store && |r.result.store| == |store| + r.result.newCount
    ensures r.Ran? && UniqueUrls(store) ==> UniqueUrls(r.result.store)
  {
    if returnCode != 0 then CrawlFailed
    else if !outputExists then NoOutput
    else
      IngestKeepsUrlsUnique(store, ClassifyAll(file));
      Ran(Ingest(store, ClassifyAll(file)))
  }

  /** The collection after the task. */
  function StoreAfter(store: seq<Document>, outcome: TaskOutcome): seq<Document> {
    if outcome.Ran? then outcome.result.store else store
  }

  /** Whatever the crawl did, the task never changes or removes a document, and keeps `url` keys unique. */
  lemma TaskInsertOnly(returnCode: int, outputExists: bool, store: seq<Document>, file: seq<RawLine>)
    ensures var after := StoreAfter(store, CrawlAndStore(returnCode, outputExists, store, file));
      && store <= after
      && (UniqueUrls(store) ==> UniqueUrls(after))
      && (returnCode != 0 || !outputExists ==> after == store)
  {
  }
}
