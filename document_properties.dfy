/**
 * What one upload does, stated about `Ingest`: the rejected, unsaved,
 * unparsable, failed and successful cases, the progress events of the
 * embedding loop in closed form, and the order of the percentages.
 */
module DocumentIngestionProperties {
  import opened Wrappers
  import opened JavaText
  import opened DocumentIngestion

  // ----- the embedding loop in closed form -----

  /** The processed counts in (lo, hi] at which the loop reports: every tenth and the last, in increasing order. */
  function ReportPoints(lo: nat, hi: nat, n: nat): (r: seq<nat>)
    ensures forall k :: 0 <= k < |r| ==> lo < r[k] <= hi && ShouldEmit(r[k], n)
    ensures forall j, k :: 0 <= j < k < |r| ==> r[j] < r[k]
    decreases hi - lo
  {
    if lo >= hi then []
    else if ShouldEmit(lo + 1, n) then [lo + 1] + ReportPoints(lo + 1, hi, n)
    else ReportPoints(lo + 1, hi, n)
  }

  /** No due count in (lo, hi] is missed. */
  lemma {:induction false} ReportPointsComplete(lo: nat, hi: nat, n: nat)
    ensures forall p: nat :: lo < p <= hi && ShouldEmit(p, n) ==> p in ReportPoints(lo, hi, n)
    decreases hi - lo
  {
    if lo < hi {
      ReportPointsComplete(lo + 1, hi, n);
    }
  }

  /** The embedding events for a list of processed counts. */
  function SegmentEvents(documentId: string, filename: string, points: seq<nat>, n: nat): (r: seq<ProgressEvent>)
    requires forall k :: 0 <= k < |points| ==> 0 < points[k] <= n
    ensures |r| == |points|
    ensures forall k :: 0 <= k < |points| ==> r[k] == SegmentEvent(documentId, filename, points[k], n)
    decreases |points|
  {
    if points == [] then []
    else [SegmentEvent(documentId, filename, points[0], n)] + SegmentEvents(documentId, filename, points[1..], n)
  }

  /** For increasing counts the percentages lie in 30..100 and never go down, and every event is an `embedding` one. */
  lemma SegmentEventsPercents(documentId: string, filename: string, points: seq<nat>, n: nat)
    requires forall k :: 0 <= k < |points| ==> 0 < points[k] <= n
    requires forall j, k :: 0 <= j < k < |points| ==> points[j] < points[k]
    ensures var r := SegmentEvents(documentId, filename, points, n);
      && (forall e :: e in r ==> 30 <= e.progressPercentage <= 100 && e.status == Embedding)
      && (forall j, k :: 0 <= j < k < |r| ==> r[j].progressPercentage <= r[k].progressPercentage)
  {
    var r := SegmentEvents(documentId, filename, points, n);
    forall e | e in r
      ensures 30 <= e.progressPercentage <= 100 && e.status == Embedding
    {
      var k :| 0 <= k < |r| && r[k] == e;
      assert points[k] in points;
      EmbeddingPercentRange(points[k], n);
    }
    forall j, k | 0 <= j < k < |r|
      ensures r[j].progressPercentage <= r[k].progressPercentage
    {
      assert points[j] in points && points[k] in points;
      EmbeddingPercentMonotone(points[j], points[k], n);
    }
  }

  /** The loop's events over (lo, hi]. */
  function ReportEvents(documentId: string, filename: string, lo: nat, hi: nat, n: nat): seq<ProgressEvent>
    requires hi <= n
  {
    SegmentEvents(documentId, filename, ReportPoints(lo, hi, n), n)
  }

  /** One more processed segment adds its event exactly when it is due. */
  lemma ReportEventsStep(documentId: string, filename: string, lo: nat, hi: nat, n: nat)
    requires lo < hi <= n
    ensures ReportEvents(documentId, filename, lo, hi, n)
         == (if ShouldEmit(lo + 1, n) then [SegmentEvent(documentId, filename, lo + 1, n)] else [])
            + ReportEvents(documentId, filename, lo + 1, hi, n)
  {
    var points := ReportPoints(lo, hi, n);
    if ShouldEmit(lo + 1, n) {
      assert points[1..] == ReportPoints(lo + 1, hi, n);
    }
  }

  /** `entries` are the embeddings of the segments from index `start` on, in order, each accepted by `add`. */
  predicate EmbeddedFrom(segments: seq<string>, start: nat, c: Collaborators, entries: seq<(Vector, string)>)
    decreases |entries|
  {
    if entries == [] then start <= |segments|
    else
      && start < |segments|
      && c.embed(segments[start]).Ok?
      && c.add(c.embed(segments[start]).value, segments[start]).None?
      && entries[0] == (c.embed(segments[start]).value, segments[start])
      && EmbeddedFrom(segments, start + 1, c, entries[1..])
  }

  /** The same, entry by entry. */
  lemma {:induction false} EmbeddedFromIndex(segments: seq<string>, start: nat, c: Collaborators,
                                             entries: seq<(Vector, string)>)
    requires EmbeddedFrom(segments, start, c, entries)
    ensures start + |entries| <= |segments|
    ensures forall k :: 0 <= k < |entries| ==>
      && c.embed(segments[start + k]) == Ok(entries[k].0)
      && entries[k].1 == segments[start + k]
      && c.add(entries[k].0, segments[start + k]).None?
    decreases |entries|
  {
    if entries != [] {
      var rest := entries[1..];
      EmbeddedFromIndex(segments, start + 1, c, rest);
      forall k | 0 <= k < |entries|
        ensures && c.embed(segments[start + k]) == Ok(entries[k].0)
                && entries[k].1 == segments[start + k]
                && c.add(entries[k].0, segments[start + k]).None?
      {
        if k == 0 {
          assert segments[start + k] == segments[start];
        } else {
          var j := k - 1;
          assert entries[k] == rest[j];
          assert segments[start + 1 + j] == segments[start + k];
        }
      }
    }
  }

  /**
   * The loop from index `i` on: the entries it adds are the embeddings of the
   * next segments, in order, each once, and it stops at the first segment whose
   * embedding or `add` fails, with that failure.
   */
  lemma {:induction false} EmbedFromAdded(documentId: string, filename: string, segments: seq<string>, i: nat,
                                          c: Collaborators)
    requires i <= |segments|
    ensures i + |EmbedFrom(documentId, filename, segments, i, c).added| <= |segments|
    ensures EmbeddedFrom(segments, i, c, EmbedFrom(documentId, filename, segments, i, c).added)
    ensures var run := EmbedFrom(documentId, filename, segments, i, c);
      && (run.error.None? ==> i + |run.added| == |segments|)
      && (run.error.Some? ==>
            && i + |run.added| < |segments|
            && var s := segments[i + |run.added|];
               match c.embed(s)
               case Err(m) => run.error == Some(EmbedFailed(m))
               case Ok(v) => c.add(v, s).Some? && run.error == Some(AddFailed(c.add(v, s).value)))
    decreases |segments| - i
  {
    if i < |segments| {
      var step := Step(documentId, filename, segments, i, c);
      if step.error.None? {
        EmbedFromAdded(documentId, filename, segments, i + 1, c);
        var rest := EmbedFrom(documentId, filename, segments, i + 1, c);
        var run := EmbedFrom(documentId, filename, segments, i, c);
        assert c.embed(segments[i]).Ok?;
        var v := c.embed(segments[i]).value;
        assert c.add(v, segments[i]).None?;
        assert step.added == [(v, segments[i])];
        assert run.added == [(v, segments[i])] + rest.added;
        assert run.error == rest.error;
        assert ([(v, segments[i])] + rest.added)[1..] == rest.added;
      }
    }
  }

  /** The loop's events are those due for the segments it got through. */
  lemma {:induction false} EmbedFromEvents(documentId: string, filename: string, segments: seq<string>, i: nat,
                                           c: Collaborators)
    requires i <= |segments|
    ensures var run := EmbedFrom(documentId, filename, segments, i, c);
      && i + |run.added| <= |segments|
      && run.events == ReportEvents(documentId, filename, i, i + |run.added|, |segments|)
    decreases |segments| - i
  {
    if i < |segments| {
      var step := Step(documentId, filename, segments, i, c);
      if step.error.None? {
        EmbedFromEvents(documentId, filename, segments, i + 1, c);
        var rest := EmbedFrom(documentId, filename, segments, i + 1, c);
        var run := EmbedFrom(documentId, filename, segments, i, c);
        var n := |segments|;
        var due := if ShouldEmit(i + 1, n) then [SegmentEvent(documentId, filename, i + 1, n)] else [];
        assert step.events == due && |step.added| == 1;
        assert run.added == step.added + rest.added && run.events == step.events + rest.events;
        var hi := i + |run.added|;
        assert rest.events == ReportEvents(documentId, filename, i + 1, hi, n);
        ReportEventsStep(documentId, filename, i, hi, n);
      }
    }
  }

  // ----- percentages -----

  /** The percentages of a run of events never go down. */
  predicate PercentsNonDecreasing(events: seq<ProgressEvent>) {
    forall j, k :: 0 <= j < k < |events| ==> events[j].progressPercentage <= events[k].progressPercentage
  }

  lemma PercentsConcat(a: seq<ProgressEvent>, b: seq<ProgressEvent>, m: int)
    requires PercentsNonDecreasing(a) && PercentsNonDecreasing(b)
    requires forall e :: e in a ==> e.progressPercentage <= m
    requires forall e :: e in b ==> m <= e.progressPercentage
    ensures PercentsNonDecreasing(a + b)
  {
    var ab := a + b;
    forall j, k | 0 <= j < k < |ab|
      ensures ab[j].progressPercentage <= ab[k].progressPercentage
    {
      if k < |a| {
        assert ab[j] == a[j] && ab[k] == a[k];
      } else if j >= |a| {
        assert ab[j] == b[j - |a|] && ab[k] == b[k - |a|];
      } else {
        assert ab[j] in a && ab[k] in b;
      }
    }
  }

  // ----- whole uploads -----

  /** A missing or empty name, or an extension off the allow-list, exactly, gets a rejection. */
  lemma RejectionCases(filename: Option<string>)
    ensures Rejection(filename).None? <==>
              filename.Some? && filename.value != "" && IsAllowedExtension(FileExtension(filename.value))
    ensures Rejection(filename).Some? ==> Rejection(filename).value.Kind() == IllegalArgument
  {
  }

  /** A rejected upload sends started and failed at 0%, throws IllegalArgumentException, and saves and adds nothing. */
  lemma RejectedUpload(file: UploadedFile, documentId: string, c: Collaborators)
    requires Rejection(file.originalFilename).Some?
    ensures var run := Ingest(file, documentId, c);
      var e := Rejection(file.originalFilename).value;
      && run.events == [StartedEvent(documentId, file.originalFilename), RejectedEvent(documentId, file.originalFilename, e)]
      && run.events[0].progressPercentage == 0 && run.events[1].progressPercentage == 0
      && run.events[1].status == Failed
      && run.outcome == Err(e) && e.Kind() == IllegalArgument
      && run.savedAs == None && run.added == []
  {
  }

  /** Once validated, the file is saved under `documentId_filename` before anything is parsed; a failed save ends there. */
  lemma SaveComesFirst(file: UploadedFile, documentId: string, c: Collaborators)
    requires Rejection(file.originalFilename).None?
    ensures var run := Ingest(file, documentId, c);
      var name := file.originalFilename.value;
      var stored := StoredFilename(documentId, name);
      && |run.events| >= 3
      && run.events[0] == StartedEvent(documentId, file.originalFilename)
      && run.events[1] == SavingEvent(documentId, name)
      && (c.save(stored, file.content).None? <==> run.savedAs == Some(stored))
      && (c.save(stored, file.content).Some? ==>
            && run.savedAs == None && run.added == []
            && run.events == [StartedEvent(documentId, file.originalFilename), SavingEvent(documentId, name),
                              AbortedEvent(documentId, name, SaveFailed(c.save(stored, file.content).value))]
            && run.outcome == Err(SaveFailed(c.save(stored, file.content).value)))
      && (c.save(stored, file.content).None? ==> run.events[2] == ParsingEvent(documentId, name))
  {
  }

  /** What the parser would return is not consulted when the save fails. */
  lemma ParseOnlyAfterSave(file: UploadedFile, documentId: string, name: string,
                           p1: Result<string, UploadError>, p2: Result<string, UploadError>, c: Collaborators)
    requires c.save(StoredFilename(documentId, name), file.content).Some?
    ensures SaveRun(file, documentId, name, p1, c) == SaveRun(file, documentId, name, p2, c)
  {
  }

  /** A ".txt" upload passes validation and is saved, then fails in `parseDocument`, adding nothing. */
  lemma TxtUploadFails(file: UploadedFile, documentId: string, c: Collaborators)
    requires file.originalFilename.Some? && file.originalFilename.value != ""
    requires Lower(FileExtension(file.originalFilename.value)) == "txt"
    requires c.save(StoredFilename(documentId, file.originalFilename.value), file.content).None?
    ensures var run := Ingest(file, documentId, c);
      var name := file.originalFilename.value;
      var e := UnsupportedType(FileExtension(name));
      && run.savedAs == Some(StoredFilename(documentId, name))
      && run.added == []
      && run.outcome == Err(e) && e.Kind() == IllegalArgument
      && run.events == [StartedEvent(documentId, file.originalFilename), SavingEvent(documentId, name),
                        ParsingEvent(documentId, name), AbortedEvent(documentId, name, e)]
  {
    TxtIsAllowedButUnparsable(FileExtension(file.originalFilename.value));
  }

  /** Splitting and embedding succeed exactly when every segment is embedded and added; the events are then in closed form. */
  lemma TextRunSucceeds(file: UploadedFile, documentId: string, name: string, stored: string, text: string,
                        c: Collaborators)
    requires TextRun(file, documentId, name, stored, text, c).outcome.Ok?
    ensures var run := TextRun(file, documentId, name, stored, text, c);
      var n := |c.split(text)|;
      && EmbedFrom(documentId, name, c.split(text), 0, c).error.None?
      && run.savedAs == Some(stored)
      && |run.added| == n && EmbeddedFrom(c.split(text), 0, c, run.added)
      && run.outcome == Ok(UploadResponse(documentId, name, file.size, SuccessMessage, n))
      && run.events == [SplittingEvent(documentId, name), EmbeddingStartEvent(documentId, name, n)]
                       + ReportEvents(documentId, name, 0, n, n) + [CompletedEvent(documentId, name, n)]
  {
    var segments := c.split(text);
    EmbedFromAdded(documentId, name, segments, 0, c);
    EmbedFromEvents(documentId, name, segments, 0, c);
  }

  /** A failure while embedding ends with one failed event; the entries added before it stay added. */
  lemma TextRunFails(file: UploadedFile, documentId: string, name: string, stored: string, text: string,
                     c: Collaborators)
    requires TextRun(file, documentId, name, stored, text, c).outcome.Err?
    ensures var run := TextRun(file, documentId, name, stored, text, c);
      var segments := c.split(text);
      && run.savedAs == Some(stored)
      && |run.added| < |segments| && EmbeddedFrom(segments, 0, c, run.added)
      && run.events == [SplittingEvent(documentId, name), EmbeddingStartEvent(documentId, name, |segments|)]
                       + ReportEvents(documentId, name, 0, |run.added|, |segments|)
                       + [AbortedEvent(documentId, name, run.outcome.error)]
      && (forall ev :: ev in run.events[..|run.events| - 1] ==> ev.status != Failed)
  {
    var run := TextRun(file, documentId, name, stored, text, c);
    var segments := c.split(text);
    var loop := EmbedFrom(documentId, name, segments, 0, c);
    EmbedFromAdded(documentId, name, segments, 0, c);
    EmbedFromEvents(documentId, name, segments, 0, c);
    EmbedEventsNotFailed(documentId, name, segments, 0, c);
    var head := [SplittingEvent(documentId, name), EmbeddingStartEvent(documentId, name, |segments|)];
    assert run.events[..|run.events| - 1] == head + loop.events;
  }

  /** The embedding loop only reports progress; it never sends a failed event. */
  lemma {:induction false} EmbedEventsNotFailed(documentId: string, name: string, segments: seq<string>, i: nat,
                                                c: Collaborators)
    requires i <= |segments|
    ensures forall ev :: ev in EmbedFrom(documentId, name, segments, i, c).events ==> ev.status == Embedding
    decreases |segments| - i
  {
    if i < |segments| {
      var step := Step(documentId, name, segments, i, c);
      if step.error.None? {
        EmbedEventsNotFailed(documentId, name, segments, i + 1, c);
      }
    }
  }

  /** Saving and parsing come first; the rest is the text's run. */
  lemma SaveRunSucceeds(file: UploadedFile, documentId: string, name: string, parsed: Result<string, UploadError>,
                        c: Collaborators)
    requires SaveRun(file, documentId, name, parsed, c).outcome.Ok?
    ensures var run := SaveRun(file, documentId, name, parsed, c);
      var stored := StoredFilename(documentId, name);
      && c.save(stored, file.content).None?
      && parsed.Ok?
      && var rest := TextRun(file, documentId, name, stored, parsed.value, c);
         && rest.outcome.Ok?
         && run.savedAs == rest.savedAs && run.added == rest.added && run.outcome == rest.outcome
         && run.events == [SavingEvent(documentId, name), ParsingEvent(documentId, name)] + rest.events
  {
  }

  /** After saving, a failure ends with one failed event and no other. */
  lemma ParsedRunFails(file: UploadedFile, documentId: string, name: string, stored: string,
                       parsed: Result<string, UploadError>, c: Collaborators)
    requires ParsedRun(file, documentId, name, stored, parsed, c).outcome.Err?
    ensures var run := ParsedRun(file, documentId, name, stored, parsed, c);
      && |run.events| >= 2
      && run.events[0] == ParsingEvent(documentId, name)
      && run.events[|run.events| - 1] == AbortedEvent(documentId, name, run.outcome.error)
      && (forall ev :: ev in run.events[..|run.events| - 1] ==> ev.status != Failed)
  {
    var run := ParsedRun(file, documentId, name, stored, parsed, c);
    if parsed.Ok? {
      var rest := TextRun(file, documentId, name, stored, parsed.value, c);
      TextRunFails(file, documentId, name, stored, parsed.value, c);
      assert run.events[..|run.events| - 1] == [ParsingEvent(documentId, name)] + rest.events[..|rest.events| - 1];
    } else {
      assert run.events[..|run.events| - 1] == [ParsingEvent(documentId, name)];
    }
  }

  /** A failure after validation ends with one failed event and no other. */
  lemma SaveRunFails(file: UploadedFile, documentId: string, name: string, parsed: Result<string, UploadError>,
                     c: Collaborators)
    requires SaveRun(file, documentId, name, parsed, c).outcome.Err?
    ensures var run := SaveRun(file, documentId, name, parsed, c);
      && |run.events| >= 2
      && run.events[0] == SavingEvent(documentId, name)
      && run.events[|run.events| - 1] == AbortedEvent(documentId, name, run.outcome.error)
      && (forall ev :: ev in run.events[..|run.events| - 1] ==> ev.status != Failed)
  {
    var run := SaveRun(file, documentId, name, parsed, c);
    var stored := StoredFilename(documentId, name);
    if c.save(stored, file.content).None? {
      var mid := ParsedRun(file, documentId, name, stored, parsed, c);
      ParsedRunFails(file, documentId, name, stored, parsed, c);
      assert run.events == [SavingEvent(documentId, name)] + mid.events;
      assert run.events[..|run.events| - 1] == [SavingEvent(documentId, name)] + mid.events[..|mid.events| - 1];
    } else {
      assert run.events[..|run.events| - 1] == [SavingEvent(documentId, name)];
    }
  }

  /** Past validation, an upload is the started event followed by the `try` block. */
  lemma IngestAccepted(file: UploadedFile, documentId: string, c: Collaborators)
    requires Rejection(file.originalFilename).None?
    ensures var run := Ingest(file, documentId, c);
      var name := file.originalFilename.value;
      var rest := SaveRun(file, documentId, name, ParseDocument(file.content, FileExtension(name), c.parse), c);
      && run.savedAs == rest.savedAs && run.added == rest.added && run.outcome == rest.outcome
      && run.events == [StartedEvent(documentId, file.originalFilename)] + rest.events
  {
  }

  /**
   * An upload succeeds exactly when validation, saving, parsing and every
   * segment's embedding and `add` do.  It then adds one entry per segment in
   * order, reports `n` segments, and its events are the fixed phase events, the
   * loop's due events and the completed event at (n, n, 100).
   */
  lemma SuccessfulUpload(file: UploadedFile, documentId: string, c: Collaborators)
    requires Ingest(file, documentId, c).outcome.Ok?
    ensures var run := Ingest(file, documentId, c);
      && Rejection(file.originalFilename).None?
      && var name := file.originalFilename.value;
         var parsed := ParseDocument(file.content, FileExtension(name), c.parse);
         && c.save(StoredFilename(documentId, name), file.content).None?
         && parsed.Ok?
         && var segments := c.split(parsed.value);
            var n := |segments|;
            && EmbedFrom(documentId, name, segments, 0, c).error.None?
            && run.savedAs == Some(StoredFilename(documentId, name))
            && |run.added| == n
            && (forall k :: 0 <= k < n ==> run.added[k].1 == segments[k] && c.embed(segments[k]) == Ok(run.added[k].0))
            && run.outcome.value.segmentsCreated == n
            && run.events == [StartedEvent(documentId, file.originalFilename), SavingEvent(documentId, name),
                              ParsingEvent(documentId, name), SplittingEvent(documentId, name),
                              EmbeddingStartEvent(documentId, name, n)]
                             + ReportEvents(documentId, name, 0, n, n)
                             + [CompletedEvent(documentId, name, n)]
  {
    SuccessfulUploadStore(file, documentId, c);
    SuccessfulUploadEvents(file, documentId, c);
  }

  /** What a successful upload stores: the saved file and one entry per segment, in order. */
  lemma SuccessfulUploadStore(file: UploadedFile, documentId: string, c: Collaborators)
    requires Ingest(file, documentId, c).outcome.Ok?
    ensures var run := Ingest(file, documentId, c);
      && Rejection(file.originalFilename).None?
      && var name := file.originalFilename.value;
         var parsed := ParseDocument(file.content, FileExtension(name), c.parse);
         && c.save(StoredFilename(documentId, name), file.content).None?
         && parsed.Ok?
         && var segments := c.split(parsed.value);
            var n := |segments|;
            && EmbedFrom(documentId, name, segments, 0, c).error.None?
            && run.savedAs == Some(StoredFilename(documentId, name))
            && |run.added| == n
            && (forall k :: 0 <= k < n ==> run.added[k].1 == segments[k] && c.embed(segments[k]) == Ok(run.added[k].0))
            && run.outcome.value.segmentsCreated == n
  {
    var name := file.originalFilename.value;
    var parsed := ParseDocument(file.content, FileExtension(name), c.parse);
    IngestSucceeds(file, documentId, c);
    var rest := TextRun(file, documentId, name, StoredFilename(documentId, name), parsed.value, c);
    TextRunSucceeds(file, documentId, name, StoredFilename(documentId, name), parsed.value, c);
    EntriesMatchSegments(c.split(parsed.value), c, rest.added);
  }

  /** Entries embedded from the first segment, one per segment, pair each segment with its vector. */
  lemma EntriesMatchSegments(segments: seq<string>, c: Collaborators, entries: seq<(Vector, string)>)
    requires EmbeddedFrom(segments, 0, c, entries) && |entries| == |segments|
    ensures forall k :: 0 <= k < |segments| ==> entries[k].1 == segments[k] && c.embed(segments[k]) == Ok(entries[k].0)
  {
    EmbeddedFromIndex(segments, 0, c, entries);
  }

  /** The events of a successful upload, in closed form. */
  lemma SuccessfulUploadEvents(file: UploadedFile, documentId: string, c: Collaborators)
    requires Ingest(file, documentId, c).outcome.Ok?
    ensures var run := Ingest(file, documentId, c);
      && Rejection(file.originalFilename).None?
      && var name := file.originalFilename.value;
         var parsed := ParseDocument(file.content, FileExtension(name), c.parse);
         && parsed.Ok?
         && var n := |c.split(parsed.value)|;
            && run.events == [StartedEvent(documentId, file.originalFilename), SavingEvent(documentId, name),
                              ParsingEvent(documentId, name), SplittingEvent(documentId, name),
                              EmbeddingStartEvent(documentId, name, n)]
                             + ReportEvents(documentId, name, 0, n, n)
                             + [CompletedEvent(documentId, name, n)]
  {
    var name := file.originalFilename.value;
    var parsed := ParseDocument(file.content, FileExtension(name), c.parse);
    IngestSucceeds(file, documentId, c);
    TextRunSucceeds(file, documentId, name, StoredFilename(documentId, name), parsed.value, c);
    var n := |c.split(parsed.value)|;
    UploadEventsFlatten(StartedEvent(documentId, file.originalFilename), SavingEvent(documentId, name),
                        ParsingEvent(documentId, name), SplittingEvent(documentId, name),
                        EmbeddingStartEvent(documentId, name, n), ReportEvents(documentId, name, 0, n, n),
                        CompletedEvent(documentId, name, n));
  }

  /** The nested event lists of the phases flatten to one list. */
  lemma UploadEventsFlatten(started: ProgressEvent, saving: ProgressEvent, parsing: ProgressEvent,
                            splitting: ProgressEvent, embedding: ProgressEvent, reports: seq<ProgressEvent>,
                            completed: ProgressEvent)
    ensures [started, saving, parsing] + ([splitting, embedding] + reports + [completed])
         == [started, saving, parsing, splitting, embedding] + reports + [completed]
  {
  }

  /** A successful upload is the started, saving and parsing events followed by the text's successful run. */
  lemma IngestSucceeds(file: UploadedFile, documentId: string, c: Collaborators)
    requires Ingest(file, documentId, c).outcome.Ok?
    ensures var run := Ingest(file, documentId, c);
      && Rejection(file.originalFilename).None?
      && var name := file.originalFilename.value;
         var stored := StoredFilename(documentId, name);
         var parsed := ParseDocument(file.content, FileExtension(name), c.parse);
         && c.save(stored, file.content).None?
         && parsed.Ok?
         && var rest := TextRun(file, documentId, name, stored, parsed.value, c);
            && rest.outcome.Ok?
            && run.savedAs == rest.savedAs && run.added == rest.added && run.outcome == rest.outcome
            && run.events == [StartedEvent(documentId, file.originalFilename), SavingEvent(documentId, name),
                              ParsingEvent(documentId, name)] + rest.events
  {
    var name := file.originalFilename.value;
    var parsed := ParseDocument(file.content, FileExtension(name), c.parse);
    IngestAccepted(file, documentId, c);
    SaveRunSucceeds(file, documentId, name, parsed, c);
  }

  /** A successful upload's percentages never go down, and its last event is completed at (n, n, 100). */
  lemma SuccessfulUploadProgress(file: UploadedFile, documentId: string, c: Collaborators)
    requires Ingest(file, documentId, c).outcome.Ok?
    ensures var run := Ingest(file, documentId, c);
      && PercentsNonDecreasing(run.events)
      && run.events[|run.events| - 1] == CompletedEvent(documentId, file.originalFilename.value, |run.added|)
      && run.events[|run.events| - 1].progressPercentage == 100
  {
    SuccessfulUpload(file, documentId, c);
    var run := Ingest(file, documentId, c);
    var name := file.originalFilename.value;
    var n := |run.added|;
    var head := [StartedEvent(documentId, file.originalFilename), SavingEvent(documentId, name),
                 ParsingEvent(documentId, name), SplittingEvent(documentId, name),
                 EmbeddingStartEvent(documentId, name, n)];
    var reports := ReportEvents(documentId, name, 0, n, n);
    var completed := CompletedEvent(documentId, name, n);
    assert run.events == head + reports + [completed];
    SegmentEventsPercents(documentId, name, ReportPoints(0, n, n), n);
    PhaseEventsPercents(documentId, file.originalFilename, name, n);
    PercentsConcat(reports, [completed], 100);
    assert forall e :: e in reports + [completed] ==> 30 <= e.progressPercentage;
    PercentsConcat(head, reports + [completed], 30);
    Assoc(head, reports, [completed]);
  }

  /** The events before the loop report 0, 0, 10, 20 and 30 percent. */
  lemma PhaseEventsPercents(documentId: string, filename: Option<string>, name: string, n: nat)
    ensures var head := [StartedEvent(documentId, filename), SavingEvent(documentId, name),
                         ParsingEvent(documentId, name), SplittingEvent(documentId, name),
                         EmbeddingStartEvent(documentId, name, n)];
      && PercentsNonDecreasing(head)
      && forall e :: e in head ==> e.progressPercentage <= 30
  {
  }

  /**
   * An upload that passed validation and then failed sends exactly one failed
   * event, the last, at 0% with "Error: " and the message, and rethrows.
   */
  lemma FailedUpload(file: UploadedFile, documentId: string, c: Collaborators)
    requires Rejection(file.originalFilename).None?
    requires Ingest(file, documentId, c).outcome.Err?
    ensures var run := Ingest(file, documentId, c);
      var name := file.originalFilename.value;
      var e := run.outcome.error;
      && |run.events| >= 3
      && run.events[0] == StartedEvent(documentId, file.originalFilename)
      && run.events[|run.events| - 1] == AbortedEvent(documentId, name, e)
      && Text(run.events[|run.events| - 1].message) == "Error: " + e.Message()
      && run.events[|run.events| - 1].progressPercentage == 0
      && (forall ev :: ev in run.events[..|run.events| - 1] ==> ev.status != Failed)
  {
    var run := Ingest(file, documentId, c);
    var name := file.originalFilename.value;
    var parsed := ParseDocument(file.content, FileExtension(name), c.parse);
    IngestAccepted(file, documentId, c);
    var rest := SaveRun(file, documentId, name, parsed, c);
    SaveRunFails(file, documentId, name, parsed, c);
    FailureTexts(run.outcome.error);
    var started := StartedEvent(documentId, file.originalFilename);
    assert run.events[..|run.events| - 1] == [started] + rest.events[..|rest.events| - 1];
  }

  /** A document that splits into no segments: no loop event, no division, and completion at (0, 0, 100). */
  lemma EmptyDocument(file: UploadedFile, documentId: string, c: Collaborators)
    requires Rejection(file.originalFilename).None?
    requires c.save(StoredFilename(documentId, file.originalFilename.value), file.content).None?
    requires var parsed := ParseDocument(file.content, FileExtension(file.originalFilename.value), c.parse);
             parsed.Ok? && c.split(parsed.value) == []
    ensures var run := Ingest(file, documentId, c);
      var name := file.originalFilename.value;
      && run.added == []
      && run.outcome.Ok? && run.outcome.value.segmentsCreated == 0
      && run.events == [StartedEvent(documentId, file.originalFilename), SavingEvent(documentId, name),
                        ParsingEvent(documentId, name), SplittingEvent(documentId, name),
                        EmbeddingStartEvent(documentId, name, 0), CompletedEvent(documentId, name, 0)]
  {
  }

  /** The loop does not depend on the topic. */
  lemma {:induction false} EmbedFromIgnoresDelivery(documentId: string, filename: string, segments: seq<string>,
                                                    i: nat, c: Collaborators, deliver: ProgressEvent -> bool)
    requires i <= |segments|
    ensures EmbedFrom(documentId, filename, segments, i, c) == EmbedFrom(documentId, filename, segments, i, c.(deliver := deliver))
    decreases |segments| - i
  {
    if i < |segments| {
      EmbedFromIgnoresDelivery(documentId, filename, segments, i + 1, c, deliver);
    }
  }

  /** `sendProgress` swallows every failure: whether the topic accepts events changes nothing about the upload. */
  lemma DeliveryDoesNotAffectUpload(file: UploadedFile, documentId: string, c: Collaborators,
                                    deliver: ProgressEvent -> bool)
    ensures Ingest(file, documentId, c) == Ingest(file, documentId, c.(deliver := deliver))
  {
    if Rejection(file.originalFilename).None? {
      var name := file.originalFilename.value;
      var parsed := ParseDocument(file.content, FileExtension(name), c.parse);
      if parsed.Ok? {
        EmbedFromIgnoresDelivery(documentId, name, c.split(parsed.value), 0, c, deliver);
      }
    }
  }
}
