/** What the merge worker promises, stated over the model of `mergePdf`: the
    effect of each kind of preview entry, the shape of the progress reports,
    the single terminal message and the order of the merged pages. */
module MergeProperties {
  import opened Messages
  import opened Text
  import opened Units
  import opened PdfLibWorker

  // ---------------------------------------------------------------------------
  // One preview entry

  /** An out-of-range index posts exactly one warning naming the index, adds no
      page and no progress, and does not advance `fileNumber`. */
  lemma InvalidEntrySkipped(files: seq<InputFile>, index: int, n: nat, opts: Options, s: MergeState)
    requires n > 0 && !InRange(files, index)
    ensures var t := ProcessEntry(files, index, n, opts, s);
      && t.pages == s.pages
      && t.fileNumber == s.fileNumber
      && |t.events| == |s.events| + 1
      && t.events[..|s.events|] == s.events
      && t.events[|s.events|].Warning?
      && t.events[|s.events|].message == "Invalid file index: " + IntToString(index)
      && ProgressValues(t.events) == ProgressValues(s.events)
  {
    var t := ProcessEntry(files, index, n, opts, s);
    assert t.events == s.events + [InvalidIndex(index)];
    ProgressValuesAppend(s.events, [InvalidIndex(index)]);
  }

  /** The warning for an out-of-range entry identifies it: two such warnings
      are the same only for the same index. */
  lemma InvalidIndexNamed(i: int, j: int)
    requires InvalidIndex(i) == InvalidIndex(j)
    ensures i == j
  {
    PrefixCancel("Invalid file index: ", IntToString(i), IntToString(j));
    IntToStringInjective(i, j);
  }

  /** A decoded PNG or JPEG becomes exactly one page whose anchor dimension is
      the converted output size and whose aspect ratio is the image's; the only
      message is the file's end-of-file progress. */
  lemma ImageEntryAddsOnePage(files: seq<InputFile>, index: int, n: nat, opts: Options, s: MergeState)
    requires n > 0 && InRange(files, index)
    requires files[index].mime in {"image/png", "image/jpg", "image/jpeg"}
    requires files[index].outcome.Decoded?
    ensures var t := ProcessEntry(files, index, n, opts, s);
            var image := files[index].outcome;
            var page := t.pages[|s.pages|];
      && |t.pages| == |s.pages| + 1
      && t.pages[..|s.pages|] == s.pages
      && page.Page?
      && (opts.scaleDimension == Width ==> page.width == ConvertUnit(opts.outputSize, opts.outputSizeUnit, Pdf))
      && (opts.scaleDimension == Height ==> page.height == ConvertUnit(opts.outputSize, opts.outputSizeUnit, Pdf))
      && page.width * image.height == page.height * image.width
      && t.events == s.events + [Progress(FilePercent(s.fileNumber, Share(n)))]
      && t.fileNumber == s.fileNumber + 1
  {
    var t := ProcessEntry(files, index, n, opts, s);
    assert t.pages == s.pages + [ImagePage(files[index].outcome.width, files[index].outcome.height, opts)];
  }

  /** A loaded PDF appends all of its pages, in their original order, after the
      pages already merged: unchanged when no scaling is asked for, otherwise
      each rescaled so that its anchor dimension is the converted output size,
      except that a page whose anchor dimension is zero gets a non-finite size.
      Each page is followed by a progress report, and the last of these equals
      the file's end-of-file value. */
  lemma PdfEntryAppendsPages(files: seq<InputFile>, index: int, n: nat, opts: Options, s: MergeState)
    requires n > 0 && InRange(files, index)
    requires files[index].mime == "application/pdf" && files[index].outcome.Loaded?
    ensures var t := ProcessEntry(files, index, n, opts, s);
            var src := files[index].outcome.pages;
            var end := Progress(FilePercent(s.fileNumber, Share(n)));
      && |t.pages| == |s.pages| + |src|
      && t.pages[..|s.pages|] == s.pages
      && (forall k :: 0 <= k < |src| ==> t.pages[|s.pages| + k] == ScalePage(src[k], opts))
      && (opts.scaleType == NoScale ==> t.pages == s.pages + src)
      && (opts.scaleType == All ==>
            forall k :: 0 <= k < |src| && Anchor(src[k], opts.scaleDimension) != 0.0 ==>
              t.pages[|s.pages| + k].Page? && Anchor(t.pages[|s.pages| + k], opts.scaleDimension) == Target(opts))
      && (opts.scaleType == All ==>
            forall k :: 0 <= k < |src| && Anchor(src[k], opts.scaleDimension) == 0.0 ==>
              t.pages[|s.pages| + k] == NonFinite)
      && t.events == s.events + PageProgress(s.fileNumber, Share(n), |src|) + [end]
      && (|src| > 0 ==> t.events[|t.events| - 2] == end)
  {
    var t := ProcessEntry(files, index, n, opts, s);
    var src := files[index].outcome.pages;
    assert t.pages == s.pages + CopiedPages(src, opts);
    if opts.scaleType == NoScale {
      assert CopiedPages(src, opts) == src;
    }
    if opts.scaleType == All {
      forall k | 0 <= k < |src|
        ensures t.pages[|s.pages| + k] == ScalePage(src[k], opts)
      {
        assert t.pages[|s.pages| + k] == CopiedPages(src, opts)[k];
      }
    }
  }

  /** A PNG or JPEG that does not decode posts one warning naming it and adds no page. */
  lemma ImageFailureWarns(files: seq<InputFile>, index: int, n: nat, opts: Options, s: MergeState)
    requires n > 0 && InRange(files, index)
    requires files[index].mime in {"image/png", "image/jpg", "image/jpeg"}
    requires !files[index].outcome.Decoded?
    ensures var t := ProcessEntry(files, index, n, opts, s);
      && t.pages == s.pages
      && t.events == s.events + [Warning("Failed to embed image: " + files[index].name,
                                         "Unknown error, this file was skipped"),
                                 Progress(FilePercent(s.fileNumber, Share(n)))]
  {
  }

  /** A PDF that does not load posts one warning naming it, with the encrypted
      description exactly when the error message contains "is encrypted", and
      adds no page. */
  lemma PdfFailureWarns(files: seq<InputFile>, index: int, n: nat, opts: Options, s: MergeState)
    requires n > 0 && InRange(files, index)
    requires files[index].mime == "application/pdf" && !files[index].outcome.Loaded?
    ensures var t := ProcessEntry(files, index, n, opts, s);
            var o := files[index].outcome;
            var w := t.events[|s.events|];
      && t.pages == s.pages
      && |t.events| == |s.events| + 2
      && t.events[..|s.events|] == s.events
      && t.events[|s.events| + 1] == Progress(FilePercent(s.fileNumber, Share(n)))
      && w.Warning? && w.message == "Failed to load PDF: " + files[index].name
      && (w.description == "Document is encrypted, this file was skipped" <==>
            o.LoadFailed? && Contains(o.message, "is encrypted"))
      && (w.description != "Document is encrypted, this file was skipped" ==>
            w.description == "Unknown error, this file was skipped")
  {
  }

  /** Any other MIME type posts one warning naming the file and its type, and adds no page. */
  lemma UnsupportedTypeWarns(files: seq<InputFile>, index: int, n: nat, opts: Options, s: MergeState)
    requires n > 0 && InRange(files, index)
    requires files[index].mime !in {"image/png", "image/jpg", "image/jpeg", "application/pdf"}
    ensures var t := ProcessEntry(files, index, n, opts, s);
            var f := files[index];
      && t.pages == s.pages
      && t.events == s.events + [Warning("Unsupported file type: " + f.name,
                                         "File type " + f.mime + " is not supported, this file was skipped"),
                                 Progress(FilePercent(s.fileNumber, Share(n)))]
  {
  }

  // ---------------------------------------------------------------------------
  // Progress over the whole loop

  /** The number of preview entries whose index is in range. */
  function ValidCount(files: seq<InputFile>, entries: seq<int>): (r: nat)
    ensures r <= |entries|
  {
    if entries == [] then 0
    else ValidCount(files, entries[..|entries| - 1]) + (if InRange(files, entries[|entries| - 1]) then 1 else 0)
  }

  /** What holds of the loop's state after any number of entries: it opened with
      progress 0, its progress never went down and has reached exactly
      `fileNumber` shares, and nothing terminal was posted. */
  ghost predicate LoopShape(s: MergeState, share: real) {
    ProgressedTo(s.events, Reached(s.fileNumber, share))
  }

  /** The messages of one in-range file: progress within the file's share,
      never going down, ending at the file's end value, nothing terminal. */
  lemma FileProgressShape(file: InputFile, fileNumber: nat, share: real)
    requires share > 0.0
    ensures Climbs(FileEvents(file, fileNumber, share) + [Progress(FilePercent(fileNumber, share))],
                   Reached(fileNumber, share), FilePercent(fileNumber, share))
  {
    ReachedStep(fileNumber, share);
    if KindOf(file.mime) == PdfFile && file.outcome.Loaded? {
      PageProgressClimbs(fileNumber, share, |file.outcome.pages|);
    } else {
      QuietThenReport(FileEvents(file, fileNumber, share), Reached(fileNumber, share), FilePercent(fileNumber, share));
    }
  }

  /** The per-page reports of one PDF, then its end-of-file report, climb
      through the file's share. */
  lemma PageProgressClimbs(fileNumber: nat, share: real, count: nat)
    requires share > 0.0
    ensures Climbs(PageProgress(fileNumber, share, count) + [Progress(FilePercent(fileNumber, share))],
                   Reached(fileNumber, share), FilePercent(fileNumber, share))
  {
    ReachedStep(fileNumber, share);
    var end := FilePercent(fileNumber, share);
    var tail := PageProgress(fileNumber, share, count) + [Progress(end)];
    ProgressValuesAllProgress(tail);
    var pv := ProgressValues(tail);
    assert |pv| == count + 1;
    forall i | 0 <= i < count ensures pv[i] == PagePercent(fileNumber, share, i, count) {
      assert tail[i] == Progress(PagePercent(fileNumber, share, i, count));
    }
    forall i, j | 0 <= i < j < |pv| ensures pv[i] <= pv[j] {
      if j < count {
        PageFractionMonotone(fileNumber, i, j, count, share);
      }
    }
  }

  lemma EntryKeepsShape(files: seq<InputFile>, index: int, n: nat, opts: Options, s: MergeState)
    requires n > 0 && LoopShape(s, Share(n))
    ensures var t := ProcessEntry(files, index, n, opts, s);
      && LoopShape(t, Share(n))
      && t.fileNumber == s.fileNumber + (if InRange(files, index) then 1 else 0)
  {
    var share := Share(n);
    if !InRange(files, index) {
      ProgressedThenQuiet(s.events, [InvalidIndex(index)], Reached(s.fileNumber, share));
    } else {
      var f := s.fileNumber;
      FileProgressShape(files[index], f, share);
      ReachedStep(f, share);
      ProgressedThenClimbs(s.events, FileEvents(files[index], f, share) + [Progress(FilePercent(f, share))],
                           Reached(f, share), FilePercent(f, share));
      assert s.events + (FileEvents(files[index], f, share) + [Progress(FilePercent(f, share))])
          == ProcessEntry(files, index, n, opts, s).events;
    }
  }

  /** The loop's invariant: after any prefix of the preview list, `fileNumber`
      counts the in-range entries so far and the loop state has `LoopShape`. */
  lemma {:induction false} LoopInvariant(files: seq<InputFile>, entries: seq<int>, n: nat, opts: Options)
    requires 0 < n && |entries| <= n
    ensures ProcessEntries(files, entries, n, opts).fileNumber == ValidCount(files, entries)
    ensures LoopShape(ProcessEntries(files, entries, n, opts), Share(n))
  {
    if entries == [] {
      assert ProgressValues([Progress(0.0)]) == [0.0];
      assert Reached(0, Share(n)) == 0.0;
    } else {
      var init := entries[..|entries| - 1];
      LoopInvariant(files, init, n, opts);
      EntryKeepsShape(files, entries[|entries| - 1], n, opts, ProcessEntries(files, init, n, opts));
    }
  }

  lemma {:induction false} ValidCountAll(files: seq<InputFile>, entries: seq<int>)
    ensures ValidCount(files, entries) == |entries| <==>
            forall k :: 0 <= k < |entries| ==> InRange(files, entries[k])
  {
    if entries != [] {
      var init := entries[..|entries| - 1];
      ValidCountAll(files, init);
      if ValidCount(files, entries) == |entries| {
        forall k | 0 <= k < |entries| ensures InRange(files, entries[k]) {
          if k < |init| { assert entries[k] == init[k]; }
        }
      }
      if forall k :: 0 <= k < |entries| ==> InRange(files, entries[k]) {
        assert forall k :: 0 <= k < |init| ==> init[k] == entries[k];
      }
    }
  }

  /** After the loop, progress stayed within 0..80, never went down, and the last
      report is 80 times the fraction of in-range entries: it reaches 80 exactly
      when every index is in range, since out-of-range entries keep their share. */
  lemma LoopProgressEnd(files: seq<InputFile>, preview: seq<int>, opts: Options)
    requires |preview| > 0
    ensures var ps := ProgressValues(LoopState(files, preview, opts).events);
            var valid := ValidCount(files, preview);
      && |ps| > 0 && ps[0] == 0.0
      && NonDecreasing(ps)
      && Within(ps, 0.0, 80.0)
      && ps[|ps| - 1] == Reached(valid, Share(|preview|))
      && (ps[|ps| - 1] == 80.0 <==> forall k :: 0 <= k < |preview| ==> InRange(files, preview[k]))
  {
    var n := |preview|;
    var s := LoopState(files, preview, opts);
    var v := ValidCount(files, preview);
    LoopInvariant(files, preview, n, opts);
    assert ProgressedTo(s.events, Reached(v, Share(n)));
    ProgressAfterShares(s.events, v, n);
    ValidCountAll(files, preview);
  }

  /** A run that has progressed through `v` of `n` shares stayed within 0..80
      and stands at 80 * v / n, which is 80 only when v = n. */
  lemma ProgressAfterShares(events: seq<Event>, v: nat, n: nat)
    requires 0 < n && v <= n && ProgressedTo(events, Reached(v, Share(n)))
    ensures var ps := ProgressValues(events);
      && |ps| > 0 && ps[0] == 0.0
      && NonDecreasing(ps)
      && Within(ps, 0.0, 80.0)
      && ps[|ps| - 1] == Reached(v, Share(n))
      && (ps[|ps| - 1] == 80.0 <==> v == n)
  {
    ShareTimesCount(v, n);
    WithinWiden(ProgressValues(events), 0.0, Reached(v, Share(n)), 80.0);
  }

  // ---------------------------------------------------------------------------
  // The whole run

  /** A merge run opens with progress 0 and posts exactly one terminal message,
      last: the `Empty output` error when no page was added, otherwise progress
      100 followed by the saved document. Every pdf-lib call is taken to
      return; one that rejects would end the run with no terminal message. */
  lemma MergeEndsOnce(files: seq<InputFile>, preview: seq<int>, opts: Options, save: seq<Page> -> seq<byte>)
    ensures var ev := MergeEvents(files, preview, opts, save);
            var s := LoopState(files, preview, opts);
      && |ev| >= 2 && ev[0] == Progress(0.0)
      && (forall k :: 0 <= k < |ev| - 1 ==> !IsTerminal(ev[k]))
      && IsTerminal(ev[|ev| - 1])
      && (|s.pages| == 0 <==> ev[|ev| - 1] == Error("Empty output", "Output is empty because all files failed to be merged"))
      && (|s.pages| > 0 <==> ev[|ev| - 1] == Success(save(s.pages)))
      && (|s.pages| > 0 ==> ev[|ev| - 2] == Progress(100.0))
  {
    var s := LoopState(files, preview, opts);
    if |preview| > 0 {
      LoopInvariant(files, preview, |preview|, opts);
    }
  }

  /** Over the whole run, progress opens at 0, never goes down and stays within
      0..100. */
  lemma MergeProgressMonotone(files: seq<InputFile>, preview: seq<int>, opts: Options, save: seq<Page> -> seq<byte>)
    ensures var ps := ProgressValues(MergeEvents(files, preview, opts, save));
      |ps| > 0 && ps[0] == 0.0 && NonDecreasing(ps) && Within(ps, 0.0, 100.0)
  {
    var s := LoopState(files, preview, opts);
    var top: real := 0.0;
    if |preview| > 0 {
      LoopInvariant(files, preview, |preview|, opts);
      ShareTimesCount(s.fileNumber, |preview|);
      top := Reached(s.fileNumber, Share(|preview|));
    } else {
      assert ProgressValues(s.events) == [0.0];
    }
    if |s.pages| == 0 {
      ProgressedThenEnds(s.events, top, [EmptyOutput]);
    } else {
      ProgressedThenEnds(s.events, top, [Progress(100.0), Success(save(s.pages))]);
    }
  }

  // ---------------------------------------------------------------------------
  // Order of the merged pages

  /** Reference definition: the pages of the preview entries, first to last. */
  function PagesOf(files: seq<InputFile>, entries: seq<int>, opts: Options): seq<Page> {
    if entries == [] then []
    else EntryPages(files, entries[0], opts) + PagesOf(files, entries[1..], opts)
  }

  function EntryPages(files: seq<InputFile>, index: int, opts: Options): seq<Page> {
    if InRange(files, index) then FilePages(files[index], opts) else []
  }

  /** One iteration adds exactly the entry's pages. */
  lemma EntryAppendsPages(files: seq<InputFile>, index: int, n: nat, opts: Options, s: MergeState)
    requires n > 0
    ensures ProcessEntry(files, index, n, opts, s).pages == s.pages + EntryPages(files, index, opts)
  {
  }

  lemma {:induction false} PagesOfSnoc(files: seq<InputFile>, entries: seq<int>, index: int, opts: Options)
    ensures PagesOf(files, entries + [index], opts) == PagesOf(files, entries, opts) + EntryPages(files, index, opts)
  {
    if entries != [] {
      assert (entries + [index])[1..] == entries[1..] + [index];
      PagesOfSnoc(files, entries[1..], index, opts);
    } else {
      assert PagesOf(files, [index], opts) == EntryPages(files, index, opts) + PagesOf(files, [], opts);
    }
  }

  /** The merged document holds the pages of the preview entries in preview
      order, each file's pages in their own order. */
  lemma {:induction false} PagesFollowPreview(files: seq<InputFile>, entries: seq<int>, n: nat, opts: Options)
    requires |entries| <= n
    ensures ProcessEntries(files, entries, n, opts).pages == PagesOf(files, entries, opts)
  {
    if entries != [] {
      PagesFollowPreview(files, entries[..|entries| - 1], n, opts);
      PagesStep(files, entries, n, opts);
    }
  }

  /** Handling one more entry extends both page lists by the entry's pages. */
  lemma PagesStep(files: seq<InputFile>, entries: seq<int>, n: nat, opts: Options)
    requires 0 < |entries| <= n
    requires ProcessEntries(files, entries[..|entries| - 1], n, opts).pages
          == PagesOf(files, entries[..|entries| - 1], opts)
    ensures ProcessEntries(files, entries, n, opts).pages == PagesOf(files, entries, opts)
  {
    PagesOfLast(files, entries, opts);
    EntryAppendsPages(files, entries[|entries| - 1], n, opts,
                      ProcessEntries(files, entries[..|entries| - 1], n, opts));
  }

  /** The reference page list ends with the last entry's pages. */
  lemma PagesOfLast(files: seq<InputFile>, entries: seq<int>, opts: Options)
    requires entries != []
    ensures PagesOf(files, entries, opts)
         == PagesOf(files, entries[..|entries| - 1], opts) + EntryPages(files, entries[|entries| - 1], opts)
  {
    var init, index := entries[..|entries| - 1], entries[|entries| - 1];
    assert entries == init + [index];
    PagesOfSnoc(files, init, index, opts);
  }

  // ---------------------------------------------------------------------------
  // Dispatch

  /** Any inbound type other than `merge` is answered with one error and no progress. */
  lemma OtherMessageRefused(req: MergeRequest, save: seq<Page> -> seq<byte>)
    requires req.msgType != "merge"
    ensures var ev := OnMessageEvents(req, save);
      && |ev| == 1 && ev[0].Error?
      && ev[0].message == "Invalid message type"
      && ProgressValues(ev) == []
  {
  }

  // ---------------------------------------------------------------------------
  // Arithmetic

  lemma PageFractionMonotone(fileNumber: nat, i: nat, j: nat, count: nat, share: real)
    requires i <= j < count && share >= 0.0
    ensures PagePercent(fileNumber, share, i, count) <= PagePercent(fileNumber, share, j, count)
  {
    var c := count as real;
    var x, y := ((i + 1) as real) * share, ((j + 1) as real) * share;
    assert y - x == ((j - i) as real) * share;
    MulNonNegative((j - i) as real, share);
    assert x / c <= y / c by {
      assert (y - x) / c >= 0.0;
      assert y / c - x / c == (y - x) / c;
    }
  }

  /** `v` of `n` shares: 80 * v / n, at most 80, and 80 only when v = n. */
  lemma ShareTimesCount(v: nat, n: nat)
    requires 0 < n && v <= n
    ensures Reached(v, Share(n)) == 80.0 * (v as real) / (n as real)
    ensures Reached(v, Share(n)) <= 80.0
    ensures Reached(v, Share(n)) == 80.0 <==> v == n
  {
    var x := Reached(v, Share(n));
    assert x * (n as real) == 80.0 * (v as real);
    if v < n {
      assert x * (n as real) < 80.0 * (n as real);
    }
  }
}
