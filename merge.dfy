/** The merge worker built on pdf-lib: `mergePdf` walks the user-ordered preview
    list, turns each image into one page and copies the pages of each PDF, and
    reports progress, per-file warnings and one terminal message.

    Every pdf-lib call is replaced by a given outcome: what embedding or loading
    a file's bytes yields is part of the input file, and serialising the merged
    document is the function `save`. A page is its (width, height) in PDF points. */
module PdfLibWorker {
  import opened Messages
  import opened Text
  import opened Units

  type Positive = r: real | r > 0.0 witness 1.0

  /** A page of the merged document: its (width, height) in PDF points, or a
      page whose size JavaScript computes as infinite or NaN, which is what
      rescaling a page with a zero anchor dimension yields. */
  datatype Page = Page(width: real, height: real) | NonFinite

  /** A page of a loaded PDF. pdf-lib measures it as the upper-right minus the
      lower-left corner of its MediaBox, so any finite size can occur, zero and
      negative sides included. */
  type SourcePage = p: Page | p.Page? witness Page(1.0, 1.0)

  /** The side of a finite page that scaling fixes. */
  function Anchor(p: Page, d: Dimension): real
    requires p.Page?
  {
    if d == Width then p.width else p.height
  }

  /** What pdf-lib does with a file's bytes: an image decodes (to its pixel
      size) or fails, a PDF loads (to its pages in order) or fails with an error
      message. */
  datatype Outcome =
    | Decoded(width: Positive, height: Positive)
    | DecodeFailed
    | Loaded(pages: seq<SourcePage>)
    | LoadFailed(message: string)

  datatype InputFile = InputFile(mime: string, name: string, outcome: Outcome)

  datatype ScaleType = All | NoScale
  datatype Dimension = Width | Height

  datatype Options = Options(
    scaleType: ScaleType,
    scaleDimension: Dimension,
    outputSize: real,
    outputSizeUnit: Unit)

  /** How a file is handled, chosen by its MIME type. */
  datatype Kind = PngImage | JpegImage | PdfFile | OtherType

  /** The state `mergePdf` carries from one preview entry to the next: the
      messages posted so far, the pages of the merged document and `fileNumber`. */
  datatype MergeState = MergeState(events: seq<Event>, pages: seq<Page>, fileNumber: nat)

  const EmptyOutput := Error("Empty output", "Output is empty because all files failed to be merged")
  const UnknownSkipped := "Unknown error, this file was skipped"
  const EncryptedSkipped := "Document is encrypted, this file was skipped"

  function KindOf(mime: string): (k: Kind)
    ensures k == PngImage <==> mime == "image/png"
    ensures k == JpegImage <==> mime == "image/jpg" || mime == "image/jpeg"
    ensures k == PdfFile <==> mime == "application/pdf"
  {
    if mime == "image/png" then PngImage
    else if mime == "image/jpg" || mime == "image/jpeg" then JpegImage
    else if mime == "application/pdf" then PdfFile
    else OtherType
  }

  predicate InRange(files: seq<InputFile>, index: int) {
    0 <= index < |files|
  }

  /** The configured output size converted to PDF points. */
  function Target(opts: Options): real {
    ConvertUnit(opts.outputSize, opts.outputSizeUnit, Pdf)
  }

  /** The page made for a decoded image: its anchor dimension is the target
      size and its aspect ratio is the image's. */
  function ImagePage(width: Positive, height: Positive, opts: Options): (p: Page)
    ensures p.Page?
    ensures opts.scaleDimension == Width ==> p.width == Target(opts)
    ensures opts.scaleDimension == Height ==> p.height == Target(opts)
    ensures p.width * height == p.height * width
  {
    if opts.scaleDimension == Width then
      var w := Target(opts);
      assert (height / width) * w * width == height * w;
      Page(w, (height / width) * w)
    else
      var h := Target(opts);
      assert (width / height) * h * height == width * h;
      Page((width / height) * h, h)
  }

  /** A copied PDF page: unchanged unless every page is scaled. Scaling divides
      the target size by the page's anchor dimension: a page whose anchor
      dimension is zero gets a non-finite size, any other page is rescaled
      uniformly so that its anchor dimension is the target size. */
  function ScalePage(p: SourcePage, opts: Options): (q: Page)
    ensures opts.scaleType == NoScale ==> q == p
    ensures opts.scaleType == All && Anchor(p, opts.scaleDimension) == 0.0 ==> q == NonFinite
    ensures opts.scaleType == All && Anchor(p, opts.scaleDimension) != 0.0 ==>
              q.Page? && Anchor(q, opts.scaleDimension) == Target(opts)
    ensures q.Page? ==> q.width * p.height == q.height * p.width
  {
    if opts.scaleType == All then
      var anchor := Anchor(p, opts.scaleDimension);
      if anchor == 0.0 then NonFinite
      else
        var factor := Target(opts) / anchor;
        Page(p.width * factor, p.height * factor)
    else
      p
  }

  function CopiedPages(src: seq<SourcePage>, opts: Options): (r: seq<Page>)
    ensures |r| == |src|
    ensures forall k :: 0 <= k < |src| ==> r[k] == ScalePage(src[k], opts)
  {
    seq(|src|, k requires 0 <= k < |src| => ScalePage(src[k], opts))
  }

  /** The pages one file contributes to the merged document, in order: only a
      decoded image or a loaded PDF adds any, an image adds one page and a PDF
      one page per source page. */
  function FilePages(file: InputFile, opts: Options): (r: seq<Page>)
    ensures r != [] ==> file.outcome.Decoded? || file.outcome.Loaded?
    ensures KindOf(file.mime) == PdfFile && file.outcome.Loaded? ==> |r| == |file.outcome.pages|
    ensures KindOf(file.mime) != PdfFile ==> |r| <= 1
  {
    match KindOf(file.mime)
    case PngImage | JpegImage =>
      if file.outcome.Decoded? then [ImagePage(file.outcome.width, file.outcome.height, opts)] else []
    case PdfFile =>
      if file.outcome.Loaded? then CopiedPages(file.outcome.pages, opts) else []
    case OtherType => []
  }

  /** The description of a failed PDF load: only an error whose message says the
      document is encrypted gets the encrypted description. */
  function LoadFailureDescription(outcome: Outcome): (d: string)
    ensures d == EncryptedSkipped <==> outcome.LoadFailed? && Contains(outcome.message, "is encrypted")
    ensures d == EncryptedSkipped || d == UnknownSkipped
  {
    if outcome.LoadFailed? && Contains(outcome.message, "is encrypted") then EncryptedSkipped
    else UnknownSkipped
  }

  /** Each in-range entry owns an equal share of the first 80 percent. */
  function Share(n: nat): (r: real)
    requires n > 0
    ensures r > 0.0
  {
    80.0 / (n as real)
  }

  /** The percentage reached once `fileNumber` in-range files are done. */
  function Reached(fileNumber: nat, share: real): real {
    (fileNumber as real) * share
  }

  /** The percentage posted after the last step of the `fileNumber`-th in-range file. */
  function FilePercent(fileNumber: nat, share: real): real {
    Reached(fileNumber + 1, share)
  }

  /** The percentage posted after copying page `k` of `count`: it lies within the
      file's share and the last page reaches the file's end value. */
  function PagePercent(fileNumber: nat, share: real, k: nat, count: nat): (r: real)
    requires k < count && share >= 0.0
    ensures Reached(fileNumber, share) <= r <= FilePercent(fileNumber, share)
    ensures k + 1 == count ==> r == FilePercent(fileNumber, share)
  {
    PageFractionBound(k, count, share);
    ReachedStep(fileNumber, share);
    Reached(fileNumber, share) + ((k + 1) as real) * share / (count as real)
  }

  function PageProgress(fileNumber: nat, share: real, count: nat): (r: seq<Event>)
    requires share >= 0.0
    ensures |r| == count
    ensures forall k :: 0 <= k < count ==> r[k] == Progress(PagePercent(fileNumber, share, k, count))
  {
    seq(count, k requires 0 <= k < count => Progress(PagePercent(fileNumber, share, k, count)))
  }

  /** The messages one in-range file produces before its end-of-file progress:
      either progress reports only, or a single warning. None of them ends the run. */
  function FileEvents(file: InputFile, fileNumber: nat, share: real): (r: seq<Event>)
    requires share >= 0.0
    ensures (forall k :: 0 <= k < |r| ==> r[k].Progress?) || (|r| == 1 && r[0].Warning?)
    ensures forall k :: 0 <= k < |r| ==> !IsTerminal(r[k])
  {
    match KindOf(file.mime)
    case PngImage | JpegImage =>
      if file.outcome.Decoded? then []
      else [Warning("Failed to embed image: " + file.name, UnknownSkipped)]
    case PdfFile =>
      if file.outcome.Loaded? then PageProgress(fileNumber, share, |file.outcome.pages|)
      else [Warning("Failed to load PDF: " + file.name, LoadFailureDescription(file.outcome))]
    case OtherType =>
      [Warning("Unsupported file type: " + file.name,
               "File type " + file.mime + " is not supported, this file was skipped")]
  }

  function InvalidIndex(index: int): Event {
    Warning("Invalid file index: " + IntToString(index), "File index is out of range, this file was skipped")
  }

  /** One iteration of the loop over `filesPreview`, whose length is `n`. It only
      appends, to the messages and to the pages, and it counts the file exactly
      when the index is in range. */
  function ProcessEntry(files: seq<InputFile>, index: int, n: nat, opts: Options, s: MergeState): (r: MergeState)
    requires n > 0
    ensures s.events <= r.events && s.pages <= r.pages
    ensures r.fileNumber == if InRange(files, index) then s.fileNumber + 1 else s.fileNumber
  {
    if !InRange(files, index) then
      s.(events := s.events + [InvalidIndex(index)])
    else
      var file := files[index];
      MergeState(
        s.events + FileEvents(file, s.fileNumber, Share(n)) + [Progress(FilePercent(s.fileNumber, Share(n)))],
        s.pages + FilePages(file, opts),
        s.fileNumber + 1)
  }

  /** The state after the loop has handled `entries`, a prefix of a preview list
      of length `n`. The run opens with progress 0 and counts no more files
      than it has handled. */
  function ProcessEntries(files: seq<InputFile>, entries: seq<int>, n: nat, opts: Options): (r: MergeState)
    requires |entries| <= n
    ensures |r.events| > 0 && r.events[0] == Progress(0.0)
    ensures r.fileNumber <= |entries|
    decreases |entries|
  {
    if entries == [] then MergeState([Progress(0.0)], [], 0)
    else
      ProcessEntry(files, entries[|entries| - 1], n, opts,
                   ProcessEntries(files, entries[..|entries| - 1], n, opts))
  }

  function LoopState(files: seq<InputFile>, preview: seq<int>, opts: Options): MergeState {
    ProcessEntries(files, preview, |preview|, opts)
  }

  /** Every message `mergePdf` posts: the loop's, then an `Empty output` error
      when no page was added, or progress 100 and the saved document. The run
      opens with progress 0 and ends with a terminal message. */
  function MergeEvents(files: seq<InputFile>, preview: seq<int>, opts: Options,
                       save: seq<Page> -> seq<byte>): (r: seq<Event>)
    ensures |r| > 1 && r[0] == Progress(0.0)
    ensures IsTerminal(r[|r| - 1])
  {
    var s := LoopState(files, preview, opts);
    if |s.pages| == 0 then s.events + [EmptyOutput]
    else s.events + [Progress(100.0), Success(save(s.pages))]
  }

  /** Extending the handled prefix of the preview list by one entry handles that entry. */
  lemma ProcessEntriesNext(files: seq<InputFile>, preview: seq<int>, i: nat, opts: Options)
    requires i < |preview|
    ensures ProcessEntries(files, preview[..i + 1], |preview|, opts)
         == ProcessEntry(files, preview[i], |preview|, opts, ProcessEntries(files, preview[..i], |preview|, opts))
  {
    assert preview[..i + 1][..i] == preview[..i];
  }

  /** `mergePdf`: the loop over the preview list, with the inner loop over the
      pages copied from each PDF. */
  method MergePdf(files: seq<InputFile>, preview: seq<int>, opts: Options,
                  save: seq<Page> -> seq<byte>)
    returns (events: seq<Event>, pages: seq<Page>)
    ensures events == MergeEvents(files, preview, opts, save)
    ensures pages == LoopState(files, preview, opts).pages
  {
    events := [Progress(0.0)];
    pages := [];
    var fileNumber: nat := 0;
    var i := 0;
    assert preview[..0] == [];
    while i < |preview|
      invariant 0 <= i <= |preview|
      invariant MergeState(events, pages, fileNumber) == ProcessEntries(files, preview[..i], |preview|, opts)
    {
      ProcessEntriesNext(files, preview, i, opts);
      events, pages, fileNumber := HandleEntry(files, preview[i], |preview|, opts, events, pages, fileNumber);
      i := i + 1;
    }
    assert preview[..i] == preview;
    if |pages| == 0 {
      events := events + [EmptyOutput];
      return;
    }
    var saved := save(pages);
    events := events + [Progress(100.0), Success(saved)];
  }

  /** One pass of the loop: an out-of-range index is reported and skipped;
      otherwise the file is handled and its share of progress reported. */
  method HandleEntry(files: seq<InputFile>, index: int, n: nat, opts: Options,
                     events0: seq<Event>, pages0: seq<Page>, fileNumber0: nat)
    returns (events: seq<Event>, pages: seq<Page>, fileNumber: nat)
    requires n > 0
    ensures MergeState(events, pages, fileNumber)
         == ProcessEntry(files, index, n, opts, MergeState(events0, pages0, fileNumber0))
  {
    if index < 0 || index >= |files| {
      return events0 + [InvalidIndex(index)], pages0, fileNumber0;
    }
    var share := Share(n);
    events, pages := HandleFile(files[index], fileNumber0, share, opts, events0, pages0);
    events := events + [Progress(FilePercent(fileNumber0, share))];
    fileNumber := fileNumber0 + 1;
  }

  /** The body of the `switch (file.type)` for one in-range file: what it posts
      and the pages it adds. */
  method HandleFile(file: InputFile, fileNumber: nat, share: real, opts: Options,
                    events0: seq<Event>, pages0: seq<Page>)
    returns (events: seq<Event>, pages: seq<Page>)
    requires share >= 0.0
    ensures events == events0 + FileEvents(file, fileNumber, share)
    ensures pages == pages0 + FilePages(file, opts)
  {
    events, pages := events0, pages0;
    match KindOf(file.mime) {
      case PngImage =>
        if file.outcome.Decoded? {
          pages := pages + [ImagePage(file.outcome.width, file.outcome.height, opts)];
        } else {
          events := events + [Warning("Failed to embed image: " + file.name, UnknownSkipped)];
        }
      case JpegImage =>
        if file.outcome.Decoded? {
          pages := pages + [ImagePage(file.outcome.width, file.outcome.height, opts)];
        } else {
          events := events + [Warning("Failed to embed image: " + file.name, UnknownSkipped)];
        }
      case PdfFile =>
        if file.outcome.Loaded? {
          events, pages := CopyPages(file.outcome.pages, fileNumber, share, opts, events, pages);
        } else {
          events := events + [Warning("Failed to load PDF: " + file.name, LoadFailureDescription(file.outcome))];
        }
      case OtherType =>
        events := events + [Warning("Unsupported file type: " + file.name,
                                    "File type " + file.mime + " is not supported, this file was skipped")];
    }
  }

  /** The loop over the pages copied from one loaded PDF: each is rescaled when
      asked, added, and followed by a progress message. */
  method CopyPages(src: seq<SourcePage>, fileNumber: nat, share: real, opts: Options,
                   events0: seq<Event>, pages0: seq<Page>)
    returns (events: seq<Event>, pages: seq<Page>)
    requires share >= 0.0
    ensures events == events0 + PageProgress(fileNumber, share, |src|)
    ensures pages == pages0 + CopiedPages(src, opts)
  {
    events, pages := events0, pages0;
    var count := |src|;
    var k := 0;
    while k < count
      invariant 0 <= k <= count
      invariant pages == pages0 + CopiedPages(src, opts)[..k]
      invariant events == events0 + PageProgress(fileNumber, share, count)[..k]
    {
      assert CopiedPages(src, opts)[..k + 1] == CopiedPages(src, opts)[..k] + [ScalePage(src[k], opts)];
      assert PageProgress(fileNumber, share, count)[..k + 1]
          == PageProgress(fileNumber, share, count)[..k] + [Progress(PagePercent(fileNumber, share, k, count))];
      pages := pages + [ScalePage(src[k], opts)];
      events := events + [Progress(PagePercent(fileNumber, share, k, count))];
      k := k + 1;
    }
    assert CopiedPages(src, opts)[..count] == CopiedPages(src, opts);
    assert PageProgress(fileNumber, share, count)[..count] == PageProgress(fileNumber, share, count);
  }

  /** An inbound message to the merge worker. */
  datatype MergeRequest = MergeRequest(msgType: string, files: seq<InputFile>, filesPreview: seq<int>, options: Options)

  const InvalidMessageType := Error("Invalid message type", "Received an invalid message type")

  function OnMessageEvents(req: MergeRequest, save: seq<Page> -> seq<byte>): seq<Event> {
    if req.msgType == "merge" then MergeEvents(req.files, req.filesPreview, req.options, save)
    else [InvalidMessageType]
  }

  /** `onmessage`: a `merge` request runs `mergePdf`; any other type is refused. */
  method OnMessage(req: MergeRequest, save: seq<Page> -> seq<byte>) returns (events: seq<Event>)
    ensures events == OnMessageEvents(req, save)
  {
    if req.msgType == "merge" {
      var merged;
      events, merged := MergePdf(req.files, req.filesPreview, req.options, save);
    } else {
      events := [InvalidMessageType];
    }
  }

  // ---------------------------------------------------------------------------
  // Arithmetic of the progress shares

  lemma PageFractionBound(k: nat, count: nat, share: real)
    requires k < count && share >= 0.0
    ensures 0.0 <= ((k + 1) as real) * share / (count as real) <= share
    ensures k + 1 == count ==> ((k + 1) as real) * share / (count as real) == share
  {
    var c := count as real;
    var x := ((k + 1) as real) * share;
    assert c * share - x == (c - (k + 1) as real) * share;
    MulNonNegative(c - (k + 1) as real, share);
    assert x / c * c == x;
    assert x / c <= share;
  }

  /** Finishing one more file adds one share. */
  lemma ReachedStep(fileNumber: nat, share: real)
    requires share >= 0.0
    ensures 0.0 <= Reached(fileNumber, share) <= FilePercent(fileNumber, share)
    ensures FilePercent(fileNumber, share) == Reached(fileNumber, share) + share
  {
    MulNonNegative(fileNumber as real, share);
  }

  lemma MulNonNegative(a: real, b: real)
    requires a >= 0.0 && b >= 0.0
    ensures a * b >= 0.0
  {
  }
}
