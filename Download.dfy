/** The image downloader: the guard against a missing record or an existing file,
    and the streaming of the response body into the new file. The filesystem is
    the map from each existing path to its contents. */
module Download {
  import opened Common
  import opened Meta

  type Files = map<string, seq<byte>>

  /** What the https GET of the asset URL delivers: a request error, or the body
      as the sequence of 'data' chunks followed by 'end'. */
  datatype Response = RequestFailed | Delivered(chunks: seq<seq<byte>>)

  /** The file contents after writing `chunks` in order. */
  function Concat(chunks: seq<seq<byte>>): seq<byte> {
    if chunks == [] then [] else Concat(chunks[..|chunks| - 1]) + chunks[|chunks| - 1]
  }

  /** The byte length of a response body, summed chunk by chunk. */
  function TotalLength(chunks: seq<seq<byte>>): nat {
    if chunks == [] then 0 else |chunks[0]| + TotalLength(chunks[1..])
  }

  lemma {:induction false} TotalLengthSnoc(chunks: seq<seq<byte>>, c: seq<byte>)
    ensures TotalLength(chunks + [c]) == TotalLength(chunks) + |c|
  {
    if chunks == [] {
      assert chunks + [c] == [c];
      assert [c][1..] == [];
    } else {
      assert (chunks + [c])[1..] == chunks[1..] + [c];
      TotalLengthSnoc(chunks[1..], c);
    }
  }

  /** The downloaded file is exactly as long as the response body: nothing is
      truncated or duplicated. */
  lemma {:induction false} ConcatLength(chunks: seq<seq<byte>>)
    ensures |Concat(chunks)| == TotalLength(chunks)
  {
    if chunks != [] {
      var init := chunks[..|chunks| - 1];
      ConcatLength(init);
      assert init + [chunks[|chunks| - 1]] == chunks;
      TotalLengthSnoc(init, chunks[|chunks| - 1]);
    }
  }

  /** download_image: reject a missing record; reject when its physical path
      already exists. Otherwise createWriteStream opens the new file, unless `opens`
      is false (the wallpaper directory is missing or not writable): the stream's
      unhandled 'error' event then ends the process, so no file is created and the
      promise never settles. Once open, the file is filled with the body, or the
      promise rejects on a request error, leaving the empty file behind. */
  function DownloadSpec(files: Files, image: Option<ImageRecord>, opens: bool, response: Response)
    : (Files, Settlement<ImageRecord>)
  {
    match image
    case None => (files, Rejected(NoImageMeta))
    case Some(rec) =>
      if rec.physicalPath in files then (files, Rejected(ImageAlreadyThere))
      else if !opens then (files, Unsettled)
      else
        match response
        case RequestFailed => (files[rec.physicalPath := []], Rejected(NetworkError))
        case Delivered(chunks) => (files[rec.physicalPath := Concat(chunks)], Resolved(rec))
  }

  /** The guard: a missing record or an existing destination is rejected and the
      filesystem is left exactly as it was; past the guard, the filesystem changes
      exactly when the new file can be opened. */
  lemma DownloadGuard(files: Files, image: Option<ImageRecord>, opens: bool, response: Response)
    ensures image.None? ==> DownloadSpec(files, image, opens, response) == (files, Rejected(NoImageMeta))
    ensures image.Some? && image.value.physicalPath in files ==>
      DownloadSpec(files, image, opens, response) == (files, Rejected(ImageAlreadyThere))
    ensures DownloadSpec(files, image, opens, response).0 == files
      <==> image.None? || image.value.physicalPath in files || !opens
  {
    if image.Some? && image.value.physicalPath !in files && opens {
      var p := image.value.physicalPath;
      assert p in DownloadSpec(files, image, opens, response).0;
    }
  }

  /** When the guard lets the record through and the file cannot be opened,
      nothing changes and the download never settles. When it opens, exactly one
      file is created, at its physical path, and every other path keeps its
      contents; the download succeeds exactly when the body arrives, and the file
      then holds the body. */
  lemma DownloadCreatesOnlyPhysicalPath(files: Files, rec: ImageRecord, opens: bool, response: Response)
    requires rec.physicalPath !in files
    ensures !opens ==> DownloadSpec(files, Some(rec), opens, response) == (files, Unsettled)
    ensures var (after, r) := DownloadSpec(files, Some(rec), opens, response);
      opens ==>
        after.Keys == files.Keys + {rec.physicalPath}
        && (forall q :: q in files ==> after[q] == files[q])
        && (r == Resolved(rec) <==> response.Delivered?)
        && (!r.Resolved? ==> r == Rejected(NetworkError) && after[rec.physicalPath] == [])
        && (response.Delivered? ==> |after[rec.physicalPath]| == TotalLength(response.chunks))
  {
    if response.Delivered? {
      ConcatLength(response.chunks);
    }
  }

  /** A second download of the same record, after the first one created the file,
      is rejected as already there and touches nothing; the first one created it
      exactly when the file could be opened. */
  lemma DownloadTwice(files: Files, rec: ImageRecord, opens: bool, first: Response, opensAgain: bool, second: Response)
    requires rec.physicalPath !in files
    ensures var after := DownloadSpec(files, Some(rec), opens, first).0;
      (rec.physicalPath in after <==> opens)
      && (opens ==> DownloadSpec(after, Some(rec), opensAgain, second) == (after, Rejected(ImageAlreadyThere)))
  {
  }

  /** The filesystem seen by the downloader. */
  class FileSystem {
    var files: Files

    constructor (initial: Files)
      ensures files == initial
    {
      files := initial;
    }

    /** download_image, with the body's chunks written one at a time. */
    method DownloadImage(image: Option<ImageRecord>, opens: bool, response: Response)
      returns (r: Settlement<ImageRecord>)
      modifies this
      ensures (files, r) == DownloadSpec(old(files), image, opens, response)
    {
      if image.None? {
        return Rejected(NoImageMeta);
      }
      var path := image.value.physicalPath;
      if path in files {
        return Rejected(ImageAlreadyThere);
      }
      if !opens {
        return Unsettled;
      }
      files := files[path := []];
      match response
      case RequestFailed =>
        r := Rejected(NetworkError);
      case Delivered(chunks) =>
        var i := 0;
        while i < |chunks|
          invariant 0 <= i <= |chunks|
          invariant files == old(files)[path := Concat(chunks[..i])]
        {
          assert chunks[..i + 1][..i] == chunks[..i];
          files := files[path := files[path] + chunks[i]];
          i := i + 1;
        }
        assert chunks[..|chunks|] == chunks;
        r := Resolved(image.value);
    }
  }
}
