/**
 * downloader.py: the download URL and archive name of `download_photos`,
 * the Referer choice, and the outcome of `download_file`, which streams the
 * response into `photos_<order id>.zip` inside the output folder, then tries
 * to unpack it and removes it after a successful extraction.
 *
 * The network, the file writes and the zip library are abstract: the reply,
 * the point where writing fails and the result of the extraction are inputs.
 */
module Downloader {
  import opened Values
  import opened Text

  const DOWNLOAD_BASE_API_URL: string := "https://api.cewe-myphotos.com/api/imageCD"
  const FOTOPARADIES_REFERER: string := "https://www.fotoparadies.de/"
  const CEWE_REFERER: string := "https://www.cewe-myphotos.com/"

  /** `f"{DOWNLOAD_BASE_API_URL}/{order_id}/{secure_id}/download"` */
  function DownloadPath(orderId: string, secureId: string): string {
    DOWNLOAD_BASE_API_URL + "/" + orderId + "/" + secureId + "/download"
  }

  /**
   * The prepared request URL: the path, then the two query parameters `aak`
   * and `clientVersion` with the externally provisioned values.
   */
  function DownloadUrl(orderId: string, secureId: string, aak: string, clientVersion: string): string {
    DownloadPath(orderId, secureId) + "?" + "aak=" + aak + "&" + "clientVersion=" + clientVersion
  }

  /** `f"photos_{order_id}.zip"` */
  function ArchiveName(orderId: string): string {
    "photos_" + orderId + ".zip"
  }

  /** The Referer header of the download request. */
  function Referer(url: string): string {
    if Contains(url, "fotoparadies") then FOTOPARADIES_REFERER else CEWE_REFERER
  }

  /** The last three segments of `base/orderId/secureId/last`, for any base. */
  lemma PathTailSegments(base: string, orderId: string, secureId: string, last: string)
    requires '/' !in orderId && '/' !in secureId && '/' !in last
    ensures var segs := Segments(base + "/" + orderId + "/" + secureId + "/" + last);
            |segs| >= 3 && segs[|segs| - 3..] == [orderId, secureId, last]
  {
    SegmentsOfJoin(base + "/" + orderId + "/" + secureId, last);
    SegmentsOfJoin(base + "/" + orderId, secureId);
    SegmentsOfJoin(base, orderId);
    SegmentsOfPlain(orderId);
    SegmentsOfPlain(secureId);
    SegmentsOfPlain(last);
  }

  /** When neither id holds a '/', the last three path segments are the order id, the secure id and "download". */
  lemma DownloadPathSegments(orderId: string, secureId: string)
    requires '/' !in orderId && '/' !in secureId
    ensures var segs := Segments(DownloadPath(orderId, secureId));
            |segs| >= 3 && segs[|segs| - 3..] == [orderId, secureId, "download"]
  {
    PathTailSegments(DOWNLOAD_BASE_API_URL, orderId, secureId, "download");
    assert DownloadPath(orderId, secureId) == DOWNLOAD_BASE_API_URL + "/" + orderId + "/" + secureId + "/" + "download";
  }

  /** Distinct slash-free id pairs give distinct download paths. */
  lemma DownloadPathInjective(o1: string, s1: string, o2: string, s2: string)
    requires '/' !in o1 && '/' !in s1 && '/' !in o2 && '/' !in s2
    requires DownloadPath(o1, s1) == DownloadPath(o2, s2)
    ensures o1 == o2 && s1 == s2
  {
    DownloadPathSegments(o1, s1);
    DownloadPathSegments(o2, s2);
    var segs := Segments(DownloadPath(o1, s1));
    assert segs[|segs| - 3] == o1 && segs[|segs| - 3] == o2;
    assert segs[|segs| - 2] == s1 && segs[|segs| - 2] == s2;
  }

  /** Distinct orders get distinct archive names, so they never overwrite each other's archive. */
  lemma ArchiveNameInjective(o1: string, o2: string)
    requires ArchiveName(o1) == ArchiveName(o2)
    ensures o1 == o2
  {
    var n := ArchiveName(o1);
    assert |o1| == |o2|;
    assert o1 == n[7..7 + |o1|];
    assert o2 == n[7..7 + |o2|];
  }

  /** A search for `w` in `base/orderId/secureId/download` looks only at the two ids. */
  lemma SearchPath(base: string, orderId: string, secureId: string, w: string)
    requires w != [] && w[0] !in base && '/' !in w
    ensures Contains(base + "/" + orderId + "/" + secureId + "/download", w)
            <==> Contains(orderId, w) || Contains(secureId, w) || Contains("download", w)
  {
    var afterOrder := secureId + ['/'] + "download";
    var rest := orderId + ['/'] + afterOrder;
    assert base + "/" + orderId + "/" + secureId + "/download" == base + ['/'] + rest;
    SplitSearch(base, '/', rest, w);
    SplitSearch(orderId, '/', afterOrder, w);
    SplitSearch(secureId, '/', "download", w);
    CharsOfOccurrence(base, w);
  }

  /** A search for `w` in `path?aak=A&clientVersion=V` looks only at the path and the two values. */
  lemma SearchQuery(path: string, aak: string, clientVersion: string, w: string)
    requires '?' !in w && '=' !in w && '&' !in w
    requires !Contains("aak", w) && !Contains("clientVersion", w)
    ensures Contains(path + "?" + "aak=" + aak + "&" + "clientVersion=" + clientVersion, w)
            <==> Contains(path, w) || Contains(aak, w) || Contains(clientVersion, w)
  {
    var tail := "clientVersion" + ['='] + clientVersion;
    var afterAak := aak + ['&'] + tail;
    var query := "aak" + ['='] + afterAak;
    assert path + "?" + "aak=" + aak + "&" + "clientVersion=" + clientVersion == path + ['?'] + query;
    SplitSearch(path, '?', query, w);
    SplitSearch("aak", '=', afterAak, w);
    SplitSearch(aak, '&', tail, w);
    SplitSearch("clientVersion", '=', clientVersion, w);
  }

  /** The fixed parts of the download URL do not contain "fotoparadies". */
  lemma FixedPartsLackFotoparadies()
    ensures 'f' !in DOWNLOAD_BASE_API_URL
    ensures !Contains("download", "fotoparadies") && !Contains("aak", "fotoparadies")
    ensures !Contains("clientVersion", "fotoparadies")
  {
    CharsOfOccurrence("clientVersion", "fotoparadies");
    assert 'f' in "fotoparadies" && 'f' !in "clientVersion";
  }

  /**
   * The fotoparadies Referer is chosen exactly when one of the four values
   * placed in the URL contains "fotoparadies": nothing else in the URL does.
   */
  lemma RefererOfDownloadUrl(orderId: string, secureId: string, aak: string, clientVersion: string)
    ensures Referer(DownloadUrl(orderId, secureId, aak, clientVersion)) == FOTOPARADIES_REFERER
            <==> Contains(orderId, "fotoparadies") || Contains(secureId, "fotoparadies")
                 || Contains(aak, "fotoparadies") || Contains(clientVersion, "fotoparadies")
  {
    var w := "fotoparadies";
    FixedPartsLackFotoparadies();
    SearchPath(DOWNLOAD_BASE_API_URL, orderId, secureId, w);
    SearchQuery(DownloadPath(orderId, secureId), aak, clientVersion, w);
  }

  /** What `requests.get(url, ...)` and `raise_for_status` produced. */
  datatype DownloadReply =
    | RequestError(message: string)
    | Received(contentLength: Option<int>, chunks: seq<seq<byte>>)

  /** Where an IOError interrupts the writing of the archive, if anywhere. */
  datatype WriteFault = NoFault | OpenFails | WriteFails(index: nat)

  /** How the extraction step ends. */
  datatype Extraction =
    | Extracted       // extractall and unlink both succeed
    | BadZipFile      // the payload is not a zip archive
    | ExtractFailed   // any other error while extracting
    | UnlinkFailed    // extracted, but removing the archive raised

  /** One progress report: bytes so far and the percentage of the announced size. */
  datatype Progress = Progress(downloaded: nat, percent: real)

  /** What happened to the archive file. */
  datatype ArchiveEffect = Untouched | Written(bytes: seq<byte>) | Removed

  /** The observable outcome of `download_file`. */
  datatype TransferOutcome = TransferOutcome(ok: bool, archive: ArchiveEffect, unpacked: bool, progress: seq<Progress>)

  /** `int(response.headers.get('content-length', 0))` */
  function TotalSize(contentLength: Option<int>): int {
    match contentLength
    case None => 0
    case Some(n) => n
  }

  /** The percentage shown after each chunk: 0 unless the announced size is positive. */
  function Percent(downloaded: nat, total: int): (r: real)
    ensures total <= 0 ==> r == 0.0
    ensures total > 0 && downloaded == total ==> r == 100.0
    ensures total > 0 && downloaded <= total ==> 0.0 <= r <= 100.0
  {
    if total > 0 then (downloaded as real / total as real) * 100.0 else 0.0
  }

  /** The bytes of the chunks, in order. */
  function Concat(chunks: seq<seq<byte>>): seq<byte> {
    if chunks == [] then [] else Concat(chunks[..|chunks| - 1]) + chunks[|chunks| - 1]
  }

  /** The progress reports while streaming `chunks`: one per non-empty chunk. */
  function Reported(chunks: seq<seq<byte>>, total: int): seq<Progress> {
    if chunks == [] then []
    else
      var before := Reported(chunks[..|chunks| - 1], total);
      if chunks[|chunks| - 1] == [] then before
      else before + [Progress(|Concat(chunks)|, Percent(|Concat(chunks)|, total))]
  }

  /** True when the fault interrupts the writing of these chunks. */
  predicate FaultHits(chunks: seq<seq<byte>>, fault: WriteFault) {
    match fault
    case NoFault => false
    case OpenFails => true
    case WriteFails(k) => k < |chunks| && chunks[k] != []
  }

  /** The number of chunks written before a write fault, or all of them. */
  function Streamed(chunks: seq<seq<byte>>, fault: WriteFault): (n: nat)
    ensures n <= |chunks|
  {
    if fault.WriteFails? && FaultHits(chunks, fault) then fault.index else |chunks|
  }

  /** The outcome of `download_file` for a given reply, write fault and extraction result. */
  function Transfer(reply: DownloadReply, fault: WriteFault, extraction: Extraction): (r: TransferOutcome)
    ensures r.ok <==> reply.Received? && !FaultHits(reply.chunks, fault)
    ensures reply.RequestError? || fault.OpenFails? ==> r.archive == Untouched && r.progress == [] && !r.unpacked
    ensures r.archive == Removed <==> r.ok && extraction == Extracted
    ensures r.unpacked <==> r.ok && (extraction == Extracted || extraction == UnlinkFailed)
    ensures r.ok && extraction != Extracted ==> r.archive == Written(Concat(reply.chunks))
    ensures reply.Received? && !r.ok && fault.WriteFails? ==>
              r.archive == Written(Concat(reply.chunks[..fault.index]))
  {
    match reply
    case RequestError(_) => TransferOutcome(false, Untouched, false, [])
    case Received(contentLength, chunks) =>
      if fault.OpenFails? then TransferOutcome(false, Untouched, false, [])
      else
        var n := Streamed(chunks, fault);
        var progress := Reported(chunks[..n], TotalSize(contentLength));
        if n < |chunks| then TransferOutcome(false, Written(Concat(chunks[..n])), false, progress)
        else
          assert chunks[..n] == chunks;
          match extraction
          case Extracted => TransferOutcome(true, Removed, true, progress)
          case UnlinkFailed => TransferOutcome(true, Written(Concat(chunks)), true, progress)
          case BadZipFile => TransferOutcome(true, Written(Concat(chunks)), false, progress)
          case ExtractFailed => TransferOutcome(true, Written(Concat(chunks)), false, progress)
  }

  /**
   * The byte counter only grows: the reports are strictly increasing, each
   * at most the bytes of the chunks, the last equal to them, and there is
   * one report per non-empty chunk.
   */
  lemma {:induction false} ReportedIncreasing(chunks: seq<seq<byte>>, total: int)
    ensures var p := Reported(chunks, total);
            (forall i, j :: 0 <= i < j < |p| ==> p[i].downloaded < p[j].downloaded)
            && (forall i :: 0 <= i < |p| ==> 0 < p[i].downloaded <= |Concat(chunks)|)
            && (p != [] ==> p[|p| - 1].downloaded == |Concat(chunks)|)
            && (p == [] ==> Concat(chunks) == [])
  {
    if chunks != [] {
      ReportedIncreasing(chunks[..|chunks| - 1], total);
    }
  }

  /** Without an announced size every reported percentage is 0. */
  lemma {:induction false} NoSizeNoPercent(chunks: seq<seq<byte>>, total: int)
    requires total <= 0
    ensures forall p :: p in Reported(chunks, total) ==> p.percent == 0.0
  {
    if chunks != [] {
      NoSizeNoPercent(chunks[..|chunks| - 1], total);
    }
  }

  /** The outcome when writing stops at chunk `i`, which is not empty. */
  lemma TransferInterrupted(reply: DownloadReply, fault: WriteFault, extraction: Extraction, i: nat)
    requires reply.Received? && fault == WriteFails(i) && i < |reply.chunks| && reply.chunks[i] != []
    ensures Transfer(reply, fault, extraction)
         == TransferOutcome(false, Written(Concat(reply.chunks[..i])), false,
                            Reported(reply.chunks[..i], TotalSize(reply.contentLength)))
  {
  }

  /** The outcome when every chunk was written. */
  lemma TransferCompleted(reply: DownloadReply, fault: WriteFault, extraction: Extraction)
    requires reply.Received? && !FaultHits(reply.chunks, fault)
    ensures Transfer(reply, fault, extraction)
         == TransferOutcome(true,
                            if extraction == Extracted then Removed else Written(Concat(reply.chunks)),
                            extraction == Extracted || extraction == UnlinkFailed,
                            Reported(reply.chunks, TotalSize(reply.contentLength)))
  {
    assert reply.chunks[..|reply.chunks|] == reply.chunks;
  }

  /** The output folder as `download_file` changes it: its files by name and the archives unpacked into it. */
  class OutputFolder {
    var files: map<string, seq<byte>>
    var unpacked: set<string>

    constructor (files: map<string, seq<byte>>)
      ensures this.files == files && unpacked == {}
    {
      this.files := files;
      unpacked := {};
    }
  }

  /** The folder's files after the archive effect. */
  function ApplyArchive(files: map<string, seq<byte>>, name: string, effect: ArchiveEffect): map<string, seq<byte>> {
    match effect
    case Untouched => files
    case Written(bytes) => files[name := bytes]
    case Removed => files - {name}
  }

  /**
   * `download_file(url, output_path, filename)`: sends the request with the
   * Referer for `url`, streams the reply into `filename`, then unpacks it.
   */
  method DownloadFile(folder: OutputFolder, url: string, filename: string,
                      reply: DownloadReply, fault: WriteFault, extraction: Extraction)
    returns (ok: bool, referer: string, progress: seq<Progress>)
    modifies folder
    ensures referer == Referer(url)
    ensures ok == Transfer(reply, fault, extraction).ok
    ensures progress == Transfer(reply, fault, extraction).progress
    ensures folder.files == ApplyArchive(old(folder.files), filename, Transfer(reply, fault, extraction).archive)
    ensures folder.unpacked == if Transfer(reply, fault, extraction).unpacked
                               then old(folder.unpacked) + {filename} else old(folder.unpacked)
  {
    referer := Referer(url);
    progress := [];
    if reply.RequestError? {
      return false, referer, progress;
    }
    var total := TotalSize(reply.contentLength);
    var chunks := reply.chunks;
    if fault.OpenFails? {
      return false, referer, progress;
    }
    folder.files := folder.files[filename := []];
    var bytesDownloaded := 0;
    var i := 0;
    while i < |chunks|
      invariant i <= Streamed(chunks, fault)
      invariant folder.files == old(folder.files)[filename := Concat(chunks[..i])]
      invariant folder.unpacked == old(folder.unpacked)
      invariant bytesDownloaded == |Concat(chunks[..i])|
      invariant progress == Reported(chunks[..i], total)
    {
      var chunk := chunks[i];
      if chunk != [] {
        if fault == WriteFails(i) {
          TransferInterrupted(reply, fault, extraction, i);
          return false, referer, progress;
        }
        folder.files := folder.files[filename := folder.files[filename] + chunk];
        assert folder.files == old(folder.files)[filename := Concat(chunks[..i]) + chunk];
        bytesDownloaded := bytesDownloaded + |chunk|;
        progress := progress + [Progress(bytesDownloaded, Percent(bytesDownloaded, total))];
      }
      assert chunks[..i + 1][..i] == chunks[..i];
      assert Concat(chunks[..i + 1]) == Concat(chunks[..i]) + chunk;
      assert chunk == [] ==> Concat(chunks[..i + 1]) == Concat(chunks[..i]);
      i := i + 1;
    }
    assert chunks[..i] == chunks;
    TransferCompleted(reply, fault, extraction);
    match extraction {
      case Extracted =>
        folder.unpacked := folder.unpacked + {filename};
        folder.files := folder.files - {filename};
      case UnlinkFailed =>
        folder.unpacked := folder.unpacked + {filename};
      case BadZipFile =>
      case ExtractFailed =>
    }
    ok := true;
  }

  /**
   * `download_photos(order_id, secure_id, output_folder)`: requests the
   * order's URL, with the Referer that URL calls for, and downloads into
   * `photos_<order id>.zip` in the folder.
   */
  method DownloadPhotos(orderId: string, secureId: string, folder: OutputFolder,
                        aak: string, clientVersion: string,
                        reply: DownloadReply, fault: WriteFault, extraction: Extraction)
    returns (ok: bool, url: string, referer: string)
    modifies folder
    ensures url == DownloadUrl(orderId, secureId, aak, clientVersion)
    ensures referer == Referer(url)
    ensures ok == Transfer(reply, fault, extraction).ok
    ensures folder.files == ApplyArchive(old(folder.files), ArchiveName(orderId), Transfer(reply, fault, extraction).archive)
    ensures folder.unpacked == if Transfer(reply, fault, extraction).unpacked
                               then old(folder.unpacked) + {ArchiveName(orderId)} else old(folder.unpacked)
  {
    url := DownloadUrl(orderId, secureId, aak, clientVersion);
    var filename := ArchiveName(orderId);
    var progress;
    ok, referer, progress := DownloadFile(folder, url, filename, reply, fault, extraction);
  }
}
