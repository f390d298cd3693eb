/**
 * The batch orchestrator of check_orders.py (`process_csv_file`): for each
 * row, in order, it fetches the status, decides whether a download is due,
 * picks the output folder and the download order id, records exactly one
 * result and pauses once.
 *
 * Rows arrive already read and stripped. What the outside world does during
 * a row (the status reply, the state of the output folder, the download) is
 * part of the input, and each pause is counted instead of slept.
 */
module Batch {
  import opened Values
  import opened Text
  import opened Status
  import opened StatusClient
  import opened Downloader

  /** `DOWNLOADS_DIR` */
  const DOWNLOADS_DIR: string := "downloads"

  /** One row of a batch file, each field stripped; `secureId` is not yet upper-cased. */
  datatype OrderRow = OrderRow(orderNumber: string, shopNumber: string, identifier: string,
                               secureId: string, ceweOrderId: string, outputPath: string)

  /** What the outside world does while one row is processed. */
  datatype RowWorld = RowWorld(
    statusReply: StatusReply,
    folderHasEntries: bool,      // the output folder exists and is not empty
    mkdirFails: bool,            // creating the output folder raises
    downloadReply: DownloadReply,
    writeFault: WriteFault,
    extraction: Extraction)

  /** A row together with what the world did while it was processed. */
  datatype Observed = Observed(row: OrderRow, world: RowWorld)

  /** The output folder chosen for a download. */
  datatype OutputDir =
    | Explicit(path: string)          // the row's output_path, resolved
    | DownloadsSubfolder(name: string) // downloads/<identifier with '_' for ' '>
    | DownloadsRoot                   // downloads

  /** The `download_status` of a result. */
  datatype DownloadStatus = NotAttempted | AlreadyDownloaded | FolderCreationFailed | Downloaded | DownloadFailed
  {
    /** The text stored in the result: empty exactly when no download was due, else a glyph and a message. */
    function Shown(): (r: Option<Label>)
      ensures r.None? <==> this == NotAttempted
      ensures r.Some? ==> (r.value.glyph == CheckMark <==> this == AlreadyDownloaded || this == Downloaded)
      ensures r.Some? ==> r.value.glyph == CheckMark || r.value.glyph == CrossMark
    {
      match this
      case NotAttempted => None
      case AlreadyDownloaded => Some(Label(CheckMark, "Already downloaded"))
      case FolderCreationFailed => Some(Label(CrossMark, "Folder creation failed"))
      case Downloaded => Some(Label(CheckMark, "Downloaded"))
      case DownloadFailed => Some(Label(CrossMark, "Download failed"))
    }
  }

  /** The dictionary appended to `results` for one row. */
  datatype ResultRecord = ResultRecord(orderNumber: string, shopNumber: string, identifier: string,
                                       secureId: string, ceweOrderId: string, outputPath: string,
                                       status: Label, downloadStatus: DownloadStatus)

  /** One call of `download_photos`. */
  datatype DownloadCall = DownloadCall(orderId: string, secureId: string, folder: OutputDir)

  /** The HTTP request `download_photos` sends for a call: the URL and its Referer header. */
  datatype DownloadRequest = DownloadRequest(url: string, referer: string)

  /** The request a download call sends with the credentials `aak` and `clientVersion`. */
  function RequestFor(call: DownloadCall, aak: string, clientVersion: string): DownloadRequest {
    var url := DownloadUrl(call.orderId, call.secureId, aak, clientVersion);
    DownloadRequest(url, Referer(url))
  }

  /** The requests a sequence of download calls sends, in order. */
  function Requests(calls: seq<DownloadCall>, aak: string, clientVersion: string): seq<DownloadRequest> {
    if calls == [] then []
    else Requests(calls[..|calls| - 1], aak, clientVersion) + [RequestFor(calls[|calls| - 1], aak, clientVersion)]
  }

  /** One more call sends one more request, at the end. */
  lemma RequestsSnoc(calls: seq<DownloadCall>, c: DownloadCall, aak: string, clientVersion: string)
    ensures Requests(calls + [c], aak, clientVersion) == Requests(calls, aak, clientVersion) + [RequestFor(c, aak, clientVersion)]
  {
    assert (calls + [c])[..|calls|] == calls;
  }

  /** Each call sends its own request, one for one. */
  lemma {:induction false} RequestsPerCall(calls: seq<DownloadCall>, aak: string, clientVersion: string)
    ensures |Requests(calls, aak, clientVersion)| == |calls|
    ensures forall k :: 0 <= k < |calls| ==> Requests(calls, aak, clientVersion)[k] == RequestFor(calls[k], aak, clientVersion)
  {
    if calls != [] {
      RequestsPerCall(calls[..|calls| - 1], aak, clientVersion);
    }
  }

  /** Everything one row produces: its status query, its result and its download call, if any. */
  datatype RowOutcome = RowOutcome(query: StatusQuery, record: ResultRecord, call: Option<DownloadCall>)

  /** `should_download` */
  predicate ShouldDownload(enableDownload: bool, secureId: string, code: string) {
    enableDownload && secureId != "" && IsReadyForPickup(code)
  }

  /** The output folder: the row's path, else a folder named after the identifier, else the downloads root. */
  function ChooseOutputDir(outputPath: string, identifier: string): (r: OutputDir)
    ensures outputPath != "" ==> r == Explicit(outputPath)
    ensures outputPath == "" && identifier != "" ==> r == DownloadsSubfolder(Replace(identifier, ' ', '_'))
    ensures outputPath == "" && identifier == "" ==> r == DownloadsRoot
    ensures r.DownloadsSubfolder? ==> ' ' !in r.name && r.name != ""
  {
    if outputPath != "" then Explicit(outputPath)
    else if identifier != "" then
      var name := Replace(identifier, ' ', '_');
      assert name[0] == (if identifier[0] == ' ' then '_' else identifier[0]);
      DownloadsSubfolder(name)
    else DownloadsRoot
  }

  /** The order id passed to `download_photos`. */
  function DownloadOrderId(ceweOrderId: string, order: string, shop: string): (r: string)
    ensures var chosen := if ceweOrderId != "" then ceweOrderId else order;
            r == (if '-' in chosen then chosen else shop + "-" + chosen)
    ensures '-' in r
  {
    var chosen := if ceweOrderId != "" then ceweOrderId else order;
    if '-' in chosen then chosen else shop + "-" + chosen
  }

  /** A record of the row's fields, its status label and its download status. */
  function Record(row: OrderRow, secureId: string, status: Label, downloadStatus: DownloadStatus): ResultRecord {
    ResultRecord(row.orderNumber, row.shopNumber, row.identifier, secureId, row.ceweOrderId,
                 row.outputPath, status, downloadStatus)
  }

  /** What one iteration of `process_csv_file`'s loop produces for a row. */
  function ProcessRow(o: Observed, enableDownload: bool): RowOutcome
  {
    var row, world := o.row, o.world;
    var secureId := Upper(row.secureId);
    var fetched := FetchOrderStatus(row.orderNumber, row.shopNumber, world.statusReply);
    var status := fetched.result.display;
    if !ShouldDownload(enableDownload, secureId, fetched.result.code) then
      RowOutcome(fetched.query, Record(row, secureId, status, NotAttempted), None)
    else if world.folderHasEntries then
      RowOutcome(fetched.query, Record(row, secureId, status, AlreadyDownloaded), None)
    else if world.mkdirFails then
      RowOutcome(fetched.query, Record(row, secureId, status, FolderCreationFailed), None)
    else
      var call := DownloadCall(DownloadOrderId(row.ceweOrderId, row.orderNumber, row.shopNumber), secureId,
                               ChooseOutputDir(row.outputPath, row.identifier));
      var ok := Transfer(world.downloadReply, world.writeFault, world.extraction).ok;
      RowOutcome(fetched.query, Record(row, secureId, status, if ok then Downloaded else DownloadFailed), Some(call))
  }

  /**
   * Each row is queried once, and its result shows the fetched status. A
   * download is attempted exactly when it is due, the folder is empty and the
   * folder can be created. The download status says which of these held and
   * how the download went.
   */
  lemma RowDecision(o: Observed, enableDownload: bool)
    ensures var r, fetched := ProcessRow(o, enableDownload), FetchOrderStatus(o.row.orderNumber, o.row.shopNumber, o.world.statusReply);
            && r.query == fetched.query
            && r.record == Record(o.row, Upper(o.row.secureId), fetched.result.display, r.record.downloadStatus)
    ensures var r := ProcessRow(o, enableDownload);
            var should := ShouldDownload(enableDownload, Upper(o.row.secureId),
                                         FetchOrderStatus(o.row.orderNumber, o.row.shopNumber, o.world.statusReply).result.code);
            && (r.record.downloadStatus == NotAttempted <==> !should)
            && (r.record.downloadStatus == AlreadyDownloaded <==> should && o.world.folderHasEntries)
            && (r.record.downloadStatus == FolderCreationFailed <==> should && !o.world.folderHasEntries && o.world.mkdirFails)
            && (r.call.Some? <==> should && !o.world.folderHasEntries && !o.world.mkdirFails)
    ensures var r := ProcessRow(o, enableDownload);
            r.call.Some? ==>
              && r.call.value == DownloadCall(DownloadOrderId(o.row.ceweOrderId, o.row.orderNumber, o.row.shopNumber),
                                              Upper(o.row.secureId),
                                              ChooseOutputDir(o.row.outputPath, o.row.identifier))
              && (r.record.downloadStatus == Downloaded <==> Transfer(o.world.downloadReply, o.world.writeFault, o.world.extraction).ok)
              && (r.record.downloadStatus == Downloaded || r.record.downloadStatus == DownloadFailed)
  {
  }

  /** An order number without '-' gets the same id for the download as for the status query. */
  lemma DownloadIdWithoutHyphen(order: string, shop: string)
    requires '-' !in order
    ensures DownloadOrderId("", order, shop) == FullOrderId(order, shop) == shop + "-" + order
  {
  }

  /** An order number already in full form is used verbatim for both the status query and the download. */
  lemma DownloadIdOfFullForm(order: string, shop: string)
    requires IsFullForm(order)
    ensures DownloadOrderId("", order, shop) == FullOrderId(order, shop) == order
  {
  }

  /**
   * The two rules differ on a hyphenated number that is not in full form:
   * the status query prefixes the shop, the download does not.
   */
  lemma DownloadIdDiffersOnShortHyphenated()
    ensures FullOrderId("12-34", "9") == "9-12-34"
    ensures DownloadOrderId("", "12-34", "9") == "12-34"
  {
    var order := "12-34";
    assert order[2] == '-';
    assert Without(order, '-') == "1234";
    assert !IsFullForm(order);
  }

  /** A row whose status fetch failed never triggers a download. */
  lemma FailedFetchDownloadsNothing(o: Observed, enableDownload: bool)
    requires o.world.statusReply.RequestFailed?
    ensures ProcessRow(o, enableDownload).record.downloadStatus == NotAttempted
    ensures ProcessRow(o, enableDownload).call == None
  {
    FailedFetchNotReady(o.row.orderNumber, o.row.shopNumber, o.world.statusReply.message);
    RowDecision(o, enableDownload);
  }

  /**
   * The Referer of a batch download never depends on the secure id: it is
   * the fotoparadies origin exactly when the order id or one of the two
   * credentials contains "fotoparadies". The secure id is upper-cased, so it
   * cannot contain that lower-case word.
   */
  lemma BatchDownloadReferer(o: Observed, enableDownload: bool, aak: string, clientVersion: string)
    requires ProcessRow(o, enableDownload).call.Some?
    ensures var c := ProcessRow(o, enableDownload).call.value;
            RequestFor(c, aak, clientVersion).referer == FOTOPARADIES_REFERER
            <==> Contains(c.orderId, "fotoparadies") || Contains(aak, "fotoparadies")
                 || Contains(clientVersion, "fotoparadies")
  {
    RowDecision(o, enableDownload);
    var c := ProcessRow(o, enableDownload).call.value;
    RefererOfDownloadUrl(c.orderId, c.secureId, aak, clientVersion);
    UpperHasNoLowercase(o.row.secureId, 'f');
    CharsOfOccurrence(c.secureId, "fotoparadies");
    assert 'f' in "fotoparadies";
  }

  /** What a batch leaves behind: its results, its status queries and its download calls, in row order. */
  datatype BatchLog = BatchLog(results: seq<ResultRecord>, queries: seq<StatusQuery>, calls: seq<DownloadCall>)

  /** What each row of a batch produces, in row order. */
  function Outcomes(rows: seq<Observed>, enableDownload: bool): (r: seq<RowOutcome>)
    ensures |r| == |rows|
  {
    seq(|rows|, i requires 0 <= i < |rows| => ProcessRow(rows[i], enableDownload))
  }

  /** The batch log that a sequence of row outcomes leaves behind, built row by row. */
  function Assemble(outcomes: seq<RowOutcome>): BatchLog {
    if outcomes == [] then BatchLog([], [], [])
    else
      var before, last := Assemble(outcomes[..|outcomes| - 1]), outcomes[|outcomes| - 1];
      BatchLog(before.results + [last.record], before.queries + [last.query],
               before.calls + (if last.call.Some? then [last.call.value] else []))
  }

  /** One more outcome adds its result, its query and any call at the end of the log. */
  lemma AssembleSnoc(outcomes: seq<RowOutcome>, last: RowOutcome)
    ensures var before := Assemble(outcomes);
            Assemble(outcomes + [last])
            == BatchLog(before.results + [last.record], before.queries + [last.query],
                        before.calls + (if last.call.Some? then [last.call.value] else []))
  {
    assert (outcomes + [last])[..|outcomes|] == outcomes;
  }

  /** The batch log of `rows`. */
  function RunBatch(rows: seq<Observed>, enableDownload: bool): BatchLog {
    Assemble(Outcomes(rows, enableDownload))
  }

  /**
   * Every row outcome contributes exactly one result and one status query, in
   * order, and at most one download call.
   */
  lemma {:induction false} AssemblePerRow(outcomes: seq<RowOutcome>)
    ensures var log := Assemble(outcomes);
            && |log.results| == |outcomes| && |log.queries| == |outcomes| && |log.calls| <= |outcomes|
            && (forall i :: 0 <= i < |outcomes| ==> log.results[i] == outcomes[i].record)
            && (forall i :: 0 <= i < |outcomes| ==> log.queries[i] == outcomes[i].query)
  {
    if outcomes != [] {
      AssemblePerRow(outcomes[..|outcomes| - 1]);
    }
  }

  /** One more row appends its own outcome to the batch log. */
  lemma RunBatchSnoc(rows: seq<Observed>, o: Observed, enableDownload: bool)
    ensures var before, last := RunBatch(rows, enableDownload), ProcessRow(o, enableDownload);
            RunBatch(rows + [o], enableDownload)
            == BatchLog(before.results + [last.record], before.queries + [last.query],
                        before.calls + (if last.call.Some? then [last.call.value] else []))
  {
    var longer, shorter := Outcomes(rows + [o], enableDownload), Outcomes(rows, enableDownload);
    forall k | 0 <= k < |longer|
      ensures longer[k] == (shorter + [ProcessRow(o, enableDownload)])[k]
    {
      if k < |rows| {
        assert (rows + [o])[k] == rows[k];
      } else {
        assert (rows + [o])[k] == o;
      }
    }
    assert longer == shorter + [ProcessRow(o, enableDownload)];
    AssembleSnoc(Outcomes(rows, enableDownload), ProcessRow(o, enableDownload));
  }

  /** Row `i` appends its own outcome to the batch log of the rows before it. */
  lemma RunBatchNext(rows: seq<Observed>, i: nat, enableDownload: bool)
    requires i < |rows|
    ensures var before, last := RunBatch(rows[..i], enableDownload), ProcessRow(rows[i], enableDownload);
            RunBatch(rows[..i + 1], enableDownload)
            == BatchLog(before.results + [last.record], before.queries + [last.query],
                        before.calls + (if last.call.Some? then [last.call.value] else []))
  {
    assert rows[..i + 1] == rows[..i] + [rows[i]];
    RunBatchSnoc(rows[..i], rows[i], enableDownload);
  }

  /** A batch yields one result and one status query per row, in input order, and at most one call per row. */
  lemma RunBatchPerRow(rows: seq<Observed>, enableDownload: bool)
    ensures var log := RunBatch(rows, enableDownload);
            && |log.results| == |rows| && |log.queries| == |rows| && |log.calls| <= |rows|
            && (forall i :: 0 <= i < |rows| ==> log.results[i] == ProcessRow(rows[i], enableDownload).record)
            && (forall i :: 0 <= i < |rows| ==> log.queries[i] == ProcessRow(rows[i], enableDownload).query)
  {
    var outcomes := Outcomes(rows, enableDownload);
    AssemblePerRow(outcomes);
    forall i | 0 <= i < |rows|
      ensures outcomes[i] == ProcessRow(rows[i], enableDownload)
    {
    }
  }

  /**
   * A batch of two orders with downloads enabled: the first has a secure id
   * and the status code DELIVERED, so a download is attempted for it; the
   * second has no secure id, so none is.
   */
  lemma TwoOrderBatch(a: Observed, b: Observed, text: JsonField)
    requires a.row.secureId != "" && a.world.statusReply == Body(text, Str("DELIVERED"))
    requires b.row.secureId == ""
    ensures var log := RunBatch([a, b], true);
            && |log.results| == 2
            && log.results[0].downloadStatus in {AlreadyDownloaded, FolderCreationFailed, Downloaded, DownloadFailed}
            && log.results[1].downloadStatus == NotAttempted
  {
    RunBatchPerRow([a, b], true);
    ReadinessExamples();
    assert |Upper(a.row.secureId)| == |a.row.secureId|;
    RowDecision(a, true);
    RowDecision(b, true);
  }

  /** With downloads disabled a batch calls `download_photos` for no row. */
  lemma DisabledBatchDownloadsNothing(rows: seq<Observed>)
    ensures RunBatch(rows, false).calls == []
  {
    forall i | 0 <= i < |rows|
      ensures Outcomes(rows, false)[i].call == None
    {
      RowDecision(rows[i], false);
    }
    NoCallsAssembled(Outcomes(rows, false));
  }

  /** Outcomes that ask for no download assemble into a log with no download call. */
  lemma {:induction false} NoCallsAssembled(outcomes: seq<RowOutcome>)
    requires forall i :: 0 <= i < |outcomes| ==> outcomes[i].call == None
    ensures Assemble(outcomes).calls == []
  {
    if outcomes != [] {
      NoCallsAssembled(outcomes[..|outcomes| - 1]);
    }
  }

  /**
   * The body of `process_csv_file`'s loop for one row: fetch the status,
   * decide on a download, choose the folder and the order id, call
   * `download_photos`, and say what the result records. Where the loop
   * records a folder-creation failure and continues, this returns early.
   * The folder handed to `download_photos` is the one just created, so it
   * starts out empty; `aak` and `clientVersion` are the download credentials.
   * Both exits pause once, and a download sends the request of its call.
   */
  method ProcessOrderRow(o: Observed, enableDownload: bool, aak: string, clientVersion: string)
    returns (query: StatusQuery, record: ResultRecord, call: Option<DownloadCall>,
             request: Option<DownloadRequest>, pauses: nat)
    ensures RowOutcome(query, record, call) == ProcessRow(o, enableDownload)
    ensures request.Some? <==> call.Some?
    ensures call.Some? ==> request.value == RequestFor(call.value, aak, clientVersion)
    ensures pauses == 1
  {
    var row, world := o.row, o.world;
    var order, shop, ident := row.orderNumber, row.shopNumber, row.identifier;
    var secureId := Upper(row.secureId);
    var ceweOrderId, csvOutputPath := row.ceweOrderId, row.outputPath;

    var fetched := FetchOrderStatus(order, shop, world.statusReply);
    query := fetched.query;
    var statusCode, status := fetched.result.code, fetched.result.display;

    var shouldDownload := enableDownload && secureId != "" && IsReadyForPickup(statusCode);

    var downloadStatus := NotAttempted;
    call, request, pauses := None, None, 0;
    if shouldDownload {
      var outputPath := ChooseOutputDir(csvOutputPath, ident);
      if world.folderHasEntries {
        downloadStatus := AlreadyDownloaded;
      } else {
        if world.mkdirFails {
          downloadStatus := FolderCreationFailed;
          record := Record(row, secureId, status, downloadStatus);
          pauses := pauses + 1;
          return;
        }
        var downloadOrderId := if ceweOrderId != "" then ceweOrderId else order;
        if '-' !in downloadOrderId {
          downloadOrderId := shop + "-" + downloadOrderId;
        }
        call := Some(DownloadCall(downloadOrderId, secureId, outputPath));
        var folder := new OutputFolder(map[]);
        var success, url, referer := DownloadPhotos(downloadOrderId, secureId, folder, aak, clientVersion,
                                                    world.downloadReply, world.writeFault, world.extraction);
        request := Some(DownloadRequest(url, referer));
        downloadStatus := if success then Downloaded else DownloadFailed;
      }
    }
    record := Record(row, secureId, status, downloadStatus);
    pauses := pauses + 1;
  }

  /**
   * One iteration of `process_csv_file`'s loop, with what it adds to the
   * running lists: row `i` extends the batch log of the rows before it to
   * the batch log of the rows up to and including it.
   */
  method ProcessNextRow(rows: seq<Observed>, i: nat, enableDownload: bool, aak: string, clientVersion: string,
                        results: seq<ResultRecord>, queries: seq<StatusQuery>, calls: seq<DownloadCall>,
                        requests: seq<DownloadRequest>)
    returns (results': seq<ResultRecord>, queries': seq<StatusQuery>, calls': seq<DownloadCall>,
             requests': seq<DownloadRequest>, pauses: nat)
    requires i < |rows|
    requires BatchLog(results, queries, calls) == RunBatch(rows[..i], enableDownload)
    requires requests == Requests(calls, aak, clientVersion)
    ensures BatchLog(results', queries', calls') == RunBatch(rows[..i + 1], enableDownload)
    ensures requests' == Requests(calls', aak, clientVersion)
    ensures pauses == 1
  {
    var query, record, call, request;
    query, record, call, request, pauses := ProcessOrderRow(rows[i], enableDownload, aak, clientVersion);
    RunBatchNext(rows, i, enableDownload);
    queries' := queries + [query];
    results' := results + [record];
    calls', requests' := calls, requests;
    if call.Some? {
      RequestsSnoc(calls, call.value, aak, clientVersion);
      calls' := calls + [call.value];
      requests' := requests + [request.value];
    }
  }

  /**
   * `process_csv_file(file_path, enable_download)` over rows already read:
   * the results, status queries and download calls of the rows in input
   * order, the download request each call sends, and one pause per row.
   */
  method ProcessCsvFile(rows: seq<Observed>, enableDownload: bool, aak: string, clientVersion: string)
    returns (results: seq<ResultRecord>, queries: seq<StatusQuery>, calls: seq<DownloadCall>,
             requests: seq<DownloadRequest>, delays: nat)
    ensures BatchLog(results, queries, calls) == RunBatch(rows, enableDownload)
    ensures requests == Requests(calls, aak, clientVersion)
    ensures delays == |rows|
  {
    results, queries, calls, requests, delays := [], [], [], [], 0;
    for i := 0 to |rows|
      invariant BatchLog(results, queries, calls) == RunBatch(rows[..i], enableDownload)
      invariant requests == Requests(calls, aak, clientVersion)
      invariant delays == i
    {
      var pauses;
      results, queries, calls, requests, pauses :=
        ProcessNextRow(rows, i, enableDownload, aak, clientVersion, results, queries, calls, requests);
      delays := delays + pauses;
    }
    assert rows[..|rows|] == rows;
  }
}
