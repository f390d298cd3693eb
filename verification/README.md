# dm-foto-checker: order status and photo download, in Dafny

This project models the decision logic of dm-foto-checker. The tool reads
batch files of photo orders and asks the Fotoparadies status service about
each order. It labels each status with a glyph and, when asked to, downloads
and unpacks the photo archive of every order that is ready for pickup.

The model has seven modules. `Values` (values.dfy) holds the shared `Option`
type and the `byte` type; the other six hold one concern each:

- `Text` (text.dfy) holds the string operations the code relies on:
  - `lower`/`upper` on ASCII letters;
  - substring search;
  - removal and replacement of one character;
  - `endswith`;
  - Python's string order;
  - splitting a path on `/`.
- `Status` (status.dfy) models the ordered glyph table, `add_status_emoji` as a
  first-match scan over that table, and `is_ready_for_pickup`.
- `StatusClient` (status_client.dfy) models `fetch_order_status`:
  - the full-order-id rule;
  - the query it sends;
  - how the reply becomes a raw code and a display label, including the
    status-text fallback and the error label.

  The HTTP reply is an input.
- `Downloader` (downloader.dfy) models the download URL and
  the archive name of `download_photos`, and the Referer choice.
  - The outcome of `download_file` is a specification function, `Transfer`.
  - An imperative method, `DownloadFile`, streams the chunks into an
    `OutputFolder` object. A loop invariant ties it to `Transfer`.
  - The reply, the point where a write fails and the result of the
    extraction are inputs.
- `Batch` (batch.dfy) models `process_csv_file`. It is a loop method over the
  already-read rows. For each row it fetches the status, decides whether a
  download is due, chooses the output folder and the download order id, calls
  `DownloadPhotos`, records exactly one result and counts one pause. The
  method is proved equal to a per-row specification (`ProcessRow`) folded over
  the rows (`RunBatch`).
- `Summary` (summary.dfy) models the pure parts of `main`:
  - which files of the orders folder are processed, and in which order;
  - the columns of the summary table;
  - the cells of each row.

Glyphs are six distinct symbols (`Factory`, `Package`, `CheckMark`,
`CrossMark`, `Warning`, `QuestionMark`). A displayed label `glyph + " " + text`
is the pair `Label(glyph, text)`.

Two facts about the code that the model follows:
- The "already downloaded" check is made in `process_csv_file`, before
  `download_photos` is called; the downloader has no such check.
- The download order id is prefixed with the shop whenever it has no `-`.
  The status query's rule also requires twelve other characters.
  `Batch.DownloadIdDiffersOnShortHyphenated` shows where the two rules part.

## Model

| member | source | states |
|---|---|---|
| Status.FirstMatch | check_orders.py:58-60 | the index found is that of the first table key, at or after the start, that is a case-insensitive substring of the code; the table length when no key matches |
| Status.AddStatusEmoji | check_orders.py:47-64 | the text is kept; the glyph is that of the first key, in table order, that matches the code, and the default glyph when no key matches (a code that matches only the UNKNOWN key shows the default glyph too) |
| Status.LoweredKeys | check_orders.py:38-45 | the six keys, lower-cased as the scan compares them, are processing, shipped, delivered, cancelled, error, unknown |
| Status.GlyphOfFirstMatch | check_orders.py:58-60 | if key k matches and no earlier key does, the label is key k's glyph with the text |
| Status.IsReadyForPickup | check_orders.py:67-77 | whether a code is ready for pickup; its meaning is stated by Status.ReadyIffDelivered, Status.ReadinessExamples and Status.ReadyShowsCheckMark |
| Status.ReadyIffDelivered | check_orders.py:77 | a code is ready for pickup exactly when its lower-case form is "delivered" |
| Status.EmptyCodeTakesDefault | check_orders.py:58-64 | an empty code matches no key and takes the default glyph |
| Status.ReadyShowsCheckMark | check_orders.py:58-77 | every code that is ready for pickup shows the DELIVERED glyph |
| Status.PartialCodeShowsCheckMark | check_orders.py:58-60 | "DELIVERED_PARTIAL" shows the DELIVERED glyph because matching is by substring |
| Status.ReadinessExamples | check_orders.py:77 | "delivered" and "DELIVERED" are ready for pickup; "DELIVERED_PARTIAL" is not |
| Status.FirstKeyWins | check_orders.py:58-60 | a code that matches both PROCESSING and ERROR shows the PROCESSING glyph, the earlier key |
| StatusClient.FullOrderId | check_orders.py:92-96 | the id is the order number itself exactly when it has a '-' and twelve other characters; otherwise it is shop + "-" + order; either way it holds a '-' and ends with the order number |
| StatusClient.FullFormKept | check_orders.py:92-94 | "541032-050842" is used unchanged, whatever the shop |
| StatusClient.ShortOrderComposed | check_orders.py:95-96 | order "050842" at shop "541032" becomes "541032-050842" |
| StatusClient.ComposedIdIsFullForm | check_orders.py:92-96 | a hyphen-free shop and order of twelve characters together compose an id in full form, which the rule then leaves unchanged |
| StatusClient.StatusText | check_orders.py:107-111 | the text is never empty: summaryStateText if it is a non-empty string, else the code if non-empty, else "Unknown" |
| StatusClient.ErrorLabel | check_orders.py:116 | the label of a failed request; StatusClient.FetchOrderStatus and StatusClient.FailedFetchNotReady state that it carries the warning glyph and "Error: " + message |
| StatusClient.Classified | check_orders.py:107-114 | a reply whose code is a string keeps that code; its glyph is chosen by scanning the table with the code, and its text is the fallback text; a ready code gets the DELIVERED glyph |
| StatusClient.FetchOrderStatus | check_orders.py:80-116 | the query carries config "1320" and the full order id; a failed request gives code "" and the warning label "Error: " + message; a null code gives the error for calling lower on None; otherwise the code is passed through and labelled; the label text is never empty |
| StatusClient.FailedFetchNotReady | check_orders.py:115-116 | a failed fetch is never ready for pickup and shows the warning glyph |
| Downloader.DownloadPath | downloader.py:113 | the download path of an order; Downloader.DownloadPathSegments and Downloader.DownloadPathInjective state its shape and that it tells orders apart |
| Downloader.DownloadUrl | downloader.py:108-114 | the download path with the aak and clientVersion query; Downloader.RefererOfDownloadUrl states which Referer it gets |
| Downloader.ArchiveName | downloader.py:116 | the archive file name of an order; Downloader.ArchiveNameInjective states that it tells orders apart |
| Downloader.Referer | downloader.py:45 | the fotoparadies Referer when the URL contains "fotoparadies", the CEWE one otherwise; Downloader.RefererOfDownloadUrl states this for download URLs |
| Downloader.DownloadPathSegments | downloader.py:113 | when the ids hold no '/', the path ends in the segments order id, secure id, "download" |
| Downloader.DownloadPathInjective | downloader.py:113 | different slash-free (order id, secure id) pairs give different download paths |
| Downloader.ArchiveNameInjective | downloader.py:116 | different order ids give distinct archive file names |
| Downloader.RefererOfDownloadUrl | downloader.py:45 | a download URL gets the fotoparadies Referer exactly when the order id, the secure id, aak or clientVersion contains "fotoparadies"; the fixed parts of the URL never do |
| Downloader.Percent | downloader.py:67 | the percentage is 0 when the announced size is not positive, lies within 0..100 while the bytes do not exceed the size, and is 100 when they equal it |
| Downloader.Transfer | downloader.py:49-93 | success exactly when the request succeeded and no write failed; a request failure or a file that cannot be opened leaves the folder as it was; the archive is removed exactly when extraction and removal both succeed; a bad archive or a failed extraction keeps the whole payload on disk and still succeeds; a write failure leaves the bytes written so far |
| Downloader.ReportedIncreasing | downloader.py:63-67 | the byte counter reported after each non-empty chunk strictly increases, stays within the bytes received and ends at their total |
| Downloader.NoSizeNoPercent | downloader.py:56-67 | without a positive content-length every reported percentage is 0 |
| Downloader.TransferInterrupted | downloader.py:61-93 | a write failure at a non-empty chunk gives failure, the earlier chunks on disk, nothing unpacked, and the progress of the earlier chunks |
| Downloader.TransferCompleted | downloader.py:61-88 | once every chunk is written the result is success whatever the extraction does, and the archive stays on disk unless extraction and removal both succeed |
| Downloader.DownloadFile | downloader.py:24-93 | returns Transfer's verdict and progress and the Referer for the URL; the folder afterwards holds exactly the archive effect Transfer states, and its unpacked set grows exactly when Transfer says |
| Downloader.DownloadPhotos | downloader.py:96-117 | requests DownloadUrl of the order id, secure id and credentials, with the Referer that URL calls for; saves into photos_<order id>.zip; reports Transfer's verdict, with the folder's files and unpacked set changed as Transfer says |
| Batch.DownloadStatus.Shown | check_orders.py:150-197 | the download status text is empty exactly when no download was due; "already downloaded" and "downloaded" carry the check mark, the two failures the cross |
| Batch.ShouldDownload | check_orders.py:144-148 | a download is due when downloads are on, the secure id is non-empty and the code is ready; Batch.RowDecision states what follows from it |
| Batch.ChooseOutputDir | check_orders.py:152-161 | the output path column wins, then downloads/ + identifier with spaces turned into underscores, then downloads; a subfolder name is non-empty and holds no space |
| Batch.DownloadOrderId | check_orders.py:186-189 | the CEWE order id if given, else the order number, prefixed with shop + "-" only when it holds no '-'; the result always holds a '-' |
| Batch.DownloadIdWithoutHyphen | check_orders.py:187-189 | for an order number without '-' the download id equals the status query's full order id |
| Batch.DownloadIdOfFullForm | check_orders.py:187-189 | an order number in full form is used unchanged for both the status query and the download |
| Batch.DownloadIdDiffersOnShortHyphenated | check_orders.py:187-189 | for "12-34" at shop "9" the status query uses "9-12-34" but the download uses "12-34" |
| Batch.ProcessRow | check_orders.py:134-208 | what one iteration of the loop produces for a row; Batch.RowDecision states its decisions and Batch.ProcessOrderRow is proved to produce it |
| Batch.RowDecision | check_orders.py:141-197 | a row's result shows the fetched label with the upper-cased secure id; no download is attempted exactly when download is off, the secure id is empty or the code is not ready; "already downloaded" exactly when due and the folder has entries; "folder creation failed" exactly when due, empty and mkdir fails; otherwise download_photos is called with the chosen id, secure id and folder, and the status is "downloaded" exactly when the transfer succeeds |
| Batch.FailedFetchDownloadsNothing | check_orders.py:141-151 | a row whose status request failed never triggers a download and records an empty download status |
| Batch.RequestFor | downloader.py:45-117 | the URL and Referer a download call sends; Batch.BatchDownloadReferer and Batch.RequestsPerCall state its properties |
| Batch.RequestsPerCall | downloader.py:96-117 | the requests of a batch are one per download call, in order, each the request of its own call |
| Batch.BatchDownloadReferer | check_orders.py:137 | the secure id is upper-cased, so a batch download's request gets the fotoparadies Referer exactly when the order id, aak or clientVersion contains "fotoparadies" |
| Batch.AssemblePerRow | check_orders.py:130-211 | folding row outcomes gives one result and one query per outcome, in order, and at most one download call each |
| Batch.RunBatch | check_orders.py:130-211 | the per-row outcomes of a batch folded in row order; Batch.RunBatchPerRow and Batch.DisabledBatchDownloadsNothing state its properties, and Batch.ProcessCsvFile is proved to produce it |
| Batch.RunBatchPerRow | check_orders.py:130-211 | a batch yields exactly one result and one status query per row, in input order, and at most one download call per row, for every modelled row world, the folder-creation failure included |
| Batch.TwoOrderBatch | check_orders.py:144-197 | with downloads on, an order with a secure id and code DELIVERED gets a download status other than empty, and one without a secure id gets the empty status |
| Batch.DisabledBatchDownloadsNothing | check_orders.py:144-151 | with downloads off no row calls download_photos |
| Batch.ProcessOrderRow | check_orders.py:134-210 | one pass of the loop body produces exactly the query, result and download call of the per-row specification, including on the early exit after a folder-creation failure; it sends a download request exactly when it makes a call, and that request is the call's; it pauses once on either exit |
| Batch.ProcessNextRow | check_orders.py:130-210 | one iteration extends the batch log of the rows before it to the batch log including this row, keeps the requests matching the calls, and pauses once |
| Batch.ProcessCsvFile | check_orders.py:119-211 | the results, queries and download calls are those of the per-row specification folded over the rows in order; the requests sent are those of the calls, one each; exactly one pause is taken per row |
| Summary.Sort | check_orders.py:244 | sorting the listing rearranges it: the same names with the same multiplicities |
| Summary.SortSorted | check_orders.py:244 | the sorted listing is in Python's string order |
| Summary.IsBatchFile | check_orders.py:245-249 | which names are batch files; Summary.BatchFiles and Summary.SelectBatchFiles state the selection it makes |
| Summary.BatchFiles | check_orders.py:245-249 | a name is kept exactly when it is in the listing, ends in ".csv" in any case, and is not orders_template.csv in any case |
| Summary.BatchFilesSorted | check_orders.py:244-249 | filtering a sorted listing leaves it sorted |
| Summary.SelectBatchFiles | check_orders.py:244-249 | the files processed are exactly the listing's batch files, in sorted order |
| Summary.Columns | check_orders.py:259-273 | the header starts with Order Number, Shop Number, Identifier and always has Status; Secure ID, CEWE Order ID, Output Path and Download appear exactly when some result has a non-empty value for them |
| Summary.ColumnsOrdered | check_orders.py:264-273 | every header column is one of Order Number, Shop Number, Identifier, Secure ID, CEWE Order ID, Output Path, Status, Download, none appears twice, and they appear in that order |
| Summary.SummaryRow | check_orders.py:276-287 | the cells of one table row; Summary.RowsMatchHeader states that they line up with the header |
| Summary.RowsMatchHeader | check_orders.py:264-287 | every table row has one cell per column, and each cell is the one its column names |

## Left out

- The HTTP exchanges are not modelled: `requests.get`, `raise_for_status`,
  `resp.json`, the headers other than the Referer, and timeouts. Each status
  reply and each download reply is an input, and an exception is represented
  by its message.
- JSON fields that are neither strings nor null (numbers, lists) are not
  modelled, and neither is a JSON body that is not an object.
- Downloader.DownloadUrl: the query values are placed in the URL as they are.
  The percent-encoding that `requests` applies when preparing the request is
  not modelled.
- Case mapping is ASCII-only. Python's `str.lower` and `str.upper` also map
  non-ASCII letters, and `upper` can lengthen a string ("ß" becomes "SS").
- Status.ReadyIffDelivered, Status.ReadyShowsCheckMark: both hold for the
  ASCII case mapping only. In Python "delıvered" (with the dotless i, U+0131)
  upper-cases to "DELIVERED" and so is ready for pickup, while its
  `lower()` is unchanged and matches no key, so it shows the default glyph.
- The filesystem is abstract:
  - `Path.resolve` is not modelled; the explicit output path is kept as
    written.
  - An absolute identifier is not treated specially. In Python
    `Path("downloads") / "/x"` is `/x`, so such an identifier names a folder
    outside the downloads folder; the model keeps it under downloads.
  - `exists`/`iterdir`, `mkdir` and the zip extraction are per-row inputs.
  - Folder state is not carried from one row to the next, so a download in
    one row does not make a later row's shared folder non-empty.
  - A failed extraction counts as unpacking nothing, even where it stopped
    part-way.
- Downloader.DownloadFile: a non-numeric content-length, which makes `int()`
  raise out of `download_file`, is not modelled. Neither are streaming errors
  other than `IOError`, which propagate out of the function.
- Batch.ProcessCsvFile, Batch.RunBatchPerRow: an exception that nothing in
  `process_csv_file` or `main` catches ends the whole run, and no result is
  kept for any row. The model has no such outcome, and both members promise one
  result per row. Two paths raise this way:
  - `output_path.iterdir()` at check_orders.py:164 raises when the chosen
    output path exists but is not a readable directory (a file, or a folder
    without read permission). `folderHasEntries` is a plain yes/no.
  - A non-numeric content-length makes `int()` raise out of `download_file`,
    and this propagates up through `download_photos` and the batch loop.
- The size in MB and the percentage are exact reals, not floats, and their
  formatting is not modelled.
- All `print` and `sys.stdout` output is left out, including the
  "Unmapped status_code" line of `add_status_emoji`.
- `time.sleep(REQUEST_DELAY)` is counted as one pause per row, not slept.
- CSV reading is not modelled: the `csv.DictReader` parsing, the `strip()`
  calls, and the `KeyError` for a missing `order_number` or `shop_number`
  column. Rows arrive already read and stripped.
- Three parts of `main` are left out:
  - argparse;
  - the checks that the orders folder exists and that the downloads folder
    can be created;
  - the `all_results` dictionary and PrettyTable rendering. Only the file
    selection, the columns and the row cells are modelled.
- The credential constants `aak` and `clientVersion` are parameters, not
  fixed values.
