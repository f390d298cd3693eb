/**
 * The pure parts of check_orders.py's `main`: which files of the orders
 * folder are processed, in which order, and how each file's results are laid
 * out as a summary table.
 */
module Summary {
  import opened Values
  import opened Text
  import opened Status
  import opened Batch

  /** The template that ships with the orders folder and is never processed. */
  const TEMPLATE_NAME: string := "orders_template.csv"

  /** A directory entry is processed when its lower-cased name ends in ".csv" and is not the template. */
  predicate IsBatchFile(name: string) {
    EndsWith(Lower(name), ".csv") && Lower(name) != TEMPLATE_NAME
  }

  /** Every adjacent pair is in order. */
  predicate Sorted(names: seq<string>) {
    forall i :: 0 < i < |names| ==> LexLe(names[i - 1], names[i])
  }

  /** Python's string order is transitive. */
  lemma {:induction false} LexLeTransitive(a: string, b: string, c: string)
    requires LexLe(a, b) && LexLe(b, c)
    ensures LexLe(a, c)
  {
    if a != [] && a[0] == b[0] && b[0] == c[0] {
      LexLeTransitive(a[1..], b[1..], c[1..]);
    }
  }

  /** `name` placed before the first element it does not follow. */
  function Insert(name: string, names: seq<string>): (r: seq<string>)
    ensures multiset(r) == multiset(names) + multiset{name}
    ensures |r| == |names| + 1
    ensures r != [] && (r[0] == name || (names != [] && r[0] == names[0]))
  {
    if names == [] || LexLe(name, names[0]) then [name] + names
    else
      assert names == [names[0]] + names[1..];
      [names[0]] + Insert(name, names[1..])
  }

  /** Insertion keeps a sorted sequence sorted. */
  lemma {:induction false} InsertSorted(name: string, names: seq<string>)
    requires Sorted(names)
    ensures Sorted(Insert(name, names))
  {
    if names != [] && !LexLe(name, names[0]) {
      LexLeTotal(name, names[0]);
      InsertSorted(name, names[1..]);
    }
  }

  /** `sorted(names)` */
  function Sort(names: seq<string>): (r: seq<string>)
    ensures multiset(r) == multiset(names)
  {
    if names == [] then []
    else
      assert names == [names[0]] + names[1..];
      Insert(names[0], Sort(names[1..]))
  }

  /** The sorted listing is in order. */
  lemma {:induction false} SortSorted(names: seq<string>)
    ensures Sorted(Sort(names))
  {
    if names != [] {
      SortSorted(names[1..]);
      InsertSorted(names[0], Sort(names[1..]));
    }
  }

  /** The batch files of a listing, in listing order. */
  function BatchFiles(names: seq<string>): (r: seq<string>)
    ensures forall n :: n in r <==> n in names && IsBatchFile(n)
    ensures multiset(r) <= multiset(names)
  {
    if names == [] then []
    else
      var rest := BatchFiles(names[..|names| - 1]);
      var last := names[|names| - 1];
      assert names == names[..|names| - 1] + [last];
      if IsBatchFile(last) then rest + [last] else rest
  }

  /** Keeping only some names leaves a sequence sorted with respect to every name that followed. */
  lemma {:induction false} BatchFilesSorted(names: seq<string>)
    requires Sorted(names)
    ensures Sorted(BatchFiles(names))
    ensures names != [] ==> forall n :: n in BatchFiles(names) ==> LexLe(n, names[|names| - 1])
  {
    if names != [] {
      var init := names[..|names| - 1];
      var last := names[|names| - 1];
      BatchFilesSorted(init);
      if init != [] {
        forall n | n in BatchFiles(init)
          ensures LexLe(n, last)
        {
          LexLeTransitive(n, init[|init| - 1], last);
        }
      }
      forall n | n in BatchFiles(names)
        ensures LexLe(n, last)
      {
        if n == last {
          LexLeTotal(n, n);
        }
      }
    }
  }

  /**
   * The loop of `main` over `sorted(os.listdir(ORDERS_DIR))` that skips
   * every name that is not a batch file: the names it processes, in order.
   */
  method SelectBatchFiles(listing: seq<string>) returns (files: seq<string>)
    ensures files == BatchFiles(Sort(listing))
    ensures Sorted(files)
    ensures forall n :: n in files <==> n in listing && IsBatchFile(n)
  {
    var sorted := Sort(listing);
    files := [];
    for i := 0 to |sorted|
      invariant files == BatchFiles(sorted[..i])
    {
      assert sorted[..i + 1][..i] == sorted[..i];
      var filename := sorted[i];
      if !EndsWith(Lower(filename), ".csv") {
        continue;
      }
      if Lower(filename) == TEMPLATE_NAME {
        continue;
      }
      files := files + [filename];
    }
    assert sorted[..|sorted|] == sorted;
    SortSorted(listing);
    BatchFilesSorted(sorted);
    assert forall n :: n in sorted <==> n in multiset(sorted);
  }

  /** A cell of the summary table. */
  datatype Cell = Plain(text: string) | Glyphed(shown: Label)

  /** `any(r.get(field) for r in results)`, for the four optional columns. */
  predicate AnySecureId(results: seq<ResultRecord>) { exists r :: r in results && r.secureId != "" }
  predicate AnyCeweOrderId(results: seq<ResultRecord>) { exists r :: r in results && r.ceweOrderId != "" }
  predicate AnyOutputPath(results: seq<ResultRecord>) { exists r :: r in results && r.outputPath != "" }
  predicate AnyDownload(results: seq<ResultRecord>) { exists r :: r in results && r.downloadStatus != NotAttempted }

  /** Every column the summary can show, in the order the header lists them. */
  const ALL_COLUMNS: seq<string> :=
    ["Order Number", "Shop Number", "Identifier", "Secure ID", "CEWE Order ID", "Output Path", "Status", "Download"]

  /** The position of a header in `ALL_COLUMNS`. */
  function ColumnIndex(header: string): (k: nat)
    ensures k <= |ALL_COLUMNS|
    ensures k < |ALL_COLUMNS| <==> header in ALL_COLUMNS
    ensures k < |ALL_COLUMNS| ==> ALL_COLUMNS[k] == header
  {
    if header == "Order Number" then 0
    else if header == "Shop Number" then 1
    else if header == "Identifier" then 2
    else if header == "Secure ID" then 3
    else if header == "CEWE Order ID" then 4
    else if header == "Output Path" then 5
    else if header == "Status" then 6
    else if header == "Download" then 7
    else |ALL_COLUMNS|
  }

  /** Headers taken from `ALL_COLUMNS` in its order, each at most once, from positions lo..hi-1. */
  predicate Within(headers: seq<string>, lo: nat, hi: nat) {
    && hi <= |ALL_COLUMNS|
    && (forall i :: 0 <= i < |headers| ==> lo <= ColumnIndex(headers[i]) < hi)
    && (forall i, j :: 0 <= i < j < |headers| ==> ColumnIndex(headers[i]) < ColumnIndex(headers[j]))
  }

  /** A group before another group, position-wise, joins into one group. */
  lemma WithinAppend(a: seq<string>, b: seq<string>, lo: nat, mid: nat, hi: nat)
    requires lo <= mid <= hi
    requires Within(a, lo, mid) && Within(b, mid, hi)
    ensures Within(a + b, lo, hi)
  {
    forall i | 0 <= i < |a + b|
      ensures lo <= ColumnIndex((a + b)[i]) < hi
    {
      if i < |a| {
        assert (a + b)[i] == a[i];
      } else {
        assert (a + b)[i] == b[i - |a|];
      }
    }
    forall i, j | 0 <= i < j < |a + b|
      ensures ColumnIndex((a + b)[i]) < ColumnIndex((a + b)[j])
    {
      if j < |a| {
        assert (a + b)[i] == a[i] && (a + b)[j] == a[j];
      } else if i >= |a| {
        assert (a + b)[i] == b[i - |a|] && (a + b)[j] == b[j - |a|];
      } else {
        assert (a + b)[i] == a[i] && (a + b)[j] == b[j - |a|];
      }
    }
  }

  /**
   * The table header: the columns of `ALL_COLUMNS` in that order, each at
   * most once, with the three key columns and Status always present and the
   * four optional ones exactly when some result has a value for them.
   */
  function Columns(results: seq<ResultRecord>): (r: seq<string>)
    ensures |r| >= 4 && r[..3] == ["Order Number", "Shop Number", "Identifier"]
    ensures "Status" in r
    ensures "Secure ID" in r <==> AnySecureId(results)
    ensures "CEWE Order ID" in r <==> AnyCeweOrderId(results)
    ensures "Output Path" in r <==> AnyOutputPath(results)
    ensures "Download" in r <==> AnyDownload(results)
  {
    var keys := ["Order Number", "Shop Number", "Identifier"];
    var r := keys
    + (if AnySecureId(results) then ["Secure ID"] else [])
    + (if AnyCeweOrderId(results) then ["CEWE Order ID"] else [])
    + (if AnyOutputPath(results) then ["Output Path"] else [])
    + ["Status"]
    + (if AnyDownload(results) then ["Download"] else []);
    assert r[..3] == keys;
    r
  }

  /** Each column of `ALL_COLUMNS` alone, or nothing, is a group at its own position. */
  lemma SingleColumn(k: nat, present: bool)
    requires k < |ALL_COLUMNS|
    ensures Within(if present then [ALL_COLUMNS[k]] else [], k, k + 1)
  {
    assert ColumnIndex(ALL_COLUMNS[k]) == k;
  }

  /** Appending column k of `ALL_COLUMNS`, or nothing, to headers from before k. */
  lemma Extend(headers: seq<string>, k: nat, present: bool)
    requires k < |ALL_COLUMNS| && Within(headers, 0, k)
    ensures Within(headers + (if present then [ALL_COLUMNS[k]] else []), 0, k + 1)
  {
    SingleColumn(k, present);
    WithinAppend(headers, if present then [ALL_COLUMNS[k]] else [], 0, k, k + 1);
  }

  /**
   * The keys, Status, and any of the four optional columns the flags switch
   * on, taken from `ALL_COLUMNS` in its order.
   */
  lemma ChosenInOrder(secure: bool, cewe: bool, output: bool, download: bool)
    ensures Within([ALL_COLUMNS[0]] + [ALL_COLUMNS[1]] + [ALL_COLUMNS[2]]
                   + (if secure then [ALL_COLUMNS[3]] else [])
                   + (if cewe then [ALL_COLUMNS[4]] else [])
                   + (if output then [ALL_COLUMNS[5]] else [])
                   + [ALL_COLUMNS[6]]
                   + (if download then [ALL_COLUMNS[7]] else []), 0, |ALL_COLUMNS|)
  {
    Extend([], 0, true);
    Extend([ALL_COLUMNS[0]], 1, true);
    var keys := [ALL_COLUMNS[0]] + [ALL_COLUMNS[1]];
    Extend(keys, 2, true);
    var upTo2 := keys + [ALL_COLUMNS[2]];
    Extend(upTo2, 3, secure);
    var upTo3 := upTo2 + (if secure then [ALL_COLUMNS[3]] else []);
    Extend(upTo3, 4, cewe);
    var upTo4 := upTo3 + (if cewe then [ALL_COLUMNS[4]] else []);
    Extend(upTo4, 5, output);
    var upTo5 := upTo4 + (if output then [ALL_COLUMNS[5]] else []);
    Extend(upTo5, 6, true);
    var upTo6 := upTo5 + [ALL_COLUMNS[6]];
    Extend(upTo6, 7, download);
  }

  /** The header `Columns` builds, for any of the four flags, lies in `ALL_COLUMNS`'s order. */
  lemma ColumnsInOrder(secure: bool, cewe: bool, output: bool, download: bool)
    ensures Within(["Order Number", "Shop Number", "Identifier"]
                   + (if secure then ["Secure ID"] else [])
                   + (if cewe then ["CEWE Order ID"] else [])
                   + (if output then ["Output Path"] else [])
                   + ["Status"]
                   + (if download then ["Download"] else []), 0, |ALL_COLUMNS|)
  {
    ChosenInOrder(secure, cewe, output, download);
    assert [ALL_COLUMNS[0]] + [ALL_COLUMNS[1]] + [ALL_COLUMNS[2]] == ["Order Number", "Shop Number", "Identifier"];
  }

  /**
   * The header has no column outside `ALL_COLUMNS`, none twice, and lists
   * its columns in `ALL_COLUMNS`'s order.
   */
  lemma ColumnsOrdered(results: seq<ResultRecord>)
    ensures forall i :: 0 <= i < |Columns(results)| ==> Columns(results)[i] in ALL_COLUMNS
    ensures forall i, j :: 0 <= i < j < |Columns(results)| ==>
              ColumnIndex(Columns(results)[i]) < ColumnIndex(Columns(results)[j])
  {
    ColumnsInOrder(AnySecureId(results), AnyCeweOrderId(results), AnyOutputPath(results), AnyDownload(results));
  }

  /** The cell of `r` that belongs under the column `header`. */
  function CellUnder(header: string, r: ResultRecord): Cell {
    if header == "Order Number" then Plain(r.orderNumber)
    else if header == "Shop Number" then Plain(r.shopNumber)
    else if header == "Identifier" then Plain(r.identifier)
    else if header == "Secure ID" then Plain(r.secureId)
    else if header == "CEWE Order ID" then Plain(r.ceweOrderId)
    else if header == "Output Path" then Plain(r.outputPath)
    else if header == "Status" then Glyphed(r.status)
    else if r.downloadStatus.Shown().Some? then Glyphed(r.downloadStatus.Shown().value)
    else Plain("")
  }

  /** The table row of one result, built column group by column group. */
  function SummaryRow(results: seq<ResultRecord>, r: ResultRecord): seq<Cell> {
    [Plain(r.orderNumber), Plain(r.shopNumber), Plain(r.identifier)]
    + (if AnySecureId(results) then [Plain(r.secureId)] else [])
    + (if AnyCeweOrderId(results) then [Plain(r.ceweOrderId)] else [])
    + (if AnyOutputPath(results) then [Plain(r.outputPath)] else [])
    + [Glyphed(r.status)]
    + (if AnyDownload(results) then
         [if r.downloadStatus.Shown().Some? then Glyphed(r.downloadStatus.Shown().value) else Plain("")]
       else [])
  }

  /** `cells` has one cell per header of `headers`, each the one its header names. */
  predicate Aligned(headers: seq<string>, cells: seq<Cell>, r: ResultRecord) {
    |headers| == |cells| && forall k :: 0 <= k < |headers| ==> cells[k] == CellUnder(headers[k], r)
  }

  /** Aligned groups of columns stay aligned side by side. */
  lemma AlignedAppend(h1: seq<string>, c1: seq<Cell>, h2: seq<string>, c2: seq<Cell>, r: ResultRecord)
    requires Aligned(h1, c1, r) && Aligned(h2, c2, r)
    ensures Aligned(h1 + h2, c1 + c2, r)
  {
    forall k | 0 <= k < |h1 + h2|
      ensures (c1 + c2)[k] == CellUnder((h1 + h2)[k], r)
    {
      if k >= |h1| {
        assert (c1 + c2)[k] == c2[k - |h1|] && (h1 + h2)[k] == h2[k - |h1|];
      }
    }
  }

  /** Every row has one cell per column, and each cell is the one its column names. */
  lemma RowsMatchHeader(results: seq<ResultRecord>, r: ResultRecord)
    ensures |SummaryRow(results, r)| == |Columns(results)|
    ensures forall k :: 0 <= k < |Columns(results)| ==> SummaryRow(results, r)[k] == CellUnder(Columns(results)[k], r)
  {
    var h1, c1 := ["Order Number", "Shop Number", "Identifier"], [Plain(r.orderNumber), Plain(r.shopNumber), Plain(r.identifier)];
    var h2, c2 := if AnySecureId(results) then ["Secure ID"] else [], if AnySecureId(results) then [Plain(r.secureId)] else [];
    var h3, c3 := if AnyCeweOrderId(results) then ["CEWE Order ID"] else [], if AnyCeweOrderId(results) then [Plain(r.ceweOrderId)] else [];
    var h4, c4 := if AnyOutputPath(results) then ["Output Path"] else [], if AnyOutputPath(results) then [Plain(r.outputPath)] else [];
    var h5, c5 := ["Status"], [Glyphed(r.status)];
    var shown := if r.downloadStatus.Shown().Some? then Glyphed(r.downloadStatus.Shown().value) else Plain("");
    var h6, c6 := if AnyDownload(results) then ["Download"] else [], if AnyDownload(results) then [shown] else [];
    assert Aligned(h1, c1, r);
    assert Aligned(h2, c2, r);
    assert Aligned(h3, c3, r);
    assert Aligned(h4, c4, r);
    assert Aligned(h5, c5, r);
    assert Aligned(h6, c6, r);
    AlignedAppend(h1, c1, h2, c2, r);
    AlignedAppend(h1 + h2, c1 + c2, h3, c3, r);
    AlignedAppend(h1 + h2 + h3, c1 + c2 + c3, h4, c4, r);
    AlignedAppend(h1 + h2 + h3 + h4, c1 + c2 + c3 + c4, h5, c5, r);
    AlignedAppend(h1 + h2 + h3 + h4 + h5, c1 + c2 + c3 + c4 + c5, h6, c6, r);
  }
}
