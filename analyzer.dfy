/** The batch step of the statement upload form (`handleProcessFiles` in
    `src/components/statement-analyzer.tsx`): every file is handed to the
    parser the registry detects for it, one undetected file fails the whole
    batch, and the parsed transactions are merged into one record per hash
    and ordered newest first. */
module Analyzer {
  import opened Wrappers
  import opened Text
  import opened BankTypes
  import opened Seqs
  import Registry
  import Pnb
  import Kotak
  import Sheets
  import Sbi

  const NoParserPrefix := "Could not detect a supported bank format for file: "
  const NoTransactions := "No interest transactions found in the uploaded files."
  const ProcessFailed := "Failed to process files"

  // ---------------------------------------------------------------------------
  // One file
  // ---------------------------------------------------------------------------

  /** What the parser is given: a `.xlsx` file (the name compared in lower
      case) as the file itself, any other file as its text. */
  function ContentFor(x: Externals, f: Upload): (c: Content)
    ensures c.FileContent? <==> EndsWith(Lower(f.name), ".xlsx")
    ensures c.FileContent? ==> c.file == f
    ensures c.TextContent? ==> c.text == x.fileText(FileContent(f))
  {
    if EndsWith(Lower(f.name), ".xlsx") then FileContent(f) else TextContent(x.fileText(FileContent(f)))
  }

  /** The extension test ignores letter case: `.XLSX`, `.Xlsx` and the
      rest all pass the file itself. */
  lemma XlsxInAnyCase(x: Externals, stem: string, ext: string, mediaType: string, id: nat)
    requires Lower(ext) == ".xlsx"
    ensures ContentFor(x, Upload(stem + ext, mediaType, id)) == FileContent(Upload(stem + ext, mediaType, id))
  {
    LowerAppend(stem, ext);
    var l := Lower(stem + ext);
    assert l[|l| - 5..] == ".xlsx";
  }

  /** The parser `detectParser` picks, written out for the registry's
      order: PNB, then Kotak, then SBI. */
  function Detected(x: Externals, c: Content): (r: Option<Bank>)
  {
    if x.canParse(PNB, c) then Some(PNB)
    else if x.canParse(Kotak, c) then Some(Kotak)
    else if x.canParse(SBI, c) then Some(SBI)
    else None
  }

  /** Whatever `Registry.DetectParser` returns is `Detected`. */
  lemma DetectParserIsDetected(x: Externals, c: Content, r: Option<Bank>)
    requires r.None? <==> forall k :: 0 <= k < |Registry.Parsers| ==> !x.canParse(Registry.Parsers[k], c)
    requires r.Some? ==> exists k :: 0 <= k < |Registry.Parsers| && Registry.Parsers[k] == r.value
                                     && Registry.FirstAccepting(x, c, k)
    ensures r == Detected(x, c)
  {
    assert Registry.Parsers == [PNB, Kotak, SBI];
    if r.Some? {
      var k :| 0 <= k < |Registry.Parsers| && Registry.Parsers[k] == r.value && Registry.FirstAccepting(x, c, k);
      assert x.canParse(Registry.Parsers[k], c);
      if k >= 1 {
        assert !x.canParse(Registry.Parsers[0], c);
      }
      if k == 2 {
        assert !x.canParse(Registry.Parsers[1], c);
      }
    } else {
      assert !x.canParse(Registry.Parsers[0], c);
      assert !x.canParse(Registry.Parsers[1], c);
      assert !x.canParse(Registry.Parsers[2], c);
    }
  }

  /** `parser.parse(content)`: called with no user id, so every hash input
      ends in an empty user part. */
  function Parsed(x: Externals, b: Bank, c: Content): (r: Result<seq<Transaction>>)
    requires b in Registry.Parsers
  {
    if b == PNB then
      var lines := SplitLines(x.fileText(c));
      if FirstIndex(Pnb.IsHeaderLine, lines) == |lines| then Failure(Pnb.HeaderError)
      else Success(FilterMap((row: map<string, string>) => Pnb.RowTransaction(x, None, row), Pnb.Records(x, lines)))
    else if b == Kotak then
      Success(FilterMap((line: string) => Kotak.LineTransaction(x, None, line), SplitLines(x.pdfMarkdown(c))))
    else
      var sliced := Sheets.FindHeaderAndSlice(Sbi.SbiLayout, x.sheetRows(c));
      if sliced.Failure? then Failure(Sbi.SbiLayout.headerError)
      else Success(FilterMap((row: Sheets.SheetRow) => Sheets.RowTransaction(x, Sbi.SbiLayout, None, row),
                             Sheets.Rows(Sbi.SbiLayout, sliced.value)))
  }

  /** The call of the detected parser's `parse`. */
  method ParseWith(x: Externals, b: Bank, c: Content) returns (r: Result<seq<Transaction>>)
    requires b in Registry.Parsers
    ensures r == Parsed(x, b, c)
  {
    if b == PNB {
      r := Pnb.Parse(x, c, None);
    } else if b == Kotak {
      var txs := Kotak.Parse(x, c, None);
      r := Success(txs);
    } else {
      r := Sheets.Parse(x, Sbi.SbiLayout, c, None);
    }
  }

  /** One file's result: the error naming an undetected file, or what its
      parser returns. */
  function FileResult(x: Externals, f: Upload): (r: Result<seq<Transaction>>)
  {
    var c := ContentFor(x, f);
    match Detected(x, c)
    case None => Failure(NoParserPrefix + f.name)
    case Some(b) => Parsed(x, b, c)
  }

  /** The body of the `validFiles.map` callback. */
  method ReadFile(x: Externals, f: Upload) returns (r: Result<seq<Transaction>>)
    ensures r == FileResult(x, f)
  {
    var content := ContentFor(x, f);
    var parser := Registry.DetectParser(x, content);
    DetectParserIsDetected(x, content, parser);
    if parser.None? {
      return Failure(NoParserPrefix + f.name);
    }
    r := ParseWith(x, parser.value, content);
  }

  // ---------------------------------------------------------------------------
  // The batch
  // ---------------------------------------------------------------------------

  /** `flat()` over the settled results of `Promise.all`, first `n` of
      them: the first failure in item order, or every item's records in item
      order. */
  function Collect<T>(results: seq<Result<seq<T>>>, n: nat): Result<seq<T>>
    requires n <= |results|
  {
    if n == 0 then Success([])
    else
      var before := Collect(results, n - 1);
      if before.Failure? then before
      else
        var one := results[n - 1];
        if one.Failure? then one else Success(before.value + one.value)
  }

  /** Once an item has failed, later items change nothing. */
  lemma {:induction false} FailureStays<T>(results: seq<Result<seq<T>>>, m: nat, n: nat)
    requires m <= n <= |results|
    requires Collect(results, m).Failure?
    ensures Collect(results, n) == Collect(results, m)
    decreases n
  {
    if m < n {
      FailureStays(results, m, n - 1);
    }
  }

  /** The records of successful items, concatenated in item order. */
  function Flatten<T>(results: seq<Result<seq<T>>>): seq<T>
    requires forall i :: 0 <= i < |results| ==> results[i].Success?
  {
    if results == [] then [] else results[0].value + Flatten(results[1..])
  }

  lemma {:induction false} FlattenSnoc<T>(results: seq<Result<seq<T>>>, last: Result<seq<T>>)
    requires forall i :: 0 <= i < |results| ==> results[i].Success?
    requires last.Success?
    ensures Flatten(results + [last]) == Flatten(results) + last.value
  {
    if results == [] {
      assert [] + [last] == [last];
      assert [last][1..] == [];
    } else {
      assert (results + [last])[1..] == results[1..] + [last];
      FlattenSnoc(results[1..], last);
    }
  }

  /** When every item succeeds, so does the whole, with every item's
      records in item order. */
  lemma {:induction false} AllSucceed<T>(results: seq<Result<seq<T>>>, n: nat)
    requires n <= |results|
    requires forall i :: 0 <= i < n ==> results[i].Success?
    ensures Collect(results, n) == Success(Flatten(results[..n]))
  {
    if n == 0 {
      assert results[..0] == [];
    } else {
      AllSucceed(results, n - 1);
      assert results[..n] == results[..n - 1] + [results[n - 1]];
      FlattenSnoc(results[..n - 1], results[n - 1]);
    }
  }

  /** The whole fails with the error of the first item that fails. */
  lemma FirstFailureDecides<T>(results: seq<Result<seq<T>>>, n: nat, k: nat)
    requires k < n <= |results|
    requires results[k].Failure?
    requires forall i :: 0 <= i < k ==> results[i].Success?
    ensures Collect(results, n) == results[k]
  {
    AllSucceed(results, k);
    FailureStays(results, k + 1, n);
  }

  /** Each file's result, in file order. */
  function Results(x: Externals, files: seq<Upload>): (rs: seq<Result<seq<Transaction>>>)
    ensures |rs| == |files|
  {
    seq(|files|, i requires 0 <= i < |files| => FileResult(x, files[i]))
  }

  /** `Promise.all(validFiles.map(...))`: every file read and parsed. */
  method ReadAll(x: Externals, files: seq<Upload>) returns (results: seq<Result<seq<Transaction>>>)
    ensures results == Results(x, files)
  {
    results := [];
    while |results| < |files|
      invariant |results| <= |files| && results == Results(x, files)[..|results|]
      decreases |files| - |results|
    {
      results := ReadNext(x, files, results);
    }
  }

  /** The next file's result appended. */
  method ReadNext(x: Externals, files: seq<Upload>, results: seq<Result<seq<Transaction>>>)
    returns (more: seq<Result<seq<Transaction>>>)
    requires |results| < |files| && results == Results(x, files)[..|results|]
    ensures more == Results(x, files)[..|results| + 1]
  {
    var rs := Results(x, files);
    var one := ReadFile(x, files[|results|]);
    assert one == rs[|results|];
    PrefixGrows(rs, results, one);
    more := results + [one];
  }

  /** A file no parser accepts is reported by name. */
  lemma UndetectedFileIsNamed(x: Externals, f: Upload)
    requires forall k :: 0 <= k < |Registry.Parsers| ==> !x.canParse(Registry.Parsers[k], ContentFor(x, f))
    ensures FileResult(x, f) == Failure(NoParserPrefix + f.name)
  {
    assert Registry.Parsers == [PNB, Kotak, SBI];
    assert !x.canParse(Registry.Parsers[0], ContentFor(x, f));
    assert !x.canParse(Registry.Parsers[1], ContentFor(x, f));
    assert !x.canParse(Registry.Parsers[2], ContentFor(x, f));
  }

  // ---------------------------------------------------------------------------
  // One record per hash: `new Map(entries).values()`
  // ---------------------------------------------------------------------------

  /** The map after the first `n` entries: a later entry overwrites. */
  function Latest(all: seq<Transaction>, n: nat): (m: map<string, Transaction>)
    requires n <= |all|
    ensures forall h :: h in m ==> m[h].transactionHash == h
  {
    if n == 0 then map[] else Latest(all, n - 1)[all[n - 1].transactionHash := all[n - 1]]
  }

  /** The map's key order after the first `n` entries: a key keeps the
      place of its first insertion. */
  function Order(all: seq<Transaction>, n: nat): (o: seq<string>)
    requires n <= |all|
    ensures forall h :: h in o <==> h in Latest(all, n)
    ensures forall i, j :: 0 <= i < j < |o| ==> o[i] != o[j]
  {
    if n == 0 then []
    else
      var o := Order(all, n - 1);
      if all[n - 1].transactionHash in o then o else o + [all[n - 1].transactionHash]
  }

  /** `Array.from(map.values())`. */
  function Unique(all: seq<Transaction>): seq<Transaction> {
    var o := Order(all, |all|);
    var m := Latest(all, |all|);
    seq(|o|, i requires 0 <= i < |o| => m[o[i]])
  }

  /** The map fold over the entries, then the values in key order. */
  method Dedup(all: seq<Transaction>) returns (unique: seq<Transaction>)
    ensures unique == Unique(all)
  {
    var latest: map<string, Transaction> := map[];
    var order: seq<string> := [];
    var k := 0;
    while k < |all|
      invariant k <= |all|
      invariant latest == Latest(all, k) && order == Order(all, k)
    {
      var t := all[k];
      if t.transactionHash !in latest {
        order := order + [t.transactionHash];
      }
      latest := latest[t.transactionHash := t];
      k := k + 1;
    }
    unique := seq(|order|, i requires 0 <= i < |order| => latest[order[i]]);
  }

  /** The hashes among the first `n` records. */
  function HashesBefore(s: seq<Transaction>, n: nat): set<string>
    requires n <= |s|
  {
    set j | 0 <= j < n :: s[j].transactionHash
  }

  function Hashes(s: seq<Transaction>): set<string> {
    HashesBefore(s, |s|)
  }

  lemma {:induction false} LatestKeys(all: seq<Transaction>, n: nat)
    requires n <= |all|
    ensures Latest(all, n).Keys == HashesBefore(all, n)
  {
    if n > 0 {
      LatestKeys(all, n - 1);
      assert HashesBefore(all, n) == HashesBefore(all, n - 1) + {all[n - 1].transactionHash};
    }
  }

  /** Exactly one record per hash of the input, and no other. */
  lemma OnePerHash(all: seq<Transaction>)
    ensures forall i, j :: 0 <= i < j < |Unique(all)| ==>
              Unique(all)[i].transactionHash != Unique(all)[j].transactionHash
    ensures Hashes(Unique(all)) == Hashes(all)
  {
    var u := Unique(all);
    var o := Order(all, |all|);
    var m := Latest(all, |all|);
    LatestKeys(all, |all|);
    assert forall i :: 0 <= i < |u| ==> u[i].transactionHash == o[i];
    forall h | h in Hashes(all)
      ensures h in Hashes(u)
    {
      assert h in o;
      var i :| 0 <= i < |o| && o[i] == h;
      assert u[i].transactionHash == h;
    }
  }

  /** The record kept for a hash is the last one with that hash. */
  lemma {:induction false} LatestIsLast(all: seq<Transaction>, n: nat, j: nat)
    requires j < n <= |all|
    requires forall k :: j < k < n ==> all[k].transactionHash != all[j].transactionHash
    ensures all[j].transactionHash in Latest(all, n)
    ensures Latest(all, n)[all[j].transactionHash] == all[j]
  {
    if n > j + 1 {
      LatestIsLast(all, n - 1, j);
    }
  }

  lemma KeepsLastOccurrence(all: seq<Transaction>, i: nat, j: nat)
    requires i < |Unique(all)| && j < |all|
    requires all[j].transactionHash == Unique(all)[i].transactionHash
    requires forall k :: j < k < |all| ==> all[k].transactionHash != all[j].transactionHash
    ensures Unique(all)[i] == all[j]
  {
    LatestIsLast(all, |all|, j);
  }

  /** The position of the first record with hash `h`. */
  function FirstOf(all: seq<Transaction>, h: string): nat {
    FirstIndex((t: Transaction) => t.transactionHash == h, all)
  }

  lemma {:induction false} OrderIsFirstOccurrence(all: seq<Transaction>, n: nat)
    requires n <= |all|
    ensures forall i :: 0 <= i < |Order(all, n)| ==> FirstOf(all, Order(all, n)[i]) < n
    ensures forall i, j :: 0 <= i < j < |Order(all, n)| ==>
              FirstOf(all, Order(all, n)[i]) < FirstOf(all, Order(all, n)[j])
  {
    if n > 0 {
      OrderIsFirstOccurrence(all, n - 1);
      var o := Order(all, n - 1);
      var h := all[n - 1].transactionHash;
      if h !in o {
        LatestKeys(all, n - 1);
        assert forall k :: 0 <= k < n - 1 ==> all[k].transactionHash != h by {
          forall k | 0 <= k < n - 1
            ensures all[k].transactionHash != h
          {
            assert all[k].transactionHash in HashesBefore(all, n - 1);
          }
        }
        assert FirstOf(all, h) == n - 1;
        assert Order(all, n) == o + [h];
      }
    }
  }

  /** The records come in the order their hashes first appear. */
  lemma FirstAppearanceOrder(all: seq<Transaction>)
    ensures forall i, j :: 0 <= i < j < |Unique(all)| ==>
              FirstOf(all, Unique(all)[i].transactionHash) < FirstOf(all, Unique(all)[j].transactionHash)
  {
    OrderIsFirstOccurrence(all, |all|);
    var o := Order(all, |all|);
    assert forall i :: 0 <= i < |Unique(all)| ==> Unique(all)[i].transactionHash == o[i];
  }

  // ---------------------------------------------------------------------------
  // Newest first: the stable `sort` by `b.date - a.date`
  // ---------------------------------------------------------------------------

  /** `t` placed after the records strictly newer than it. */
  function Insert(t: Transaction, s: seq<Transaction>): seq<Transaction> {
    if s == [] then [t]
    else if Before(t.date, s[0].date) then [s[0]] + Insert(t, s[1..])
    else [t] + s
  }

  /** Insertion sort from the back, so earlier records stay ahead of later
      records with the same date. */
  function SortByDate(s: seq<Transaction>): seq<Transaction> {
    if s == [] then [] else Insert(s[0], SortByDate(s[1..]))
  }

  lemma {:induction false} InsertAdds(t: Transaction, s: seq<Transaction>)
    ensures multiset(Insert(t, s)) == multiset(s) + multiset{t}
  {
    if s != [] && Before(t.date, s[0].date) {
      InsertAdds(t, s[1..]);
      assert s == [s[0]] + s[1..];
    }
  }

  /** The sort only reorders. */
  lemma {:induction false} SortPermutes(s: seq<Transaction>)
    ensures multiset(SortByDate(s)) == multiset(s)
  {
    if s != [] {
      SortPermutes(s[1..]);
      InsertAdds(s[0], SortByDate(s[1..]));
      assert s == [s[0]] + s[1..];
    }
  }

  predicate NewestFirst(s: seq<Transaction>) {
    forall i, j :: 0 <= i < j < |s| ==> NotAfter(s[j].date, s[i].date)
  }

  /** Every record of `s` is dated `d` or earlier. */
  predicate NoneNewer(d: Date, s: seq<Transaction>) {
    forall i :: 0 <= i < |s| ==> NotAfter(s[i].date, d)
  }

  lemma {:induction false} InsertNoneNewer(d: Date, t: Transaction, s: seq<Transaction>)
    requires NoneNewer(d, s) && NotAfter(t.date, d)
    ensures NoneNewer(d, Insert(t, s))
  {
    if s != [] && Before(t.date, s[0].date) {
      InsertNoneNewer(d, t, s[1..]);
      assert Insert(t, s) == [s[0]] + Insert(t, s[1..]);
    }
  }

  lemma ConsNewestFirst(e: Transaction, s: seq<Transaction>)
    requires NoneNewer(e.date, s) && NewestFirst(s)
    ensures NewestFirst([e] + s)
  {
    var r := [e] + s;
    forall i, j | 0 <= i < j < |r|
      ensures NotAfter(r[j].date, r[i].date)
    {
      assert r[j] == s[j - 1];
      if i > 0 {
        assert r[i] == s[i - 1];
      }
    }
  }

  lemma {:induction false} InsertKeepsOrder(t: Transaction, s: seq<Transaction>)
    requires NewestFirst(s)
    ensures NewestFirst(Insert(t, s))
  {
    if s == [] {
    } else if Before(t.date, s[0].date) {
      InsertKeepsOrder(t, s[1..]);
      InsertNoneNewer(s[0].date, t, s[1..]);
      ConsNewestFirst(s[0], Insert(t, s[1..]));
    } else {
      ConsNewestFirst(t, s);
    }
  }

  lemma {:induction false} SortIsNewestFirst(s: seq<Transaction>)
    ensures NewestFirst(SortByDate(s))
  {
    if s != [] {
      SortIsNewestFirst(s[1..]);
      InsertKeepsOrder(s[0], SortByDate(s[1..]));
    }
  }

  /** The records dated `d`, in order. */
  function OnDate(d: Date, s: seq<Transaction>): seq<Transaction> {
    if s == [] then [] else (if s[0].date == d then [s[0]] else []) + OnDate(d, s[1..])
  }

  lemma OnDateCons(d: Date, e: Transaction, s: seq<Transaction>)
    ensures OnDate(d, [e] + s) == (if e.date == d then [e] else []) + OnDate(d, s)
  {
    assert ([e] + s)[1..] == s;
  }

  lemma {:induction false} OnDateInsert(d: Date, t: Transaction, s: seq<Transaction>)
    ensures OnDate(d, Insert(t, s)) == (if t.date == d then [t] else []) + OnDate(d, s)
  {
    if s == [] {
      OnDateCons(d, t, s);
    } else if Before(t.date, s[0].date) {
      var r := Insert(t, s[1..]);
      OnDateInsert(d, t, s[1..]);
      OnDateCons(d, s[0], r);
      OnDateCons(d, s[0], s[1..]);
      assert [s[0]] + s[1..] == s;
      var rest := OnDate(d, s[1..]);
      if t.date == d {
        assert s[0].date != d;
        assert OnDate(d, Insert(t, s)) == [t] + rest;
      } else {
        assert OnDate(d, Insert(t, s)) == (if s[0].date == d then [s[0]] else []) + rest;
      }
    } else {
      OnDateCons(d, t, s);
    }
  }

  /** Stability: the records of any one date keep their input order. */
  lemma {:induction false} SortIsStable(d: Date, s: seq<Transaction>)
    ensures OnDate(d, SortByDate(s)) == OnDate(d, s)
  {
    if s != [] {
      SortIsStable(d, s[1..]);
      OnDateInsert(d, s[0], SortByDate(s[1..]));
    }
  }

  // ---------------------------------------------------------------------------
  // The outcome
  // ---------------------------------------------------------------------------

  /** What the form records: the transactions shown for review, or the
      processing error. */
  datatype Analysis = Shown(transactions: seq<Transaction>) | Failed(message: string)

  /** The whole batch, from the file list to the recorded outcome. */
  function Analyze(x: Externals, files: seq<Upload>): Analysis {
    match Collect(Results(x, files), |files|)
    case Failure(e) => Failed(if |e| == 0 then ProcessFailed else e)
    case Success(all) =>
      var unique := Unique(all);
      if |unique| == 0 then Failed(NoTransactions) else Shown(SortByDate(unique))
  }

  /** A failing file, first in file order, decides the message and nothing
      is shown. */
  lemma FailedFileFailsBatch(x: Externals, files: seq<Upload>, k: nat)
    requires k < |files|
    requires FileResult(x, files[k]).Failure?
    requires forall i :: 0 <= i < k ==> FileResult(x, files[i]).Success?
    ensures var e := FileResult(x, files[k]).error;
            Analyze(x, files) == Failed(if |e| == 0 then ProcessFailed else e)
  {
    FirstFailureDecides(Results(x, files), |files|, k);
  }

  /** With an undetected file first among the failures, the message names
      it. */
  lemma UndetectedFileFailsBatch(x: Externals, files: seq<Upload>, k: nat)
    requires k < |files|
    requires forall b :: 0 <= b < |Registry.Parsers| ==> !x.canParse(Registry.Parsers[b], ContentFor(x, files[k]))
    requires forall i :: 0 <= i < k ==> FileResult(x, files[i]).Success?
    ensures Analyze(x, files) == Failed(NoParserPrefix + files[k].name)
  {
    UndetectedFileIsNamed(x, files[k]);
    FailedFileFailsBatch(x, files, k);
  }

  /** An empty merge is reported instead of an empty list. */
  lemma NothingFoundIsReported(x: Externals, files: seq<Upload>)
    requires Collect(Results(x, files), |files|).Success?
    ensures var all := Collect(Results(x, files), |files|).value;
            |all| == 0 <==> Analyze(x, files) == Failed(NoTransactions)
  {
    var all := Collect(Results(x, files), |files|).value;
    OnePerHash(all);
    if |all| > 0 {
      assert all[0].transactionHash in Hashes(all);
    }
  }

  /** What is shown: one record per parsed hash, each the last parsed
      record with that hash, newest first, equal dates in the order their
      hashes first appeared. */
  lemma ShownTransactions(x: Externals, files: seq<Upload>)
    requires Analyze(x, files).Shown?
    ensures var all := Collect(Results(x, files), |files|).value;
            var shown := Analyze(x, files).transactions;
            && |shown| > 0
            && multiset(shown) == multiset(Unique(all))
            && Hashes(Unique(all)) == Hashes(all)
            && NewestFirst(shown)
            && forall d :: OnDate(d, shown) == OnDate(d, Unique(all))
  {
    var all := Collect(Results(x, files), |files|).value;
    OnePerHash(all);
    SortIsNewestFirst(Unique(all));
    SortPermutes(Unique(all));
    forall d {
      SortIsStable(d, Unique(all));
    }
  }

  // ---------------------------------------------------------------------------
  // The component state
  // ---------------------------------------------------------------------------

  /** The state `handleProcessFiles` sets. */
  class StatementAnalyzer {
    var transactions: seq<Transaction>
    var processError: Option<string>
    var dialogOpen: bool
    var processing: bool

    constructor ()
      ensures transactions == [] && processError == None && !dialogOpen && !processing
    {
      transactions := [];
      processError := None;
      dialogOpen := false;
      processing := false;
    }

    /** `handleProcessFiles`: nothing happens without files; otherwise the
        error is cleared and the outcome recorded. */
    method ProcessFiles(x: Externals, files: seq<Upload>)
      modifies this
      ensures |files| == 0 ==> unchanged(this)
      ensures |files| > 0 ==> !processing
      ensures |files| > 0 && Analyze(x, files).Shown? ==>
                transactions == Analyze(x, files).transactions && dialogOpen && processError == None
      ensures |files| > 0 && Analyze(x, files).Failed? ==>
                processError == Some(Analyze(x, files).message)
                && transactions == old(transactions) && dialogOpen == old(dialogOpen)
    {
      if |files| == 0 {
        return;
      }
      processing := true;
      processError := None;
      var results := ReadAll(x, files);
      var gathered := Collect(results, |results|);
      if gathered.Failure? {
        processError := Some(if |gathered.error| == 0 then ProcessFailed else gathered.error);
        processing := false;
        return;
      }
      var unique := Dedup(gathered.value);
      if |unique| == 0 {
        processError := Some(NoTransactions);
        processing := false;
        return;
      }
      transactions := SortByDate(unique);
      dialogOpen := true;
      processing := false;
    }
  }
}
