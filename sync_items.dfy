/** `SyncItemsUseCase.execute` of the item uploader: every item the
    repository lists is sent with `putItem`, one after the other, and the
    use case reports how many there were, how many succeeded and how many
    failed, with one log line per item after a heading line. */
module SyncItems {
  import opened Wrappers
  import opened Cells
  import opened SheetRepository

  /** What `putItem` returns: whether the upload succeeded and a message. */
  datatype ApiResult = ApiResult(success: bool, message: string)

  /** The HTTP client, as an oracle: the reply to each `putItem` is given
      by `reply` from the number of earlier calls and the item, and every
      call is logged in `puts`. */
  class ApiClient {
    const reply: (nat, Item) -> ApiResult
    var puts: seq<Item>

    constructor (reply: (nat, Item) -> ApiResult)
      ensures this.reply == reply && puts == []
    {
      this.reply := reply;
      puts := [];
    }

    /** `putItem`. */
    method PutItem(item: Item) returns (r: ApiResult)
      modifies this
      ensures r == reply(|old(puts)|, item)
      ensures puts == old(puts) + [item]
    {
      r := reply(|puts|, item);
      puts := puts + [item];
    }
  }

  /** What `execute` returns. */
  datatype Summary = Summary(total: int, success: int, failed: int, logs: seq<string>)

  /** The decimal digits of a count, as a template literal shows it. */
  function Decimal(n: nat): (s: string)
    ensures s != [] && forall i :: 0 <= i < |s| ==> '0' <= s[i] <= '9'
    ensures n < 10 <==> |s| == 1
  {
    if n < 10 then [Digit(n)] else Decimal(n / 10) + [Digit(n % 10)]
  }

  function Digit(d: nat): (c: char)
    requires d < 10
    ensures '0' <= c <= '9'
  {
    "0123456789"[d]
  }

  /** The number a string of decimal digits denotes. */
  function DigitsValue(s: string): nat
    requires forall i :: 0 <= i < |s| ==> '0' <= s[i] <= '9'
  {
    if s == [] then 0
    else 10 * DigitsValue(s[..|s| - 1]) + (s[|s| - 1] as int - '0' as int)
  }

  /** The digits read back as the count they show, without leading zeros. */
  lemma {:induction false} DecimalValue(n: nat)
    ensures DigitsValue(Decimal(n)) == n
    ensures |Decimal(n)| > 1 ==> Decimal(n)[0] != '0'
  {
    var s := Decimal(n);
    if n >= 10 {
      DecimalValue(n / 10);
      assert s[..|s| - 1] == Decimal(n / 10);
      assert s[0] == Decimal(n / 10)[0];
    }
  }

  /** The first log line. */
  function FoundLine(count: nat): string {
    "Found " + Decimal(count) + " items to sync."
  }

  /** The log line of an item whose upload succeeded. */
  function SuccessLine(item: Item): string {
    "[SUCCESS] JAN: " + item.jan + ", Name: " + item.name
  }

  /** The log line of an item whose upload failed with `message`. */
  function FailedLine(item: Item, message: string): string {
    "[FAILED] JAN: " + item.jan + ", Name: " + item.name + ", Message: " + message
  }

  /** The log line for one item and the reply to its upload. */
  function ItemLine(item: Item, result: ApiResult): string {
    if result.success then SuccessLine(item) else FailedLine(item, result.message)
  }

  /** The replies to the uploads of `items`, the first of them being call
      number `first` of the client. */
  function Replies(reply: (nat, Item) -> ApiResult, first: nat, items: seq<Item>): (r: seq<ApiResult>)
    ensures |r| == |items|
    ensures forall i :: 0 <= i < |items| ==> r[i] == reply(first + i, items[i])
  {
    seq(|items|, i requires 0 <= i < |items| => reply(first + i, items[i]))
  }

  /** The two counters and the item log lines of the loop. */
  datatype Tally = Tally(success: nat, failed: nat, lines: seq<string>)

  /** One more item and the reply to its upload. */
  function Counted(t: Tally, item: Item, result: ApiResult): Tally {
    if result.success then Tally(t.success + 1, t.failed, t.lines + [SuccessLine(item)])
    else Tally(t.success, t.failed + 1, t.lines + [FailedLine(item, result.message)])
  }

  /** The tally after uploading `items` with replies `results`. */
  function Tallied(items: seq<Item>, results: seq<ApiResult>): Tally
    requires |results| == |items|
  {
    if items == [] then Tally(0, 0, [])
    else
      var n := |items| - 1;
      Counted(Tallied(items[..n], results[..n]), items[n], results[n])
  }

  /** The summary for `items` uploaded with replies `results`. */
  function Summarized(items: seq<Item>, results: seq<ApiResult>): Summary
    requires |results| == |items|
  {
    var t := Tallied(items, results);
    Summary(|items|, t.success, t.failed, [FoundLine(|items|)] + t.lines)
  }

  /** `execute` with the repository reading the sheet `sheet` found under
      `sheetName`: when the sheet is missing the error propagates and
      nothing is uploaded; otherwise each listed item is uploaded once, in
      order, and the summary describes the replies. */
  method Execute(api: ApiClient, sheetName: string, sheet: Option<seq<seq<CellValue>>>, render: Renderer)
    returns (r: Result<Summary, RepositoryError>)
    modifies api
    ensures var listed := GetFilteredItems(sheetName, sheet, render);
      && (listed.Failure? ==> r == Failure(listed.error) && api.puts == old(api.puts))
      && (listed.Success? ==>
            && api.puts == old(api.puts) + listed.value
            && r == Success(Summarized(listed.value, Replies(api.reply, |old(api.puts)|, listed.value))))
  {
    var listed := GetFilteredItems(sheetName, sheet, render);
    if listed.Failure? {
      return Failure(listed.error);
    }
    var summary := UploadAll(api, listed.value);
    return Success(summary);
  }

  /** The loop of `execute` over the items listed: each is uploaded once,
      in order, counted and logged. */
  method UploadAll(api: ApiClient, items: seq<Item>) returns (summary: Summary)
    modifies api
    ensures api.puts == old(api.puts) + items
    ensures summary == Summarized(items, Replies(api.reply, |old(api.puts)|, items))
  {
    var logs := [FoundLine(|items|)];
    var successCount, failedCount := 0, 0;
    ghost var before, reply := api.puts, api.reply;
    ghost var results: seq<ApiResult> := [];
    ghost var tally := Tally(0, 0, []);
    for i := 0 to |items|
      invariant api.puts == before + items[..i]
      invariant results == Replies(reply, |before|, items[..i])
      invariant tally == Tallied(items[..i], results)
      invariant successCount == tally.success && failedCount == tally.failed
      invariant logs == [FoundLine(|items|)] + tally.lines
    {
      var item := items[i];
      var result := api.PutItem(item);
      UploadStep(reply, before, items, i, results, result);
      if result.success {
        successCount := successCount + 1;
        logs := logs + [SuccessLine(item)];
      } else {
        failedCount := failedCount + 1;
        logs := logs + [FailedLine(item, result.message)];
      }
      tally := Counted(tally, item, result);
      results := results + [result];
    }
    assert items[..|items|] == items;
    return Summary(|items|, successCount, failedCount, logs);
  }

  /** One more upload: the call log grows by the item, its reply is the next
      of `Replies`, and the tally counts it. */
  lemma UploadStep(reply: (nat, Item) -> ApiResult, before: seq<Item>, items: seq<Item>, i: nat,
                   results: seq<ApiResult>, result: ApiResult)
    requires i < |items| && results == Replies(reply, |before|, items[..i])
    requires result == reply(|before + items[..i]|, items[i])
    ensures before + items[..i + 1] == (before + items[..i]) + [items[i]]
    ensures result == reply(|before| + i, items[i])
    ensures results + [result] == Replies(reply, |before|, items[..i + 1])
    ensures Tallied(items[..i + 1], results + [result]) == Counted(Tallied(items[..i], results), items[i], result)
  {
    assert items[..i + 1] == items[..i] + [items[i]];
    assert items[..i + 1][..i] == items[..i];
    assert (results + [result])[..i] == results;
  }

  /** The indexes of the replies that report success. */
  function SuccessIndexes(results: seq<ApiResult>): set<nat> {
    set i: nat | i < |results| && results[i].success
  }

  /** The tally counts every item once, and holds the log line of each
      item in order. */
  lemma {:induction false} TalliedLines(items: seq<Item>, results: seq<ApiResult>)
    requires |results| == |items|
    ensures var t := Tallied(items, results);
      && t.success + t.failed == |items|
      && |t.lines| == |items|
      && forall i :: 0 <= i < |items| ==> t.lines[i] == ItemLine(items[i], results[i])
  {
    if items != [] {
      var n := |items| - 1;
      var init, rest := items[..n], results[..n];
      TalliedLines(init, rest);
      var t, t' := Tallied(items, results), Tallied(init, rest);
      assert t.lines == t'.lines + [ItemLine(items[n], results[n])];
      forall i | 0 <= i < |items|
        ensures t.lines[i] == ItemLine(items[i], results[i])
      {
        if i < n {
          assert t.lines[i] == t'.lines[i];
          assert init[i] == items[i] && rest[i] == results[i];
        }
      }
    }
  }

  /** The success count is the number of replies that report success. */
  lemma {:induction false} TalliedSuccesses(items: seq<Item>, results: seq<ApiResult>)
    requires |results| == |items|
    ensures Tallied(items, results).success == |SuccessIndexes(results)|
  {
    if items != [] {
      var n := |items| - 1;
      var rest := results[..n];
      TalliedSuccesses(items[..n], rest);
      var before := SuccessIndexes(rest);
      assert SuccessIndexes(results) == before + (if results[n].success then {n} else {}) by {
        forall i | i in SuccessIndexes(results)
          ensures i in before + (if results[n].success then {n} else {})
        {
          if i < n {
            assert rest[i] == results[i];
          }
        }
        forall i | i in before
          ensures i in SuccessIndexes(results)
        {
          assert rest[i] == results[i];
        }
      }
      assert n !in before;
    }
  }

  /** The counts mean what their names say: `total` is the number of items,
      `success` the number of uploads whose reply reports success and
      `failed` the rest. */
  lemma SummaryCounts(items: seq<Item>, results: seq<ApiResult>)
    requires |results| == |items|
    ensures var s := Summarized(items, results);
      && s.total == |items|
      && s.success == |SuccessIndexes(results)|
      && s.success + s.failed == s.total
  {
    TalliedLines(items, results);
    TalliedSuccesses(items, results);
  }

  /** After the heading, which gives the number of items, there is one log
      line per item, in order. */
  lemma SummaryLogs(items: seq<Item>, results: seq<ApiResult>)
    requires |results| == |items|
    ensures var s := Summarized(items, results);
      && |s.logs| == 1 + |items|
      && s.logs[0] == FoundLine(|items|)
      && (forall i :: 0 <= i < |items| ==> s.logs[i + 1] == ItemLine(items[i], results[i]))
  {
    TalliedLines(items, results);
    Prepended(FoundLine(|items|), Tallied(items, results).lines);
  }

  /** Indexing a sequence with one element put in front. */
  lemma Prepended<T>(x: T, s: seq<T>)
    ensures |[x] + s| == 1 + |s| && ([x] + s)[0] == x
    ensures forall i :: 0 <= i < |s| ==> ([x] + s)[i + 1] == s[i]
  {
  }

  /** A success line and a failure line are told apart by their first
      word. */
  lemma LineMarkers(item: Item, message: string)
    ensures |SuccessLine(item)| >= 9 && SuccessLine(item)[..9] == "[SUCCESS]"
    ensures |FailedLine(item, message)| >= 8 && FailedLine(item, message)[..8] == "[FAILED]"
  {
  }

  /** When every upload succeeds, all items count as successes and none as
      failures; when every upload fails, the reverse. */
  lemma {:induction false} AllSameReply(items: seq<Item>, results: seq<ApiResult>)
    requires |results| == |items|
    ensures (forall i :: 0 <= i < |results| ==> results[i].success) ==>
      Summarized(items, results).success == |items| && Summarized(items, results).failed == 0
    ensures (forall i :: 0 <= i < |results| ==> !results[i].success) ==>
      Summarized(items, results).success == 0 && Summarized(items, results).failed == |items|
  {
    if results != [] {
      var n := |results| - 1;
      AllSameReply(items[..n], results[..n]);
      assert forall i :: 0 <= i < n ==> results[..n][i] == results[i];
    }
  }
}
