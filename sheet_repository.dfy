/** `SheetRepository.getFilteredItems` of the item uploader: the items listed
    on the filtered sheet, one per data row below the header, keeping the
    rows whose JAN code is not empty. */
module SheetRepository {
  import opened Wrappers
  import opened Seqs
  import opened Cells

  /** One product to upload. */
  datatype Item = Item(jan: string, name: string, isListed: bool)

  /** The error `getFilteredItems` throws when the sheet is missing; it
      names the sheet. */
  datatype RepositoryError = SheetNotFound(sheetName: string)

  /** The cell at `column` of a line of `getValues`, `undefined` past its
      end. */
  function CellOf(line: seq<CellValue>, column: nat): CellValue {
    if column < |line| then line[column] else Undefined
  }

  /** The item made of one data line: `String(row[1])` as the JAN code,
      `String(row[2])` as the name, always listed. */
  function ItemOf(render: Renderer): seq<CellValue> -> Item {
    line => Item(ToJsString(CellOf(line, 1), render), ToJsString(CellOf(line, 2), render), true)
  }

  /** The items are kept when their JAN code is not the empty string. */
  predicate HasJan(item: Item) {
    item.jan != ""
  }

  /** `data.slice(1).map(...).filter(...)` over the values of the sheet's
      data range. */
  function FilteredItems(data: seq<seq<CellValue>>, render: Renderer): seq<Item> {
    if data == [] then [] else Filter(Map(data[1..], ItemOf(render)), HasJan)
  }

  /** `getFilteredItems`, where `sheet` is what `getSheetByName` finds under
      `sheetName` (`None` for `null`), as the values of its data range. */
  function GetFilteredItems(sheetName: string, sheet: Option<seq<seq<CellValue>>>, render: Renderer): (r: Result<seq<Item>, RepositoryError>)
    ensures sheet.None? <==> r == Failure(SheetNotFound(sheetName))
  {
    if sheet.None? then Failure(SheetNotFound(sheetName))
    else Success(FilteredItems(sheet.value, render))
  }

  /** Every item is listed, has a non-empty JAN code and is the item of some
      line below the header; every line below the header whose JAN code is
      not empty gives its item, once per such line, so that equal lines give
      equal items that are all uploaded; the items keep the order of the
      lines and there are at most as many as lines below the header. */
  lemma FilteredItemsMeaning(data: seq<seq<CellValue>>, render: Renderer)
    ensures var r := FilteredItems(data, render);
      && (forall item :: item in r ==>
            item.isListed && item.jan != "" && exists i :: 1 <= i < |data| && item == ItemOf(render)(data[i]))
      && (forall i :: 1 <= i < |data| && ToJsString(CellOf(data[i], 1), render) != "" ==> ItemOf(render)(data[i]) in r)
      && (data != [] ==> Subseq(r, Map(data[1..], ItemOf(render))))
      && (data != [] ==> forall item ::
            multiset(r)[item] == if item.jan != "" then multiset(Map(data[1..], ItemOf(render)))[item] else 0)
      && |r| <= if data == [] then 0 else |data| - 1
  {
    var r := FilteredItems(data, render);
    if data != [] {
      var lines := Map(data[1..], ItemOf(render));
      FilterKeepsOccurrences(lines, HasJan);
      forall item | item in r
        ensures exists i :: 1 <= i < |data| && item == ItemOf(render)(data[i])
      {
        var k :| 0 <= k < |lines| && lines[k] == item;
        assert item == ItemOf(render)(data[k + 1]);
      }
      forall i | 1 <= i < |data| && ToJsString(CellOf(data[i], 1), render) != ""
        ensures ItemOf(render)(data[i]) in r
      {
        assert lines[i - 1] == ItemOf(render)(data[i]);
      }
    }
  }

  /** The header line never contributes: two sheets that differ only in
      their first line list the same items. */
  lemma HeaderIgnored(header: seq<CellValue>, other: seq<CellValue>, rows: seq<seq<CellValue>>, render: Renderer)
    ensures FilteredItems([header] + rows, render) == FilteredItems([other] + rows, render)
  {
    assert ([header] + rows)[1..] == rows;
    assert ([other] + rows)[1..] == rows;
  }
}
