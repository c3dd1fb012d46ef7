/** Reading the roster from the data sheet and writing results back:
    membership names into column E of the first matching row, and the time
    of the last change into the settings sheet. */
module SheetService {
  import opened Wrappers
  import opened Seqs
  import opened JsString
  import opened Cells
  import opened Types
  import opened Gas
  import opened Configuration

  /** `parseDateTime`: the time value of a date cell.  How the host parses a
      date string is given by `parse`, which yields the time value before
      TimeClip; numbers are milliseconds since the epoch. */
  function ParseDateTime(v: CellValue, parse: string -> Option<int>): (r: Option<TimeValue>)
    ensures r.Some? ==> v.DateObject? || v.Text? || v.Number?
    ensures v.DateObject? ==> r == v.time
    ensures v.Number? ==> r == TimeClip(v.x)
    ensures v.Text? && parse(v.s).None? ==> r.None?
  {
    match v
    case DateObject(t) => t
    case Text(s) => if parse(s).Some? then TimeClip(parse(s).value as real) else None
    case Number(x) => TimeClip(x)
    case _ => None
  }

  /** Values that are neither dates, strings nor numbers never parse. */
  lemma NonDatesDoNotParse(v: CellValue, parse: string -> Option<int>)
    requires v.Boolean? || v.Null? || v.Undefined? || v.NaN? || v.Infinity?
    ensures ParseDateTime(v, parse).None?
  {
  }

  /** `String(v).trim()`.  The fixed texts JavaScript gives `NaN`, the
      infinities, booleans, `null`, `undefined` and an invalid date have no
      surrounding whitespace, so only strings and rendered numbers and dates
      are trimmed (`TrimmedTextAgrees` checks this). */
  function TrimmedText(v: CellValue, render: Renderer): (r: string)
    ensures IsTrimmed(r)
    ensures v.Text? ==> r == Trim(v.s)
  {
    if Rendered(v) then Trim(ToJsString(v, render))
    else
      FixedTextTrimmed(v, render);
      ToJsString(v, render)
  }

  /** The fixed texts of the values that are not rendered have no
      surrounding whitespace. */
  lemma FixedTextTrimmed(v: CellValue, render: Renderer)
    requires !Rendered(v)
    ensures IsTrimmed(ToJsString(v, render))
  {
    match v {
      case NaN =>
      case Infinity(negative) =>
      case Boolean(b) =>
      case DateObject(t) => assert ToJsString(v, render) == "Invalid Date";
      case Null =>
      case Undefined =>
    }
  }

  /** The values whose text comes from the cell or from the host's rendering. */
  predicate Rendered(v: CellValue) {
    v.Text? || v.Number? || (v.DateObject? && v.time.Some?)
  }

  /** `TrimmedText` is `String(v).trim()` for every value. */
  lemma TrimmedTextAgrees(v: CellValue, render: Renderer)
    ensures TrimmedText(v, render) == Trim(ToJsString(v, render))
  {
    if !Rendered(v) {
      TrimOfTrimmed(ToJsString(v, render));
    }
  }

  /** The roster row built from one line of `getValues` read from sheet row
      `rowIndex`, or `None` when the line is skipped. */
  function RowOf(line: seq<CellValue>, rowIndex: int, parse: string -> Option<int>, render: Renderer): Option<SheetRow>
    requires |line| == ColumnCount
  {
    var group, member := line[GroupEmailColumn], line[MemberEmailColumn];
    var name := line[MembershipNameColumn];
    if !Truthy(group) || !Truthy(member) then None
    else
      var start, end := ParseDateTime(line[StartTimeColumn], parse), ParseDateTime(line[EndTimeColumn], parse);
      if start.None? || end.None? then None
      else
        Some(SheetRow(
          rowIndex,
          TrimmedText(group, render),
          TrimmedText(member, render),
          start.value,
          end.value,
          if Truthy(name) then Some(TrimmedText(name, render)) else None))
  }

  /** A line yields a row exactly when both addresses are present and both
      times parse; the row carries its own sheet row, the trimmed addresses,
      the parsed times and the trimmed name when there is one. */
  lemma RowOfMeaning(line: seq<CellValue>, rowIndex: int, parse: string -> Option<int>, render: Renderer)
    requires |line| == ColumnCount
    ensures var r := RowOf(line, rowIndex, parse, render);
      && (r.Some? <==>
            && Truthy(line[GroupEmailColumn]) && Truthy(line[MemberEmailColumn])
            && ParseDateTime(line[StartTimeColumn], parse).Some?
            && ParseDateTime(line[EndTimeColumn], parse).Some?)
      && (r.Some? ==>
            && r.value.rowIndex == rowIndex
            && IsTrimmed(r.value.groupEmail) && IsTrimmed(r.value.memberEmail)
            && Some(r.value.startTime) == ParseDateTime(line[StartTimeColumn], parse)
            && Some(r.value.endTime) == ParseDateTime(line[EndTimeColumn], parse)
            && (r.value.membershipName.Some? <==> Truthy(line[MembershipNameColumn]))
            && (r.value.membershipName.Some? ==> IsTrimmed(r.value.membershipName.value))
            && (line[GroupEmailColumn].Text? ==> r.value.groupEmail == Trim(line[GroupEmailColumn].s))
            && (line[MemberEmailColumn].Text? ==> r.value.memberEmail == Trim(line[MemberEmailColumn].s)))
  {
  }

  /** The conversion `loadSheetData` applies to each line it reads, as a
      function value: a line of the expected width goes through `RowOf`. */
  function RowAt(parse: string -> Option<int>, render: Renderer): (seq<CellValue>, int) -> Option<SheetRow> {
    (line: seq<CellValue>, rowIndex: int) =>
      if |line| == ColumnCount then RowOf(line, rowIndex, parse, render) else None
  }

  lemma RowAtIsRowOf(line: seq<CellValue>, rowIndex: int, parse: string -> Option<int>, render: Renderer)
    requires |line| == ColumnCount
    ensures RowAt(parse, render)(line, rowIndex) == RowOf(line, rowIndex, parse, render)
  {
  }

  /** The row (or skip) `build` makes of each line of `grid`, the first of
      which was read from sheet row `start`. */
  function LineRows(grid: seq<seq<CellValue>>, start: int, build: (seq<CellValue>, int) -> Option<SheetRow>): (r: seq<Option<SheetRow>>)
    ensures |r| == |grid|
    ensures forall i {:trigger r[i]} :: 0 <= i < |grid| ==> r[i] == build(grid[i], start + i)
  {
    seq(|grid|, i requires 0 <= i < |grid| => build(grid[i], start + i))
  }

  /** Every row `build` makes carries the row index it is given. */
  ghost predicate KeepsIndex(build: (seq<CellValue>, int) -> Option<SheetRow>) {
    forall line, rowIndex :: build(line, rowIndex).Some? ==> build(line, rowIndex).value.rowIndex == rowIndex
  }

  lemma RowAtKeepsIndex(parse: string -> Option<int>, render: Renderer)
    ensures KeepsIndex(RowAt(parse, render))
  {
    forall line, rowIndex | RowAt(parse, render)(line, rowIndex).Some?
      ensures RowAt(parse, render)(line, rowIndex).value.rowIndex == rowIndex
    {
      if |line| == ColumnCount {
        RowOfMeaning(line, rowIndex, parse, render);
      }
    }
  }

  /** Every present entry of `opts` carries its own row index. */
  ghost predicate Indexed(opts: seq<Option<SheetRow>>, start: int) {
    forall i :: 0 <= i < |opts| && opts[i].Some? ==> opts[i].value.rowIndex == start + i
  }

  lemma LineRowsIndexed(grid: seq<seq<CellValue>>, start: int, build: (seq<CellValue>, int) -> Option<SheetRow>)
    requires KeepsIndex(build)
    ensures Indexed(LineRows(grid, start, build), start)
  {
  }

  /** The present entries of `opts`, in order. */
  function Present(opts: seq<Option<SheetRow>>): (r: seq<SheetRow>)
    ensures |r| <= |opts|
  {
    if opts == [] then []
    else
      var rest := Present(opts[..|opts| - 1]);
      var last := opts[|opts| - 1];
      if last.Some? then rest + [last.value] else rest
  }

  /** Each of `r` is the entry of `opts` at its own row index. */
  ghost predicate FromEntries(r: seq<SheetRow>, opts: seq<Option<SheetRow>>, start: int) {
    forall k :: 0 <= k < |r| ==>
      start <= r[k].rowIndex < start + |opts| && opts[r[k].rowIndex - start] == Some(r[k])
  }

  /** The row indexes of `r` strictly increase. */
  ghost predicate Increasing(r: seq<SheetRow>) {
    forall k, l :: 0 <= k < l < |r| ==> r[k].rowIndex < r[l].rowIndex
  }

  /** Each kept row is the entry at its own row index, and the kept rows keep
      the order of the entries. */
  lemma {:induction false} PresentSound(opts: seq<Option<SheetRow>>, start: int)
    requires Indexed(opts, start)
    ensures FromEntries(Present(opts), opts, start)
    ensures Increasing(Present(opts))
  {
    if opts != [] {
      var init := opts[..|opts| - 1];
      var last := opts[|opts| - 1];
      assert Indexed(init, start) by {
        forall i | 0 <= i < |init| && init[i].Some?
          ensures init[i].value.rowIndex == start + i
        {
          assert init[i] == opts[i];
        }
      }
      PresentSound(init, start);
      var rest := Present(init);
      var r := Present(opts);
      forall k | 0 <= k < |r|
        ensures start <= r[k].rowIndex < start + |opts| && opts[r[k].rowIndex - start] == Some(r[k])
      {
        if k < |rest| {
          assert r[k] == rest[k];
          assert init[rest[k].rowIndex - start] == opts[rest[k].rowIndex - start];
        }
      }
      forall k, l | 0 <= k < l < |r|
        ensures r[k].rowIndex < r[l].rowIndex
      {
        assert r[k] == rest[k];
        if l < |rest| {
          assert r[l] == rest[l];
        }
      }
    }
  }

  /** Every present entry is kept. */
  lemma {:induction false} PresentComplete(opts: seq<Option<SheetRow>>, i: nat)
    requires i < |opts| && opts[i].Some?
    ensures opts[i].value in Present(opts)
  {
    var init := opts[..|opts| - 1];
    if i < |opts| - 1 {
      assert init[i] == opts[i];
      PresentComplete(init, i);
    }
  }

  /** The rows kept from the lines of `grid`. */
  function LoadRows(grid: seq<seq<CellValue>>, start: int, parse: string -> Option<int>, render: Renderer): (r: seq<SheetRow>)
    ensures |r| <= |grid|
  {
    Present(LineRows(grid, start, RowAt(parse, render)))
  }

  /** Every row kept from the lines `build` makes is the one made from the
      line of its own row index, and the rows keep the order of the lines. */
  lemma BuiltRowsSound(grid: seq<seq<CellValue>>, start: int, build: (seq<CellValue>, int) -> Option<SheetRow>)
    requires KeepsIndex(build)
    ensures var r := Present(LineRows(grid, start, build));
      && (forall k :: 0 <= k < |r| ==>
            && start <= r[k].rowIndex < start + |grid|
            && build(grid[r[k].rowIndex - start], r[k].rowIndex) == Some(r[k]))
      && Increasing(r)
  {
    var lines := LineRows(grid, start, build);
    LineRowsIndexed(grid, start, build);
    PresentSound(lines, start);
    var r := Present(lines);
    forall k | 0 <= k < |r|
      ensures start <= r[k].rowIndex < start + |grid|
      ensures build(grid[r[k].rowIndex - start], r[k].rowIndex) == Some(r[k])
    {
      var i := r[k].rowIndex - start;
      assert lines[i] == build(grid[i], start + i);
    }
  }

  /** Every row `build` makes of a line is kept. */
  lemma BuiltRowsComplete(grid: seq<seq<CellValue>>, start: int, build: (seq<CellValue>, int) -> Option<SheetRow>, i: nat)
    requires i < |grid| && build(grid[i], start + i).Some?
    ensures build(grid[i], start + i).value in Present(LineRows(grid, start, build))
  {
    var lines := LineRows(grid, start, build);
    assert lines[i] == build(grid[i], start + i);
    PresentComplete(lines, i);
  }

  /** What `loadSheetData` returns for a data sheet. */
  function LoadedRows(sheet: DataSheet, dataStartRow: int, parse: string -> Option<int>, render: Renderer): (r: seq<SheetRow>)
    reads sheet
    ensures sheet.lastRow < dataStartRow ==> r == []
    ensures |r| <= if sheet.lastRow < dataStartRow then 0 else sheet.lastRow - dataStartRow + 1
  {
    if sheet.lastRow < dataStartRow then []
    else LoadRows(sheet.Values(dataStartRow, sheet.lastRow - dataStartRow + 1, ColumnCount), dataStartRow, parse, render)
  }

  /** `loadSheetData`: reads columns A to E of every data row at once and
      keeps, in sheet order, the rows that have both addresses and two
      valid times. */
  method LoadSheetData(config: Config, parse: string -> Option<int>, render: Renderer) returns (rows: seq<SheetRow>)
    ensures rows == LoadedRows(config.dataSheet, config.dataStartRow, parse, render)
  {
    var sheet, start := config.dataSheet, config.dataStartRow;
    if sheet.lastRow < start {
      return [];
    }
    var values := sheet.Values(start, sheet.lastRow - start + 1, ColumnCount);
    rows := KeepRows(values, start, RowAt(parse, render));
  }

  /** The loop of `loadSheetData` over the lines read, with the conversion
      of one line (`RowAt`) as `build`. */
  method KeepRows(values: seq<seq<CellValue>>, start: int, build: (seq<CellValue>, int) -> Option<SheetRow>) returns (rows: seq<SheetRow>)
    ensures rows == Present(LineRows(values, start, build))
  {
    ghost var lines := LineRows(values, start, build);
    rows := [];
    var i := 0;
    while i < |values|
      invariant 0 <= i <= |values|
      invariant rows == Present(lines[..i])
    {
      var row := build(values[i], start + i);
      PresentSnoc(lines, i);
      assert lines[i] == row;
      if row.Some? {
        rows := rows + [row.value];
      }
      i := i + 1;
    }
    assert lines[..i] == lines;
  }

  /** Keeping the entries of one more line. */
  lemma PresentSnoc(opts: seq<Option<SheetRow>>, i: nat)
    requires i < |opts|
    ensures Present(opts[..i + 1]) == Present(opts[..i]) + (if opts[i].Some? then [opts[i].value] else [])
  {
    assert opts[..i + 1][..i] == opts[..i];
  }

  /** The row belongs to the group and names the member. */
  predicate Matches(row: SheetRow, group: GroupEmail, member: MemberEmail) {
    row.groupEmail == group && row.memberEmail == member
  }

  /** `rows.find(...)`: the index of the first row for the group and member. */
  function FindRow(rows: seq<SheetRow>, group: GroupEmail, member: MemberEmail): (i: Option<nat>)
    ensures i.Some? ==> i.value < |rows| && Matches(rows[i.value], group, member)
    ensures i.Some? ==> forall j :: 0 <= j < i.value ==> !Matches(rows[j], group, member)
    ensures i.None? ==> forall j :: 0 <= j < |rows| ==> !Matches(rows[j], group, member)
  {
    if rows == [] then None
    else
      var found := FindRow(rows[..|rows| - 1], group, member);
      if found.Some? then found
      else if Matches(rows[|rows| - 1], group, member) then Some(|rows| - 1)
      else None
  }

  /** One `setValue` on the data sheet. */
  datatype CellWrite = CellWrite(row: int, column: int, value: CellValue)

  /** 1-based column of the membership names (E). */
  const NameColumn: int := MembershipNameColumn + 1

  /** `addedMembershipNames.get(member) || ''`. */
  function NameValue(names: map<MemberEmail, MembershipName>, member: MemberEmail): string {
    if member in names then names[member] else ""
  }

  /** The write targets column E of a row that was loaded. */
  ghost predicate OnLoadedRow(w: CellWrite, rows: seq<SheetRow>) {
    w.column == NameColumn && exists k :: 0 <= k < |rows| && rows[k].rowIndex == w.row
  }

  /** The writes for `members` of one group: for each member in order, the
      name from `names` (or "") into the first row for that group and member,
      when there is one. */
  function MemberWrites(rows: seq<SheetRow>, group: GroupEmail, members: seq<MemberEmail>, names: map<MemberEmail, MembershipName>): (r: seq<CellWrite>)
    ensures |r| <= |members|
  {
    if members == [] then []
    else
      var member := members[|members| - 1];
      var rest := MemberWrites(rows, group, members[..|members| - 1], names);
      var found := FindRow(rows, group, member);
      if found.Some? then rest + [CellWrite(rows[found.value].rowIndex, NameColumn, Text(NameValue(names, member)))]
      else rest
  }

  /** One more member adds the write for its first matching row, if any. */
  lemma MemberWritesSnoc(rows: seq<SheetRow>, group: GroupEmail, members: seq<MemberEmail>, names: map<MemberEmail, MembershipName>, j: nat)
    requires j < |members|
    ensures var found := FindRow(rows, group, members[j]);
      MemberWrites(rows, group, members[..j + 1], names) == MemberWrites(rows, group, members[..j], names)
        + if found.Some? then [CellWrite(rows[found.value].rowIndex, NameColumn, Text(NameValue(names, members[j])))] else []
  {
    assert members[..j + 1][..j] == members[..j];
  }

  /** Every write goes to column E of a loaded row of the group, and holds a
      name from `names` or "". */
  lemma {:induction false} MemberWritesTargets(rows: seq<SheetRow>, group: GroupEmail, members: seq<MemberEmail>, names: map<MemberEmail, MembershipName>)
    ensures forall w :: w in MemberWrites(rows, group, members, names) ==>
      && OnLoadedRow(w, rows)
      && (names == map[] ==> w.value == Text(""))
  {
    if members != [] {
      var member := members[|members| - 1];
      MemberWritesTargets(rows, group, members[..|members| - 1], names);
      var found := FindRow(rows, group, member);
      if found.Some? {
        assert OnLoadedRow(CellWrite(rows[found.value].rowIndex, NameColumn, Text(NameValue(names, member))), rows);
      }
    }
  }

  /** A member with a matching row gets exactly one write for it, into the
      first matching row. */
  lemma {:induction false} MemberWriteFor(rows: seq<SheetRow>, group: GroupEmail, members: seq<MemberEmail>, names: map<MemberEmail, MembershipName>, j: nat)
    requires j < |members| && FindRow(rows, group, members[j]).Some?
    ensures CellWrite(rows[FindRow(rows, group, members[j]).value].rowIndex, NameColumn, Text(NameValue(names, members[j])))
      in MemberWrites(rows, group, members, names)
  {
    var init := members[..|members| - 1];
    if j < |members| - 1 {
      assert init[j] == members[j];
      MemberWriteFor(rows, group, init, names, j);
    }
  }

  /** Members without a matching row produce no write at all. */
  lemma {:induction false} NoRowNoWrite(rows: seq<SheetRow>, group: GroupEmail, members: seq<MemberEmail>, names: map<MemberEmail, MembershipName>)
    requires forall j :: 0 <= j < |members| ==> FindRow(rows, group, members[j]).None?
    ensures MemberWrites(rows, group, members, names) == []
  {
    if members != [] {
      var init := members[..|members| - 1];
      assert forall j :: 0 <= j < |init| ==> init[j] == members[j];
      NoRowNoWrite(rows, group, init, names);
    }
  }

  /** The writes `writeMembershipNames` makes for one result: none when
      nothing was added. */
  function AddedWrites(rows: seq<SheetRow>, result: SyncResult): seq<CellWrite> {
    if |result.added| == 0 then [] else MemberWrites(rows, result.groupEmail, result.added, result.addedMembershipNames)
  }

  /** The writes `clearRemovedMembershipNames` makes for one result: none
      when nothing was removed. */
  function RemovedWrites(rows: seq<SheetRow>, result: SyncResult): seq<CellWrite> {
    if |result.removed| == 0 then [] else MemberWrites(rows, result.groupEmail, result.removed, map[])
  }

  /** Every write `writeMembershipNames` makes, in order. */
  function NameWrites(rows: seq<SheetRow>, results: seq<SyncResult>): seq<CellWrite> {
    if results == [] then []
    else NameWrites(rows, results[..|results| - 1]) + AddedWrites(rows, results[|results| - 1])
  }

  /** Every write `clearRemovedMembershipNames` makes, in order. */
  function ClearWrites(rows: seq<SheetRow>, results: seq<SyncResult>): seq<CellWrite> {
    if results == [] then []
    else ClearWrites(rows, results[..|results| - 1]) + RemovedWrites(rows, results[|results| - 1])
  }

  lemma NameWritesSnoc(rows: seq<SheetRow>, results: seq<SyncResult>, i: nat)
    requires i < |results|
    ensures NameWrites(rows, results[..i + 1]) == NameWrites(rows, results[..i]) + AddedWrites(rows, results[i])
  {
    assert results[..i + 1][..i] == results[..i];
  }

  lemma ClearWritesSnoc(rows: seq<SheetRow>, results: seq<SyncResult>, i: nat)
    requires i < |results|
    ensures ClearWrites(rows, results[..i + 1]) == ClearWrites(rows, results[..i]) + RemovedWrites(rows, results[i])
  {
    assert results[..i + 1][..i] == results[..i];
  }

  /** Write-back touches only column E of loaded rows; clearing writes only
      empty strings; results without additions (removals) write nothing. */
  lemma {:induction false} WriteBackTargets(rows: seq<SheetRow>, results: seq<SyncResult>)
    ensures forall w :: w in NameWrites(rows, results) ==> OnLoadedRow(w, rows)
    ensures forall w :: w in ClearWrites(rows, results) ==> OnLoadedRow(w, rows) && w.value == Text("")
    ensures (forall i :: 0 <= i < |results| ==> results[i].added == []) ==> NameWrites(rows, results) == []
    ensures (forall i :: 0 <= i < |results| ==> results[i].removed == []) ==> ClearWrites(rows, results) == []
  {
    if results != [] {
      var init, last := results[..|results| - 1], results[|results| - 1];
      WriteBackTargets(rows, init);
      assert forall i :: 0 <= i < |init| ==> init[i] == results[i];
      MemberWritesTargets(rows, last.groupEmail, last.added, last.addedMembershipNames);
      MemberWritesTargets(rows, last.groupEmail, last.removed, map[]);
    }
  }

  /** Each added member that has a row gets its membership name (or "")
      written into column E of the first such row. */
  lemma {:induction false} NameWrittenForAdded(rows: seq<SheetRow>, results: seq<SyncResult>, i: nat, j: nat)
    requires i < |results| && j < |results[i].added|
    requires FindRow(rows, results[i].groupEmail, results[i].added[j]).Some?
    ensures
      var k := FindRow(rows, results[i].groupEmail, results[i].added[j]).value;
      CellWrite(rows[k].rowIndex, NameColumn, Text(NameValue(results[i].addedMembershipNames, results[i].added[j])))
        in NameWrites(rows, results)
  {
    var n := |results|;
    var init, last := results[..n - 1], results[n - 1];
    assert NameWrites(rows, results) == NameWrites(rows, init) + AddedWrites(rows, last);
    if i < n - 1 {
      assert init[i] == results[i];
      NameWrittenForAdded(rows, init, i, j);
    } else {
      MemberWriteFor(rows, results[i].groupEmail, results[i].added, results[i].addedMembershipNames, j);
    }
  }

  /** Each removed member that has a row gets column E of the first such row
      cleared. */
  lemma {:induction false} NameClearedForRemoved(rows: seq<SheetRow>, results: seq<SyncResult>, i: nat, j: nat)
    requires i < |results| && j < |results[i].removed|
    requires FindRow(rows, results[i].groupEmail, results[i].removed[j]).Some?
    ensures
      var k := FindRow(rows, results[i].groupEmail, results[i].removed[j]).value;
      CellWrite(rows[k].rowIndex, NameColumn, Text("")) in ClearWrites(rows, results)
  {
    var n := |results|;
    var init, last := results[..n - 1], results[n - 1];
    assert ClearWrites(rows, results) == ClearWrites(rows, init) + RemovedWrites(rows, last);
    if i < n - 1 {
      assert init[i] == results[i];
      NameClearedForRemoved(rows, init, i, j);
    } else {
      MemberWriteFor(rows, results[i].groupEmail, results[i].removed, map[], j);
    }
  }

  /** The cells after the writes, applied in order. */
  function Apply(cells: map<(int, int), CellValue>, writes: seq<CellWrite>): map<(int, int), CellValue> {
    if writes == [] then cells
    else
      var w := writes[|writes| - 1];
      Apply(cells, writes[..|writes| - 1])[(w.row, w.column) := w.value]
  }

  /** A cell that no write targets keeps its value (or stays unset). */
  lemma {:induction false} ApplyElsewhere(cells: map<(int, int), CellValue>, writes: seq<CellWrite>, key: (int, int))
    requires forall w :: w in writes ==> (w.row, w.column) != key
    ensures key in Apply(cells, writes) <==> key in cells
    ensures key in cells ==> Apply(cells, writes)[key] == cells[key]
  {
    if writes != [] {
      var init := writes[..|writes| - 1];
      assert forall w :: w in init ==> w in writes;
      ApplyElsewhere(cells, init, key);
    }
  }

  /** The last write to a cell decides its value. */
  lemma {:induction false} ApplyLastWins(cells: map<(int, int), CellValue>, writes: seq<CellWrite>, i: nat)
    requires i < |writes|
    requires forall l :: i < l < |writes| ==> (writes[l].row, writes[l].column) != (writes[i].row, writes[i].column)
    ensures (writes[i].row, writes[i].column) in Apply(cells, writes)
    ensures Apply(cells, writes)[(writes[i].row, writes[i].column)] == writes[i].value
  {
    if i < |writes| - 1 {
      var init := writes[..|writes| - 1];
      assert forall l :: i < l < |init| ==> init[l] == writes[l];
      ApplyLastWins(cells, init, i);
    }
  }

  lemma ApplySnoc(cells: map<(int, int), CellValue>, writes: seq<CellWrite>, w: CellWrite)
    ensures Apply(cells, writes + [w]) == Apply(cells, writes)[(w.row, w.column) := w.value]
  {
    assert (writes + [w])[..|writes|] == writes;
  }

  lemma {:induction false} ApplyConcat(cells: map<(int, int), CellValue>, a: seq<CellWrite>, b: seq<CellWrite>)
    ensures Apply(cells, a + b) == Apply(Apply(cells, a), b)
  {
    if b != [] {
      var init := b[..|b| - 1];
      var w := b[|b| - 1];
      ApplyConcat(cells, a, init);
      assert (a + b)[..|a + b| - 1] == a + init;
      assert (a + b)[|a + b| - 1] == w;
      assert Apply(cells, a + b) == Apply(cells, a + init)[(w.row, w.column) := w.value];
      assert Apply(Apply(cells, a), b) == Apply(Apply(cells, a), init)[(w.row, w.column) := w.value];
    } else {
      assert a + b == a;
    }
  }

  /** `writeMembershipNames`. */
  method WriteMembershipNames(config: Config, rows: seq<SheetRow>, results: seq<SyncResult>)
    modifies config.dataSheet
    ensures config.dataSheet.cells == Apply(old(config.dataSheet.cells), NameWrites(rows, results))
  {
    var sheet := config.dataSheet;
    ghost var before := sheet.cells;
    var i := 0;
    while i < |results|
      invariant 0 <= i <= |results|
      invariant sheet.cells == Apply(before, NameWrites(rows, results[..i]))
    {
      var result := results[i];
      NameWritesSnoc(rows, results, i);
      ApplyConcat(before, NameWrites(rows, results[..i]), AddedWrites(rows, result));
      if |result.added| != 0 {
        WriteAddedNames(sheet, rows, result);
      }
      i := i + 1;
    }
    assert results[..i] == results;
  }

  /** The inner loop of `writeMembershipNames`, over one result's added
      members. */
  method WriteAddedNames(sheet: DataSheet, rows: seq<SheetRow>, result: SyncResult)
    modifies sheet
    ensures sheet.cells == Apply(old(sheet.cells), MemberWrites(rows, result.groupEmail, result.added, result.addedMembershipNames))
  {
    ghost var before := sheet.cells;
    var j := 0;
    while j < |result.added|
      invariant 0 <= j <= |result.added|
      invariant sheet.cells == Apply(before, MemberWrites(rows, result.groupEmail, result.added[..j], result.addedMembershipNames))
    {
      var member := result.added[j];
      ghost var done := MemberWrites(rows, result.groupEmail, result.added[..j], result.addedMembershipNames);
      MemberWritesSnoc(rows, result.groupEmail, result.added, result.addedMembershipNames, j);
      var found := FindRow(rows, result.groupEmail, member);
      if found.Some? {
        var name := NameValue(result.addedMembershipNames, member);
        ApplySnoc(before, done, CellWrite(rows[found.value].rowIndex, NameColumn, Text(name)));
        sheet.SetValue(rows[found.value].rowIndex, NameColumn, Text(name));
      } else {
        assert done + [] == done;
      }
      j := j + 1;
    }
    assert result.added[..j] == result.added;
  }

  /** `clearRemovedMembershipNames`. */
  method ClearRemovedMembershipNames(config: Config, rows: seq<SheetRow>, results: seq<SyncResult>)
    modifies config.dataSheet
    ensures config.dataSheet.cells == Apply(old(config.dataSheet.cells), ClearWrites(rows, results))
  {
    var sheet := config.dataSheet;
    ghost var before := sheet.cells;
    var i := 0;
    while i < |results|
      invariant 0 <= i <= |results|
      invariant sheet.cells == Apply(before, ClearWrites(rows, results[..i]))
    {
      var result := results[i];
      ClearWritesSnoc(rows, results, i);
      ApplyConcat(before, ClearWrites(rows, results[..i]), RemovedWrites(rows, result));
      if |result.removed| != 0 {
        ClearNames(sheet, rows, result);
      }
      i := i + 1;
    }
    assert results[..i] == results;
  }

  /** The inner loop of `clearRemovedMembershipNames`, over one result's
      removed members. */
  method ClearNames(sheet: DataSheet, rows: seq<SheetRow>, result: SyncResult)
    modifies sheet
    ensures sheet.cells == Apply(old(sheet.cells), MemberWrites(rows, result.groupEmail, result.removed, map[]))
  {
    ghost var before := sheet.cells;
    var j := 0;
    while j < |result.removed|
      invariant 0 <= j <= |result.removed|
      invariant sheet.cells == Apply(before, MemberWrites(rows, result.groupEmail, result.removed[..j], map[]))
    {
      var member := result.removed[j];
      ghost var done := MemberWrites(rows, result.groupEmail, result.removed[..j], map[]);
      MemberWritesSnoc(rows, result.groupEmail, result.removed, map[], j);
      var found := FindRow(rows, result.groupEmail, member);
      if found.Some? {
        ApplySnoc(before, done, CellWrite(rows[found.value].rowIndex, NameColumn, Text("")));
        sheet.SetValue(rows[found.value].rowIndex, NameColumn, Text(""));
      } else {
        assert done + [] == done;
      }
      j := j + 1;
    }
    assert result.removed[..j] == result.removed;
  }

  /** `writeLastOperationTime`: stores the time as a `Date` in the
      last-operation cell of the settings sheet. */
  method WriteLastOperationTime(config: Config, time: int)
    modifies config.settingsSheet
    ensures config.settingsSheet.written ==
      old(config.settingsSheet.written)[config.lastOperationCellAddress := DateObject(TimeClip(time as real))]
  {
    config.settingsSheet.SetValue(config.lastOperationCellAddress, DateObject(TimeClip(time as real)));
  }
}
