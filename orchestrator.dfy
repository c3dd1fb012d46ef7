/** `syncGroupsFromSheet`, the entry point of the group synchroniser: load the
    configuration, wait for the sheet's maintenance flag, take the document
    lock, load the roster, group it by group address, synchronise every
    group against one current time, write the outcome back to the sheets
    and release the lock on every way out once it is held. */
module Orchestrator {
  import opened Wrappers
  import opened Seqs
  import opened Cells
  import opened Types
  import opened Gas
  import opened Configuration
  import opened CloudIdentity
  import opened SheetService
  import opened SyncLogic
  import opened LockManager

  /* ---------- Grouping the rows (a `Map` in insertion order) ---------- */

  /** The group address of every row, in sheet order. */
  function GroupColumn(rows: seq<SheetRow>): (r: seq<GroupEmail>)
    ensures |r| == |rows|
    ensures forall i :: 0 <= i < |rows| ==> r[i] == rows[i].groupEmail
  {
    Map(rows, (row: SheetRow) => row.groupEmail)
  }

  /** The keys of `rowsByGroup`, in the order a `Map` iterates them: each
      group address once, in order of first appearance. */
  function GroupOrder(rows: seq<SheetRow>): seq<GroupEmail> {
    Dedup(GroupColumn(rows))
  }

  /** The rows of one group, in sheet order. */
  function RowsOf(rows: seq<SheetRow>, group: GroupEmail): seq<SheetRow> {
    Filter(rows, (row: SheetRow) => row.groupEmail == group)
  }

  /** The values of `rowsByGroup`. */
  function GroupedRows(rows: seq<SheetRow>): map<GroupEmail, seq<SheetRow>> {
    map g | g in GroupOrder(rows) :: RowsOf(rows, g)
  }

  /** The grouping partitions the rows: every group is listed once, in order
      of first appearance; a row belongs to the group of its address and to
      no other; and each group keeps its rows in sheet order. */
  lemma GroupingPartitions(rows: seq<SheetRow>)
    ensures var groups := GroupOrder(rows);
      && NoDup(groups)
      && (forall g :: g in groups <==> exists i :: 0 <= i < |rows| && rows[i].groupEmail == g)
      && (forall i, j :: 0 <= i < j < |groups| ==> OccursBefore(GroupColumn(rows), groups[i], groups[j]))
      && (forall g, row :: row in RowsOf(rows, g) <==> row in rows && row.groupEmail == g)
      && (forall g :: Subseq(RowsOf(rows, g), rows))
  {
    var column := GroupColumn(rows);
    DedupFirstAppearance(column);
    assert GroupOrder(rows) == Dedup(column);
    forall g | g in GroupOrder(rows)
      ensures exists i :: 0 <= i < |rows| && rows[i].groupEmail == g
    {
      var i :| 0 <= i < |column| && column[i] == g;
    }
  }

  /** `groups` and `byGroup` are the keys and entries of `rowsByGroup` once
      the rows of `prefix` have been added. */
  ghost predicate Grouped(prefix: seq<SheetRow>, groups: seq<GroupEmail>, byGroup: map<GroupEmail, seq<SheetRow>>) {
    && groups == GroupOrder(prefix)
    && forall g {:trigger GroupedAt(prefix, groups, byGroup, g)} :: GroupedAt(prefix, groups, byGroup, g)
  }

  /** Group address `g` is a key exactly when it is listed, and its entry
      holds the rows of `prefix` with that address. */
  ghost predicate GroupedAt(prefix: seq<SheetRow>, groups: seq<GroupEmail>, byGroup: map<GroupEmail, seq<SheetRow>>, g: GroupEmail) {
    && (g in byGroup <==> g in groups)
    && (g in byGroup ==> byGroup[g] == RowsOf(prefix, g))
    && (g !in byGroup ==> RowsOf(prefix, g) == [])
  }

  /** Adding row `i` to the grouping of the rows before it: a new group is
      appended to the keys, and the row to its group's entry. */
  lemma GroupStep(rows: seq<SheetRow>, i: nat, groups: seq<GroupEmail>, byGroup: map<GroupEmail, seq<SheetRow>>,
                  groups': seq<GroupEmail>, byGroup': map<GroupEmail, seq<SheetRow>>)
    requires i < |rows| && Grouped(rows[..i], groups, byGroup)
    requires var g := rows[i].groupEmail;
      && groups' == (if g in byGroup then groups else groups + [g])
      && byGroup' == byGroup[g := (if g in byGroup then byGroup[g] else []) + [rows[i]]]
    ensures Grouped(rows[..i + 1], groups', byGroup')
  {
    assert GroupedAt(rows[..i], groups, byGroup, rows[i].groupEmail);
    GroupOrderSnoc(rows, i);
    var prefix, next := rows[..i], rows[..i + 1];
    forall g
      ensures GroupedAt(next, groups', byGroup', g)
    {
      assert GroupedAt(prefix, groups, byGroup, g);
      GroupStepAt(rows, i, groups, byGroup, groups', byGroup', g);
    }
  }

  /** The entry of one group address `g` after adding row `i`. */
  lemma GroupStepAt(rows: seq<SheetRow>, i: nat, groups: seq<GroupEmail>, byGroup: map<GroupEmail, seq<SheetRow>>,
                    groups': seq<GroupEmail>, byGroup': map<GroupEmail, seq<SheetRow>>, g: GroupEmail)
    requires i < |rows| && GroupedAt(rows[..i], groups, byGroup, g)
    requires var r := rows[i].groupEmail;
      && (r in byGroup <==> r in groups)
      && groups' == (if r in byGroup then groups else groups + [r])
      && byGroup' == byGroup[r := (if r in byGroup then byGroup[r] else []) + [rows[i]]]
    ensures GroupedAt(rows[..i + 1], groups', byGroup', g)
  {
    var r := rows[i].groupEmail;
    RowsOfSnoc(rows, i, g);
    assert g in groups' <==> g in groups || g == r;
    if g == r {
      assert byGroup'[g] == RowsOf(rows[..i], g) + [rows[i]];
    } else {
      assert g in byGroup' <==> g in byGroup;
    }
  }

  /** Filtering one more row. */
  lemma RowsOfSnoc(rows: seq<SheetRow>, i: nat, group: GroupEmail)
    requires i < |rows|
    ensures RowsOf(rows[..i + 1], group) ==
      RowsOf(rows[..i], group) + (if rows[i].groupEmail == group then [rows[i]] else [])
  {
    assert rows[..i + 1][..i] == rows[..i];
  }

  /** Deduplicating one more group address. */
  lemma GroupOrderSnoc(rows: seq<SheetRow>, i: nat)
    requires i < |rows|
    ensures GroupOrder(rows[..i + 1]) ==
      GroupOrder(rows[..i]) + (if rows[i].groupEmail in GroupOrder(rows[..i]) then [] else [rows[i].groupEmail])
  {
    var column := GroupColumn(rows[..i + 1]);
    assert column[..i] == GroupColumn(rows[..i]);
    assert column[i] == rows[i].groupEmail;
  }

  /** The grouping of all the rows is `GroupedRows`. */
  lemma GroupedAll(rows: seq<SheetRow>, groups: seq<GroupEmail>, byGroup: map<GroupEmail, seq<SheetRow>>)
    requires Grouped(rows, groups, byGroup)
    ensures byGroup == GroupedRows(rows)
  {
    forall g
      ensures g in byGroup <==> g in GroupedRows(rows)
      ensures g in byGroup ==> byGroup[g] == GroupedRows(rows)[g]
    {
      assert GroupedAt(rows, groups, byGroup, g);
    }
  }

  /** The `forEach` that fills `rowsByGroup`: appends each row to its group's
      list, adding the group as a new key when it is first seen.  A `Map` is
      its keys in insertion order (`groups`) and its entries (`byGroup`). */
  method GroupRows(rows: seq<SheetRow>) returns (groups: seq<GroupEmail>, byGroup: map<GroupEmail, seq<SheetRow>>)
    ensures groups == GroupOrder(rows)
    ensures byGroup == GroupedRows(rows)
  {
    groups, byGroup := [], map[];
    for i := 0 to |rows|
      invariant Grouped(rows[..i], groups, byGroup)
    {
      var row := rows[i];
      var groupRows := if row.groupEmail in byGroup then byGroup[row.groupEmail] else [];
      var groups' := if row.groupEmail in byGroup then groups else groups + [row.groupEmail];
      var byGroup' := byGroup[row.groupEmail := groupRows + [row]];
      GroupStep(rows, i, groups, byGroup, groups', byGroup');
      groups, byGroup := groups', byGroup';
    }
    assert rows[..|rows|] == rows;
    GroupedAll(rows, groups, byGroup);
  }

  /* ---------- Synchronising every group ---------- */

  /** What the per-group loop yields for `groups`, where `sync(g)` is what
      `syncGroup` returns or throws for group `g`: every group's result in
      order, or the error of the first group that throws. */
  function SyncAllOutcome(sync: GroupEmail -> Result<SyncResult, Error>, groups: seq<GroupEmail>): Result<seq<SyncResult>, Error> {
    if groups == [] then Success([])
    else
      var prev := SyncAllOutcome(sync, groups[..|groups| - 1]);
      var r := sync(groups[|groups| - 1]);
      if prev.Failure? then prev
      else if r.Failure? then Failure(r.error)
      else Success(prev.value + [r.value])
  }

  /** The service calls of the per-group loop, where `calls(g)` are those of
      `syncGroup` for group `g`: the calls for each group up to and
      including the first that throws. */
  function SyncAllCalls(sync: GroupEmail -> Result<SyncResult, Error>, calls: GroupEmail -> seq<Call>, groups: seq<GroupEmail>): seq<Call> {
    if groups == [] then []
    else
      var init := groups[..|groups| - 1];
      if SyncAllOutcome(sync, init).Failure? then SyncAllCalls(sync, calls, init)
      else SyncAllCalls(sync, calls, init) + calls(groups[|groups| - 1])
  }

  /** The calls for every group of `groups`, in order. */
  function EachCalls(calls: GroupEmail -> seq<Call>, groups: seq<GroupEmail>): seq<Call> {
    if groups == [] then []
    else EachCalls(calls, groups[..|groups| - 1]) + calls(groups[|groups| - 1])
  }

  /** Group `n` is the first that throws, with `error`, and the loop's
      calls are those of the groups up to it. */
  ghost predicate FirstFailure(sync: GroupEmail -> Result<SyncResult, Error>, calls: GroupEmail -> seq<Call>,
                               groups: seq<GroupEmail>, n: nat, error: Error)
    requires n < |groups|
  {
    && sync(groups[n]) == Failure(error)
    && (forall i :: 0 <= i < n ==> sync(groups[i]).Success?)
    && SyncAllCalls(sync, calls, groups) == EachCalls(calls, groups[..n + 1])
  }

  /** The loop synchronises the groups in order.  When all succeed it
      yields their results in that order, after the calls of every group;
      otherwise it yields the error of the first that throws, after the
      calls of the groups up to that one and none for the rest. */
  lemma {:induction false} SyncAllMeaning(sync: GroupEmail -> Result<SyncResult, Error>, calls: GroupEmail -> seq<Call>, groups: seq<GroupEmail>)
    ensures var s := SyncAllOutcome(sync, groups);
      && (s.Success? ==>
            && |s.value| == |groups|
            && (forall i :: 0 <= i < |groups| ==> sync(groups[i]) == Success(s.value[i]))
            && SyncAllCalls(sync, calls, groups) == EachCalls(calls, groups))
      && (s.Failure? ==> exists n :: 0 <= n < |groups| && FirstFailure(sync, calls, groups, n, s.error))
  {
    if groups != [] {
      var init := groups[..|groups| - 1];
      SyncAllMeaning(sync, calls, init);
      var prev, s := SyncAllOutcome(sync, init), SyncAllOutcome(sync, groups);
      if prev.Failure? {
        var n :| 0 <= n < |init| && FirstFailure(sync, calls, init, n, prev.error);
        assert groups[..n + 1] == init[..n + 1];
        assert forall i :: 0 <= i <= n ==> groups[i] == init[i];
        assert FirstFailure(sync, calls, groups, n, s.error);
      } else if s.Failure? {
        assert groups[..|init| + 1] == groups;
        assert forall i :: 0 <= i < |init| ==> groups[i] == init[i];
        assert FirstFailure(sync, calls, groups, |init|, s.error);
      } else {
        assert forall i :: 0 <= i < |init| ==> groups[i] == init[i];
      }
    }
  }

  /** Once a prefix of the groups has failed, the later groups change
      neither the outcome nor the calls. */
  lemma {:induction false} FailureStops(sync: GroupEmail -> Result<SyncResult, Error>, calls: GroupEmail -> seq<Call>,
                                        groups: seq<GroupEmail>, n: nat)
    requires n <= |groups|
    requires SyncAllOutcome(sync, groups[..n]).Failure?
    ensures SyncAllOutcome(sync, groups) == SyncAllOutcome(sync, groups[..n])
    ensures SyncAllCalls(sync, calls, groups) == SyncAllCalls(sync, calls, groups[..n])
    decreases |groups|
  {
    if n < |groups| {
      var init := groups[..|groups| - 1];
      assert init[..n] == groups[..n];
      FailureStops(sync, calls, init, n);
    } else {
      assert groups[..n] == groups;
    }
  }

  /** `sync` and `calls` give, for every group of `byGroup`, what `syncGroup`
      returns and calls for its rows with the excluded set and time given. */
  ghost predicate SyncsGroups(sync: GroupEmail -> Result<SyncResult, Error>, calls: GroupEmail -> seq<Call>,
                              svc: Service, byGroup: map<GroupEmail, seq<SheetRow>>, excludedUsers: set<MemberEmail>, now: int)
  {
    forall g {:trigger SyncsGroup(sync, calls, svc, byGroup, excludedUsers, now, g)} ::
      g in byGroup ==> SyncsGroup(sync, calls, svc, byGroup, excludedUsers, now, g)
  }

  /** `sync` and `calls` give what `syncGroup` returns and calls for group
      `g` of `byGroup`. */
  ghost predicate SyncsGroup(sync: GroupEmail -> Result<SyncResult, Error>, calls: GroupEmail -> seq<Call>,
                             svc: Service, byGroup: map<GroupEmail, seq<SheetRow>>, excludedUsers: set<MemberEmail>, now: int, g: GroupEmail)
    requires g in byGroup
  {
    && sync(g) == SyncOutcome(svc, g, byGroup[g], excludedUsers, now)
    && calls(g) == SyncCalls(svc, g, byGroup[g], excludedUsers, now)
  }

  /** One `syncGroup` call of the loop, for group `g` and its rows. */
  method SyncOne(svc: Service, g: GroupEmail, byGroup: map<GroupEmail, seq<SheetRow>>,
                 excludedUsers: set<MemberEmail>, now: int,
                 ghost sync: GroupEmail -> Result<SyncResult, Error>, ghost calls: GroupEmail -> seq<Call>)
    returns (r: Result<SyncResult, Error>)
    requires g in byGroup && SyncsGroups(sync, calls, svc, byGroup, excludedUsers, now)
    modifies svc
    ensures r == sync(g)
    ensures svc.calls == old(svc.calls) + calls(g)
  {
    assert SyncsGroup(sync, calls, svc, byGroup, excludedUsers, now, g);
    r := SyncGroup(svc, g, byGroup[g], excludedUsers, now);
  }

  /** The `rowsByGroup.forEach` that calls `syncGroup` for every group with
      the same excluded set and current time, collecting the results; an
      exception ends the loop and propagates. */
  method SyncAll(svc: Service, groups: seq<GroupEmail>, byGroup: map<GroupEmail, seq<SheetRow>>,
                 excludedUsers: set<MemberEmail>, now: int,
                 ghost sync: GroupEmail -> Result<SyncResult, Error>, ghost calls: GroupEmail -> seq<Call>)
    returns (r: Result<seq<SyncResult>, Error>)
    requires forall g :: g in groups ==> g in byGroup
    requires SyncsGroups(sync, calls, svc, byGroup, excludedUsers, now)
    modifies svc
    ensures r == SyncAllOutcome(sync, groups)
    ensures svc.calls == old(svc.calls) + SyncAllCalls(sync, calls, groups)
  {
    var results: seq<SyncResult> := [];
    ghost var before := svc.calls;
    for i := 0 to |groups|
      invariant SyncAllOutcome(sync, groups[..i]) == Success(results)
      invariant svc.calls == before + SyncAllCalls(sync, calls, groups[..i])
    {
      var g := groups[i];
      SyncAllStep(sync, calls, groups, i);
      ghost var done := SyncAllCalls(sync, calls, groups[..i]);
      var result := SyncOne(svc, g, byGroup, excludedUsers, now, sync, calls);
      assert svc.calls == before + (done + calls(g));
      if result.Failure? {
        FailureStops(sync, calls, groups, i + 1);
        return Failure(result.error);
      }
      results := results + [result.value];
    }
    assert groups[..|groups|] == groups;
    return Success(results);
  }

  /** One more group of the loop, when the groups before it succeeded. */
  lemma SyncAllStep(sync: GroupEmail -> Result<SyncResult, Error>, calls: GroupEmail -> seq<Call>, groups: seq<GroupEmail>, i: nat)
    requires i < |groups| && SyncAllOutcome(sync, groups[..i]).Success?
    ensures SyncAllOutcome(sync, groups[..i + 1]) ==
      if sync(groups[i]).Failure? then Failure(sync(groups[i]).error)
      else Success(SyncAllOutcome(sync, groups[..i]).value + [sync(groups[i]).value])
    ensures SyncAllCalls(sync, calls, groups[..i + 1]) == SyncAllCalls(sync, calls, groups[..i]) + calls(groups[i])
  {
    assert groups[..i + 1][..i] == groups[..i];
  }

  /* ---------- One run ---------- */

  /** `syncResults.some(r => r.added.length > 0 || r.removed.length > 0)`. */
  predicate HasChanges(results: seq<SyncResult>) {
    exists i :: 0 <= i < |results| && (|results[i].added| > 0 || |results[i].removed| > 0)
  }

  /** What `syncGroup` returns or throws for each group of `rows`, with the
      group's own rows. */
  function GroupSync(svc: Service, rows: seq<SheetRow>, excludedUsers: set<MemberEmail>, now: int): GroupEmail -> Result<SyncResult, Error> {
    g => SyncOutcome(svc, g, RowsOf(rows, g), excludedUsers, now)
  }

  /** The calls `syncGroup` makes for each group of `rows`. */
  function GroupCalls(svc: Service, rows: seq<SheetRow>, excludedUsers: set<MemberEmail>, now: int): GroupEmail -> seq<Call> {
    g => SyncCalls(svc, g, RowsOf(rows, g), excludedUsers, now)
  }

  /** `GroupSync` and `GroupCalls` describe the loop over `GroupedRows`. */
  lemma GroupSyncMatches(svc: Service, rows: seq<SheetRow>, excludedUsers: set<MemberEmail>, now: int)
    ensures SyncsGroups(GroupSync(svc, rows, excludedUsers, now), GroupCalls(svc, rows, excludedUsers, now),
                        svc, GroupedRows(rows), excludedUsers, now)
  {
    var byGroup := GroupedRows(rows);
    forall g | g in byGroup
      ensures SyncsGroup(GroupSync(svc, rows, excludedUsers, now), GroupCalls(svc, rows, excludedUsers, now),
                         svc, byGroup, excludedUsers, now, g)
    {
      assert byGroup[g] == RowsOf(rows, g);
    }
  }

  /** The work done while the lock is held. */
  datatype Reconciliation = Reconciliation(
    outcome: Outcome<Error>,
    results: seq<SyncResult>,        // what `syncResults` holds at the end
    calls: seq<Call>,                // the Cloud Identity calls, in order
    cellWrites: seq<CellWrite>,      // the writes to the data sheet, in order
    lastOperation: Option<int>)      // the time written to the last-operation cell

  /** The part of `syncGroupsFromSheet` after the lock is held, at time
      `now`, for the loaded `rows`: stop if there are none, otherwise
      synchronise every group and, when that succeeds, write the names back
      and record the time if anything changed. */
  function Reconciled(rows: seq<SheetRow>, svc: Service, excludedUsers: set<MemberEmail>, now: int): Reconciliation {
    if rows == [] then Reconciliation(Pass, [], [], [], None)
    else
      var sync := GroupSync(svc, rows, excludedUsers, now);
      var s := SyncAllOutcome(sync, GroupOrder(rows));
      var calls := SyncAllCalls(sync, GroupCalls(svc, rows, excludedUsers, now), GroupOrder(rows));
      if s.Failure? then Reconciliation(Fail(s.error), [], calls, [], None)
      else
        Reconciliation(Pass, s.value, calls, NameWrites(rows, s.value) + ClearWrites(rows, s.value),
          if HasChanges(s.value) then Some(now) else None)
  }

  /** How a run of `syncGroupsFromSheet` ends and what it did. */
  datatype Run = Run(
    outcome: Outcome<Error>,
    end: int,                        // the time at the end
    timeouts: seq<int>,              // the timeout of each `tryLock`
    released: bool,                  // whether `release` ran
    results: seq<SyncResult>,
    calls: seq<Call>,
    cellWrites: seq<CellWrite>,
    lastOperation: Option<int>)

  /** A run that ends before the lock is held: nothing is synchronised or
      written and nothing is released. */
  function Refused(error: Error, end: int, timeouts: seq<int>): Run {
    Run(Fail(error), end, timeouts, false, [], [], [], None)
  }

  /** The objects a run may change besides the service. */
  function Sheets(cfg: Result<Config, Error>): set<object> {
    if cfg.Success? then {cfg.value.settingsSheet, cfg.value.dataSheet} else {}
  }

  function Locks(lock: Option<DocumentLock>): set<object> {
    if lock.Some? then {lock.value} else {}
  }

  /** What a run sees of the document lock: whether each attempt would be
      granted, and the number of the next attempt. */
  datatype LockView = LockView(grants: nat -> bool, attempt: nat)

  function View(lock: Option<DocumentLock>): (v: Option<LockView>)
    reads Locks(lock)
    ensures v.Some? <==> lock.Some?
    ensures lock.Some? ==> v.value == LockView(lock.value.grants, |lock.value.attempts|)
  {
    if lock.None? then None else Some(LockView(lock.value.grants, |lock.value.attempts|))
  }

  /** A run started at `now` with a flag that reads `flag(t)` at time `t`,
      the document lock `lock` and the data rows `rows`: wait for the flag,
      counting from `now`, then go on as `Attempted` when the wait ends. */
  function Waited(flag: int -> bool, lock: Option<LockView>, rows: seq<SheetRow>, svc: Service,
                  excludedUsers: set<MemberEmail>, now: int): Run
  {
    var w := WaitOutcome(flag, now, now, 0);
    if !w.released then Refused(SheetLockTimeout, w.end, [])
    else Attempted(lock, rows, svc, excludedUsers, now, w.end)
  }

  /** The run after the flag wait, at time `now`, of a run started at
      `start`: the lock attempts share the wait's budget, and the work under
      the lock starts when the lock is taken. */
  function Attempted(lock: Option<LockView>, rows: seq<SheetRow>, svc: Service,
                     excludedUsers: set<MemberEmail>, start: int, now: int): Run
  {
    if lock.None? then Refused(LockUnavailable, now, [])
    else
      var t := TryOutcome(lock.value.grants, lock.value.attempt, start, now, 0);
      if !t.acquired then Refused(LockTimeout, t.end, t.timeouts)
      else
        var rec := Reconciled(rows, svc, excludedUsers, t.end);
        Run(rec.outcome, t.end, t.timeouts, true, rec.results, rec.calls, rec.cellWrites, rec.lastOperation)
  }

  /** `syncGroupsFromSheet` started at time `now`: the configuration comes
      from `getConfig`, and the run goes on as `Configured` when there is
      one. */
  function Planned(spreadsheet: Option<Spreadsheet>, excludedProperty: Option<string>, lock: Option<DocumentLock>, svc: Service,
                   parse: string -> Option<int>, render: Renderer, now: int): Run
    reads Sheets(GetConfig(spreadsheet, excludedProperty)), Locks(lock)
  {
    var cfg := GetConfig(spreadsheet, excludedProperty);
    if cfg.Failure? then Refused(cfg.error, now, [])
    else Configured(cfg.value, lock, svc, parse, render, now)
  }

  /** The run with `config`, started at `now`, over the sheets and lock as
      they are. */
  function Configured(config: Config, lock: Option<DocumentLock>, svc: Service,
                      parse: string -> Option<int>, render: Renderer, now: int): Run
    reads config.settingsSheet, config.dataSheet, Locks(lock)
  {
    Waited(LockFlag(config), View(lock), LoadedRows(config.dataSheet, config.dataStartRow, parse, render), svc,
           config.excludedUsers, now)
  }

  /** The run with `config` after the flag wait, over the sheets and lock as
      they are. */
  function Locked(config: Config, lock: Option<DocumentLock>, svc: Service,
                  parse: string -> Option<int>, render: Renderer, start: int, now: int): Run
    reads config.dataSheet, Locks(lock)
  {
    Attempted(View(lock), LoadedRows(config.dataSheet, config.dataStartRow, parse, render), svc, config.excludedUsers, start, now)
  }

  /** The work under the lock: nothing happens without rows; when a group
      throws (its lookup found no group) the sheet is left alone and the
      calls end with that group's own lookup; otherwise every group has its
      result, in order, after the calls of all of them, and the time is
      recorded exactly when some group changed. */
  lemma ReconciledMeaning(rows: seq<SheetRow>, svc: Service, excludedUsers: set<MemberEmail>, now: int)
    ensures var rec := Reconciled(rows, svc, excludedUsers, now);
      var groups := GroupOrder(rows);
      var sync, calls := GroupSync(svc, rows, excludedUsers, now), GroupCalls(svc, rows, excludedUsers, now);
      && (rows == [] ==> rec == Reconciliation(Pass, [], [], [], None))
      && (rec.lastOperation.Some? <==> rec.outcome.Pass? && HasChanges(rec.results))
      && (rec.lastOperation.Some? ==> rec.lastOperation.value == now)
      && (rec.outcome.Fail? ==>
            && rec.results == [] && rec.cellWrites == []
            && exists n :: 0 <= n < |groups| && FirstFailure(sync, calls, groups, n, rec.outcome.error)
                 && rec.outcome.error == GroupNotFound(groups[n])
                 && calls(groups[n]) == [LookupGroupCall(groups[n])])
      && (rec.outcome.Pass? ==>
            && |rec.results| == |groups|
            && (forall i :: 0 <= i < |groups| ==> sync(groups[i]) == Success(rec.results[i]))
            && rec.calls == EachCalls(calls, groups)
            && rec.cellWrites == NameWrites(rows, rec.results) + ClearWrites(rows, rec.results))
  {
    var groups := GroupOrder(rows);
    var sync, calls := GroupSync(svc, rows, excludedUsers, now), GroupCalls(svc, rows, excludedUsers, now);
    SyncAllMeaning(sync, calls, groups);
    if rows == [] {
      assert groups == [];
    }
    var rec := Reconciled(rows, svc, excludedUsers, now);
    if rec.outcome.Fail? {
      var s := SyncAllOutcome(sync, groups);
      var n :| 0 <= n < |groups| && FirstFailure(sync, calls, groups, n, s.error);
      SyncFailsOnlyOnLookup(svc, groups[n], RowsOf(rows, groups[n]), excludedUsers, now);
    }
  }

  /** A run without a configuration fails at once and does nothing else. */
  lemma PlannedMeaning(spreadsheet: Option<Spreadsheet>, excludedProperty: Option<string>, lock: Option<DocumentLock>,
                       svc: Service, parse: string -> Option<int>, render: Renderer, now: int)
    ensures var cfg := GetConfig(spreadsheet, excludedProperty);
      var run := Planned(spreadsheet, excludedProperty, lock, svc, parse, render, now);
      && (cfg.Failure? ==> run == Refused(cfg.error, now, []))
      && (cfg.Success? ==> run == Configured(cfg.value, lock, svc, parse, render, now))
  {
  }

  /** A run takes the lock only after the flag wait returned, and releases
      it exactly when it took it: when some attempt was granted, the last
      one.  A run that does not take the lock fails and touches neither the
      directory nor the sheet.  Every timeout is positive and at most one
      back-off, and the whole run ends within the budget plus one back-off;
      once the lock is held, the run is the work under the lock at the time
      it was taken. */
  lemma {:induction false} WaitedMeaning(flag: int -> bool, lock: Option<LockView>, rows: seq<SheetRow>, svc: Service,
                                         excludedUsers: set<MemberEmail>, now: int)
    ensures var run := Waited(flag, lock, rows, svc, excludedUsers, now);
      && (run.released <==> lock.Some? && |run.timeouts| > 0 && lock.value.grants(lock.value.attempt + |run.timeouts| - 1))
      && (!run.released ==>
            run.outcome.Fail? && run.results == [] && run.calls == [] && run.cellWrites == [] && run.lastOperation.None?)
      && (forall i :: 0 <= i < |run.timeouts| ==> 0 < run.timeouts[i] <= MaxBackoffMs)
      && now <= run.end <= now + MaxLockWaitMs + MaxBackoffMs
      && (run.released ==>
            var rec := Reconciled(rows, svc, excludedUsers, run.end);
            && run.outcome == rec.outcome && run.results == rec.results && run.calls == rec.calls
            && run.cellWrites == rec.cellWrites && run.lastOperation == rec.lastOperation)
  {
    var w := WaitOutcome(flag, now, now, 0);
    WaitOutcomeMeaning(flag, now, now, 0);
    if w.released {
      AttemptedMeaning(lock, rows, svc, excludedUsers, now, w.end);
    }
  }

  /** The part of `WaitedMeaning` after a flag wait that returned at `now`,
      within the budget counted from `start`. */
  lemma AttemptedMeaning(lock: Option<LockView>, rows: seq<SheetRow>, svc: Service,
                         excludedUsers: set<MemberEmail>, start: int, now: int)
    requires start <= now && now - start < MaxLockWaitMs + MaxBackoffMs
    ensures var run := Attempted(lock, rows, svc, excludedUsers, start, now);
      && (run.released <==> lock.Some? && |run.timeouts| > 0 && lock.value.grants(lock.value.attempt + |run.timeouts| - 1))
      && (!run.released ==>
            run.outcome.Fail? && run.results == [] && run.calls == [] && run.cellWrites == [] && run.lastOperation.None?)
      && (forall i :: 0 <= i < |run.timeouts| ==> 0 < run.timeouts[i] <= MaxBackoffMs)
      && now <= run.end <= start + MaxLockWaitMs + MaxBackoffMs
      && (run.released ==>
            var rec := Reconciled(rows, svc, excludedUsers, run.end);
            && run.outcome == rec.outcome && run.results == rec.results && run.calls == rec.calls
            && run.cellWrites == rec.cellWrites && run.lastOperation == rec.lastOperation)
  {
    if lock.Some? {
      TryOutcomeMeaning(lock.value.grants, lock.value.attempt, start, now, 0);
    }
  }

  /** The flag wait and the lock attempts share one budget, counted from
      the start of the run: a wait that gives up does so on a set flag once
      the budget is spent, and then no lock is tried; a wait that returns
      saw the flag clear, and every later `tryLock` timeout fits in what
      is left of the budget; a run then refused the lock fails with
      `LockTimeout`, and only once the budget is spent. */
  lemma {:induction false} SharedBudget(flag: int -> bool, lock: Option<LockView>, rows: seq<SheetRow>, svc: Service,
                                        excludedUsers: set<MemberEmail>, now: int)
    ensures var w := WaitOutcome(flag, now, now, 0);
      var run := Waited(flag, lock, rows, svc, excludedUsers, now);
      && (!w.released ==>
            && run == Refused(SheetLockTimeout, w.end, [])
            && flag(w.end) && w.end - now >= MaxLockWaitMs)
      && (w.released ==>
            && !flag(w.end)
            && forall i :: 0 <= i < |run.timeouts| ==> run.timeouts[i] <= MaxLockWaitMs - (w.end - now))
      && (w.released && lock.Some? && !run.released ==>
            run.outcome == Fail(LockTimeout) && run.end - now >= MaxLockWaitMs)
  {
    var w := WaitOutcome(flag, now, now, 0);
    WaitOutcomeMeaning(flag, now, now, 0);
    if w.released && lock.Some? {
      TryOutcomeMeaning(lock.value.grants, lock.value.attempt, now, w.end, 0);
    }
  }

  /** The settings written after a run that records `lastOperation`. */
  function Stamped(written: map<string, CellValue>, address: string, lastOperation: Option<int>): (w: map<string, CellValue>)
    ensures lastOperation.None? ==> w == written
    ensures lastOperation.Some? ==> address in w && w[address] == DateObject(TimeClip(lastOperation.value as real))
    ensures forall a :: a != address ==> (a in w <==> a in written) && (a in written ==> w[a] == written[a])
  {
    if lastOperation.Some? then written[address := DateObject(TimeClip(lastOperation.value as real))] else written
  }

  /** The body of the `try` once the lock is held: load, then synchronise
      and write back. */
  method Reconcile(config: Config, svc: Service, parse: string -> Option<int>, render: Renderer, now: int)
    returns (r: Outcome<Error>)
    modifies svc, config.dataSheet, config.settingsSheet
    ensures var rec := Reconciled(old(LoadedRows(config.dataSheet, config.dataStartRow, parse, render)), svc, config.excludedUsers, now);
      && r == rec.outcome
      && svc.calls == old(svc.calls) + rec.calls
      && config.dataSheet.cells == Apply(old(config.dataSheet.cells), rec.cellWrites)
      && config.settingsSheet.written == Stamped(old(config.settingsSheet.written), config.lastOperationCellAddress, rec.lastOperation)
  {
    var allRows := LoadSheetData(config, parse, render);
    r := SyncRows(config, svc, allRows, now);
  }

  /** The loaded `rows` at time `now`: nothing when there are none,
      otherwise group, synchronise every group and, when all succeed, write
      back. */
  method SyncRows(config: Config, svc: Service, rows: seq<SheetRow>, now: int) returns (r: Outcome<Error>)
    modifies svc, config.dataSheet, config.settingsSheet
    ensures var rec := Reconciled(rows, svc, config.excludedUsers, now);
      && r == rec.outcome
      && svc.calls == old(svc.calls) + rec.calls
      && config.dataSheet.cells == Apply(old(config.dataSheet.cells), rec.cellWrites)
      && config.settingsSheet.written == Stamped(old(config.settingsSheet.written), config.lastOperationCellAddress, rec.lastOperation)
  {
    if |rows| == 0 {
      return Pass;
    }
    r := SyncGroups(config, svc, rows, now);
  }

  /** Group the rows, synchronise every group and, when all succeed, write
      back. */
  method SyncGroups(config: Config, svc: Service, rows: seq<SheetRow>, now: int) returns (r: Outcome<Error>)
    requires rows != []
    modifies svc, config.dataSheet, config.settingsSheet
    ensures var rec := Reconciled(rows, svc, config.excludedUsers, now);
      && r == rec.outcome
      && svc.calls == old(svc.calls) + rec.calls
      && config.dataSheet.cells == Apply(old(config.dataSheet.cells), rec.cellWrites)
      && config.settingsSheet.written == Stamped(old(config.settingsSheet.written), config.lastOperationCellAddress, rec.lastOperation)
  {
    var groups, rowsByGroup := GroupRows(rows);
    GroupSyncMatches(svc, rows, config.excludedUsers, now);
    ghost var sync, calls := GroupSync(svc, rows, config.excludedUsers, now), GroupCalls(svc, rows, config.excludedUsers, now);
    var syncResults := SyncAll(svc, groups, rowsByGroup, config.excludedUsers, now, sync, calls);
    ghost var rec := Reconciled(rows, svc, config.excludedUsers, now);
    assert rec.calls == SyncAllCalls(sync, calls, groups);
    if syncResults.Failure? {
      assert rec == Reconciliation(Fail(syncResults.error), [], rec.calls, [], None);
      return Fail(syncResults.error);
    }
    assert rec.cellWrites == NameWrites(rows, syncResults.value) + ClearWrites(rows, syncResults.value);
    assert rec.lastOperation == if HasChanges(syncResults.value) then Some(now) else None;
    WriteBack(config, rows, syncResults.value, now);
    return Pass;
  }

  /** The write-back after every group succeeded: the names of the added
      members, the cleared names of the removed ones, then the time of the
      run if anything changed. */
  method WriteBack(config: Config, rows: seq<SheetRow>, results: seq<SyncResult>, now: int)
    modifies config.dataSheet, config.settingsSheet
    ensures config.dataSheet.cells == Apply(old(config.dataSheet.cells), NameWrites(rows, results) + ClearWrites(rows, results))
    ensures config.settingsSheet.written ==
      Stamped(old(config.settingsSheet.written), config.lastOperationCellAddress, if HasChanges(results) then Some(now) else None)
  {
    ghost var cells := config.dataSheet.cells;
    WriteMembershipNames(config, rows, results);
    ClearRemovedMembershipNames(config, rows, results);
    ApplyConcat(cells, NameWrites(rows, results), ClearWrites(rows, results));
    var hasChanges := HasChanges(results);
    if hasChanges {
      WriteLastOperationTime(config, now);
    }
  }

  /** `syncGroupsFromSheet`, started at time `now` (`startTime`): the
      configuration comes from the active spreadsheet and the excluded-users
      property, the lock from `LockService`, the directory from `svc`.  An
      exception before the lock is held propagates with nothing to release;
      once it is held, `release` runs whatever happens and the outcome of
      the work, error included, is passed on unchanged. */
  method SyncGroupsFromSheet(spreadsheet: Option<Spreadsheet>, excludedProperty: Option<string>,
                             lock: Option<DocumentLock>, svc: Service,
                             parse: string -> Option<int>, render: Renderer, now: int)
    returns (r: Outcome<Error>, later: int)
    modifies svc, Locks(lock), Sheets(GetConfig(spreadsheet, excludedProperty))
    ensures var cfg := GetConfig(spreadsheet, excludedProperty);
      var run := old(Planned(spreadsheet, excludedProperty, lock, svc, parse, render, now));
      && r == run.outcome
      && later == run.end
      && svc.calls == old(svc.calls) + run.calls
      && (cfg.Success? ==>
            && cfg.value.dataSheet.cells == Apply(old(cfg.value.dataSheet.cells), run.cellWrites)
            && cfg.value.settingsSheet.written ==
                 Stamped(old(cfg.value.settingsSheet.written), cfg.value.lastOperationCellAddress, run.lastOperation))
    ensures lock.Some? ==>
      var run := old(Planned(spreadsheet, excludedProperty, lock, svc, parse, render, now));
      && lock.value.attempts == old(lock.value.attempts) + run.timeouts
      && lock.value.releases == old(lock.value.releases) + (if run.released then 1 else 0)
      && lock.value.held == (if run.released then false else old(lock.value.held))
  {
    var startTime := now;
    var cfg := GetConfig(spreadsheet, excludedProperty);
    if cfg.Failure? {
      return Fail(cfg.error), now;
    }
    r, later := RunConfigured(cfg.value, lock, svc, parse, render, startTime);
  }

  /** The run once `config` is known: the flag wait, then `RunLocked`. */
  method RunConfigured(config: Config, lock: Option<DocumentLock>, svc: Service,
                       parse: string -> Option<int>, render: Renderer, now: int)
    returns (r: Outcome<Error>, later: int)
    modifies svc, Locks(lock), config.dataSheet, config.settingsSheet
    ensures var run := old(Configured(config, lock, svc, parse, render, now));
      && r == run.outcome
      && later == run.end
      && svc.calls == old(svc.calls) + run.calls
      && config.dataSheet.cells == Apply(old(config.dataSheet.cells), run.cellWrites)
      && config.settingsSheet.written ==
           Stamped(old(config.settingsSheet.written), config.lastOperationCellAddress, run.lastOperation)
    ensures lock.Some? ==>
      var run := old(Configured(config, lock, svc, parse, render, now));
      && lock.value.attempts == old(lock.value.attempts) + run.timeouts
      && lock.value.releases == old(lock.value.releases) + (if run.released then 1 else 0)
      && lock.value.held == (if run.released then false else old(lock.value.held))
  {
    var waited;
    waited, later := WaitForSheetLock(config, now, now, LockFlag(config));
    if waited.Fail? {
      return waited, later;
    }
    r, later := RunLocked(config, lock, svc, parse, render, now, later);
  }

  /** The run after the flag wait, at time `now`, of a run started at
      `start`: take the lock, reconcile, and release the lock once held. */
  method RunLocked(config: Config, lock: Option<DocumentLock>, svc: Service,
                   parse: string -> Option<int>, render: Renderer, start: int, now: int)
    returns (r: Outcome<Error>, later: int)
    modifies svc, Locks(lock), config.dataSheet, config.settingsSheet
    ensures var run := old(Locked(config, lock, svc, parse, render, start, now));
      && r == run.outcome
      && later == run.end
      && svc.calls == old(svc.calls) + run.calls
      && config.dataSheet.cells == Apply(old(config.dataSheet.cells), run.cellWrites)
      && config.settingsSheet.written ==
           Stamped(old(config.settingsSheet.written), config.lastOperationCellAddress, run.lastOperation)
    ensures lock.Some? ==>
      var run := old(Locked(config, lock, svc, parse, render, start, now));
      && lock.value.attempts == old(lock.value.attempts) + run.timeouts
      && lock.value.releases == old(lock.value.releases) + (if run.released then 1 else 0)
      && lock.value.held == (if run.released then false else old(lock.value.held))
  {
    var acquired;
    acquired, later := AcquireLockWithRetry(lock, start, now);
    if acquired.Failure? {
      return Fail(acquired.error), later;
    }
    r := ReconcileHeld(config, acquired.value, svc, parse, render, later);
  }

  /** The `try` with its `finally`, once the lock is held at time `now`:
      reconcile, then release the lock whatever the outcome. */
  method ReconcileHeld(config: Config, handle: LockHandle, svc: Service,
                       parse: string -> Option<int>, render: Renderer, now: int)
    returns (r: Outcome<Error>)
    modifies svc, handle.lock, config.dataSheet, config.settingsSheet
    ensures var rec := Reconciled(old(LoadedRows(config.dataSheet, config.dataStartRow, parse, render)), svc, config.excludedUsers, now);
      && r == rec.outcome
      && svc.calls == old(svc.calls) + rec.calls
      && config.dataSheet.cells == Apply(old(config.dataSheet.cells), rec.cellWrites)
      && config.settingsSheet.written == Stamped(old(config.settingsSheet.written), config.lastOperationCellAddress, rec.lastOperation)
    ensures !handle.lock.held
    ensures handle.lock.releases == old(handle.lock.releases) + (if old(handle.lock.held) then 1 else 0)
    ensures handle.lock.attempts == old(handle.lock.attempts)
  {
    r := Reconcile(config, svc, parse, render, now);
    handle.Release();
  }
}
