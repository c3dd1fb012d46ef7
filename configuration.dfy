/** Loading the synchroniser's configuration: the excluded-user list from the
    script properties and the two sheets of the active spreadsheet. */
module Configuration {
  import opened Wrappers
  import opened Seqs
  import opened JsString
  import opened Types
  import opened Gas

  datatype Config = Config(
    excludedUsers: set<MemberEmail>,
    settingsSheet: SettingsSheet,
    dataSheet: DataSheet,
    lockCellAddress: string,
    lastOperationCellAddress: string,
    dataStartRow: int)

  /** The trimmed, non-empty comma-separated entries of `s`, in order: each
      is the trimmed text of one of the pieces. */
  function Entries(pieces: seq<string>): (r: seq<string>)
    ensures forall k :: 0 <= k < |r| ==> r[k] != "" && IsTrimmed(r[k])
    ensures forall k :: 0 <= k < |r| ==> exists i :: 0 <= i < |pieces| && r[k] == Trim(pieces[i])
  {
    if pieces == [] then []
    else
      var init, last := pieces[..|pieces| - 1], pieces[|pieces| - 1];
      var t := Trim(last);
      assert forall i :: 0 <= i < |init| ==> init[i] == pieces[i];
      Entries(init) + (if t != "" then [t] else [])
  }

  /** `getExcludedUsers`: the users the synchroniser never adds or removes,
      given the `EXCLUDED_USERS` script property (`None` when it is unset). */
  function ExcludedUsers(property: Option<string>): (r: set<MemberEmail>)
    ensures property.None? || property == Some("") ==> r == {}
    ensures forall e :: e in r ==> e != "" && IsTrimmed(e) && ',' !in e
    ensures property.Some? ==> forall e :: e in r ==> exists p :: p in Split(property.value, ',') && Trim(p) == e
  {
    if property.None? || property.value == "" then {}
    else
      var pieces := Split(property.value, ',');
      EntriesAvoid(pieces, ',');
      Elements(Entries(pieces))
  }

  /** Every piece that is not blank once trimmed contributes its trimmed
      text. */
  lemma {:induction false} EntriesComplete(pieces: seq<string>, i: nat)
    requires i < |pieces| && Trim(pieces[i]) != ""
    ensures Trim(pieces[i]) in Entries(pieces)
  {
    var init := pieces[..|pieces| - 1];
    EntriesSnoc(init, pieces[|pieces| - 1]);
    assert init + [pieces[|pieces| - 1]] == pieces;
    if i < |init| {
      assert init[i] == pieces[i];
      EntriesComplete(init, i);
    }
  }

  /** Every entry of the property that is not blank once trimmed is an
      excluded user. */
  lemma ExcludedUsersComplete(s: string, p: string)
    requires s != "" && p in Split(s, ',') && Trim(p) != ""
    ensures Trim(p) in ExcludedUsers(Some(s))
  {
    var pieces := Split(s, ',');
    var i :| 0 <= i < |pieces| && pieces[i] == p;
    EntriesComplete(pieces, i);
  }

  /** A character absent from `s` is absent from `Trim(s)`. */
  lemma TrimmedInfix(s: string, c: char)
    requires c !in s
    ensures c !in Trim(s)
  {
    var n := LeadingWhitespace(s);
    assert Trim(s) == s[n..n + |Trim(s)|];
    assert forall k :: 0 <= k < |Trim(s)| ==> Trim(s)[k] == s[n + k];
  }

  /** Entries of pieces that avoid a character avoid it too. */
  lemma {:induction false} EntriesAvoid(pieces: seq<string>, c: char)
    requires forall p :: p in pieces ==> c !in p
    ensures forall e :: e in Entries(pieces) ==> c !in e
  {
    if pieces != [] {
      var init, last := pieces[..|pieces| - 1], pieces[|pieces| - 1];
      assert forall p :: p in init ==> p in pieces;
      EntriesAvoid(init, c);
      assert last in pieces;
      TrimmedInfix(last, c);
    }
  }

  /** A value without a comma names a single user. */
  lemma {:induction false} SingleExcludedUser(s: string)
    requires ',' !in s && Trim(s) != ""
    ensures ExcludedUsers(Some(s)) == {Trim(s)}
  {
    SplitWithoutSeparator(s, ',');
    assert Entries([s]) == [Trim(s)] by {
      assert [s][..0] == [];
    }
  }

  /** Writing a list of clean addresses as a comma-separated property and
      parsing it back gives the same set of users. */
  lemma {:induction false} ExcludedUsersOfJoin(emails: seq<MemberEmail>)
    requires |emails| >= 1
    requires forall e :: e in emails ==> e != "" && IsTrimmed(e) && ',' !in e
    ensures ExcludedUsers(Some(Join(emails, ','))) == Elements(emails)
  {
    var joined := Join(emails, ',');
    assert Split(joined, ',') == emails by {
      SplitJoin(emails, ',');
    }
    assert joined != "" by {
      assert emails[0] in emails;
      JoinNonEmpty(emails, ',');
    }
    assert Entries(emails) == emails by {
      assert forall i :: 0 <= i < |emails| ==> emails[i] in emails;
      EntriesOfClean(emails);
    }
    ParsedProperty(joined);
  }

  /** A non-empty property is parsed into the entries of its pieces. */
  lemma ParsedProperty(s: string)
    requires s != ""
    ensures ExcludedUsers(Some(s)) == Elements(Entries(Split(s, ',')))
  {
  }

  lemma {:induction false} JoinNonEmpty(parts: seq<string>, sep: char)
    requires |parts| >= 1 && parts[0] != ""
    ensures Join(parts, sep) != ""
  {
    if |parts| > 1 {
      JoinNonEmpty(parts[..|parts| - 1], sep);
    }
  }

  lemma EntriesSnoc(init: seq<string>, last: string)
    ensures Entries(init + [last]) == Entries(init) + (if Trim(last) != "" then [Trim(last)] else [])
  {
    assert (init + [last])[..|init|] == init;
  }

  /** Entries of addresses that are already clean are those addresses. */
  lemma {:induction false} EntriesOfClean(emails: seq<MemberEmail>)
    requires forall i :: 0 <= i < |emails| ==> emails[i] != "" && IsTrimmed(emails[i])
    ensures Entries(emails) == emails
  {
    if emails != [] {
      var n := |emails|;
      var init, last := emails[..n - 1], emails[n - 1];
      assert forall i :: 0 <= i < |init| ==> init[i] == emails[i];
      EntriesOfClean(init);
      TrimOfTrimmed(last);
      EntriesSnoc(init, last);
      InitLast(emails);
    }
  }

  /** The sheets among the two required ones that the spreadsheet lacks, in
      the order the error message lists them. */
  function MissingSheetNames(spreadsheet: Spreadsheet): (names: seq<string>)
    ensures SettingsSheetName in names <==> spreadsheet.settingsSheet.None?
    ensures DataSheetName in names <==> spreadsheet.dataSheet.None?
    ensures NoDup(names)
  {
    (if spreadsheet.settingsSheet.None? then [SettingsSheetName] else [])
    + (if spreadsheet.dataSheet.None? then [DataSheetName] else [])
  }

  /** `getConfig`: fails without an active spreadsheet or when a required
      sheet is missing, naming exactly the missing ones; otherwise the
      default cell addresses and data start row. */
  function GetConfig(spreadsheet: Option<Spreadsheet>, excludedProperty: Option<string>): (r: Result<Config, Error>)
    ensures spreadsheet.None? ==> r == Failure(NoActiveSpreadsheet)
    ensures spreadsheet.Some? ==>
      (r.Failure? <==> spreadsheet.value.settingsSheet.None? || spreadsheet.value.dataSheet.None?)
    ensures spreadsheet.Some? && r.Failure? ==>
      r.error.MissingSheets? && r.error.names != [] &&
      (forall n :: n in r.error.names <==>
        (n == SettingsSheetName && spreadsheet.value.settingsSheet.None?) ||
        (n == DataSheetName && spreadsheet.value.dataSheet.None?))
    ensures r.Success? ==>
      && spreadsheet.Some?
      && Some(r.value.settingsSheet) == spreadsheet.value.settingsSheet
      && Some(r.value.dataSheet) == spreadsheet.value.dataSheet
      && r.value.lockCellAddress == "B1"
      && r.value.lastOperationCellAddress == "B2"
      && r.value.dataStartRow == 2
      && r.value.excludedUsers == ExcludedUsers(excludedProperty)
  {
    if spreadsheet.None? then Failure(NoActiveSpreadsheet)
    else
      var ss := spreadsheet.value;
      if ss.settingsSheet.None? || ss.dataSheet.None? then
        Failure(MissingSheets(MissingSheetNames(ss)))
      else
        Success(Config(
          ExcludedUsers(excludedProperty),
          ss.settingsSheet.value,
          ss.dataSheet.value,
          LockCellAddress,
          LastOperationCellAddress,
          DataStartRow))
  }
}
