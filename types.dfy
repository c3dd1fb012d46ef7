/** Data shapes and constants of the group synchroniser. */
module Types {
  import opened Wrappers
  import opened Cells

  /** Resource name of a group, `groups/{group_id}`. */
  type GroupName = string
  /** Resource name of a membership, `groups/{group_id}/memberships/{id}`. */
  type MembershipName = string
  type MemberEmail = string
  type GroupEmail = string

  /** One valid roster row of the data sheet. */
  datatype SheetRow = SheetRow(
    rowIndex: int,                         // 1-based sheet row the row was read from
    groupEmail: GroupEmail,
    memberEmail: MemberEmail,
    startTime: TimeValue,
    endTime: TimeValue,
    membershipName: Option<MembershipName>)

  /** A membership as the directory reports it. */
  datatype MembershipInfo = MembershipInfo(name: MembershipName, email: MemberEmail)

  /** What one group's synchronisation actually changed. */
  datatype SyncResult = SyncResult(
    groupEmail: GroupEmail,
    added: seq<MemberEmail>,
    removed: seq<MemberEmail>,
    addedMembershipNames: map<MemberEmail, MembershipName>)

  /** The errors the synchroniser throws. */
  datatype Error =
    | NoActiveSpreadsheet
    | MissingSheets(names: seq<string>)
    | SheetLockTimeout
    | LockUnavailable
    | LockTimeout
    | GroupNotFound(groupEmail: GroupEmail)

  const SettingsSheetName: string := "システム設定"
  const DataSheetName: string := "同期リスト"

  const LockCellAddress: string := "B1"
  const LastOperationCellAddress: string := "B2"
  /** Row 1 holds the headers; data starts on row 2. */
  const DataStartRow: int := 2

  /** 0-based columns of the data sheet (A to E). */
  const GroupEmailColumn: nat := 0
  const MemberEmailColumn: nat := 1
  const StartTimeColumn: nat := 2
  const EndTimeColumn: nat := 3
  const MembershipNameColumn: nat := 4
  /** Number of columns `loadSheetData` reads. */
  const ColumnCount: nat := 5

  const ExcludedUsersKey: string := "EXCLUDED_USERS"

  /** Three minutes: the budget the sheet-flag wait and the lock retries share. */
  const MaxLockWaitMs: int := 3 * 60 * 1000
  const InitialBackoffMs: int := 1000
  const MaxBackoffMs: int := 30000

  /** The constants agree with one another: the columns are the distinct
      indices below `ColumnCount`, and the back-off range is well formed. */
  lemma ConstantsAgree()
    ensures MaxLockWaitMs == 180000
    ensures 0 < InitialBackoffMs <= MaxBackoffMs < MaxLockWaitMs
    ensures [GroupEmailColumn, MemberEmailColumn, StartTimeColumn, EndTimeColumn, MembershipNameColumn]
            == [0, 1, 2, 3, 4]
    ensures MembershipNameColumn + 1 == ColumnCount
    ensures SettingsSheetName != DataSheetName
  {
  }
}
