/** Declarative reconciliation of one group: the members the roster wants
    now, the members the group has, the difference between the two, and the
    API calls that apply it. */
module SyncLogic {
  import opened Wrappers
  import opened Seqs
  import opened Types
  import opened CloudIdentity
  import opened GroupsApi

  /** The row wants its member in the group at time `now`: the member is not
      excluded and `now` lies within the row's period, both ends included. */
  predicate Active(row: SheetRow, now: int, excludedUsers: set<MemberEmail>) {
    row.memberEmail !in excludedUsers && row.startTime <= now <= row.endTime
  }

  /** The members of the active rows, in row order, repeats kept. */
  function ActiveEmails(rows: seq<SheetRow>, now: int, excludedUsers: set<MemberEmail>): (r: seq<MemberEmail>)
    ensures |r| <= |rows|
  {
    if rows == [] then []
    else
      var rest, row := ActiveEmails(rows[..|rows| - 1], now, excludedUsers), rows[|rows| - 1];
      if Active(row, now, excludedUsers) then rest + [row.memberEmail] else rest
  }

  lemma {:induction false} ActiveEmailsExactly(rows: seq<SheetRow>, now: int, excludedUsers: set<MemberEmail>)
    ensures forall e :: e in ActiveEmails(rows, now, excludedUsers) <==>
      exists i :: 0 <= i < |rows| && Active(rows[i], now, excludedUsers) && rows[i].memberEmail == e
  {
    if rows != [] {
      var init := rows[..|rows| - 1];
      ActiveEmailsExactly(init, now, excludedUsers);
      assert forall i :: 0 <= i < |init| ==> init[i] == rows[i];
    }
  }

  /** `calculateDesiredState`: the set of members that some row of the group
      wants now, none of them excluded, in order of first appearance. */
  function DesiredState(rows: seq<SheetRow>, now: int, excludedUsers: set<MemberEmail>): (r: seq<MemberEmail>)
    ensures NoDup(r)
    ensures forall e :: e in r <==>
      exists i :: 0 <= i < |rows| && Active(rows[i], now, excludedUsers) && rows[i].memberEmail == e
    ensures forall e :: e in r ==> e !in excludedUsers
  {
    ActiveEmailsExactly(rows, now, excludedUsers);
    Dedup(ActiveEmails(rows, now, excludedUsers))
  }

  /** The set of current members the synchroniser may touch: the listed
      addresses that are not excluded, in listing order. */
  function CurrentEmails(members: seq<MembershipInfo>, excludedUsers: set<MemberEmail>): (r: seq<MemberEmail>)
    ensures NoDup(r)
    ensures forall e :: e in r <==> e !in excludedUsers && exists i :: 0 <= i < |members| && members[i].email == e
  {
    var emails := Map(members, (m: MembershipInfo) => m.email);
    assert forall e :: e in emails <==> exists i :: 0 <= i < |members| && members[i].email == e by {
      forall e | e in emails
        ensures exists i :: 0 <= i < |members| && members[i].email == e
      {
        var i :| 0 <= i < |emails| && emails[i] == e;
        assert members[i].email == e;
      }
    }
    Dedup(Filter(emails, e => e !in excludedUsers))
  }

  datatype Diff = Diff(toAdd: seq<MemberEmail>, toRemove: seq<MemberEmail>)

  /** `calculateDiff`: the wanted members the group lacks, in the order of
      `desired`, and the members the group has but should not, in the order
      of `actual`. */
  function CalculateDiff(desired: seq<MemberEmail>, actual: seq<MemberEmail>): (d: Diff)
    ensures forall e :: e in d.toAdd <==> e in desired && e !in actual
    ensures forall e :: e in d.toRemove <==> e in actual && e !in desired
    ensures Subseq(d.toAdd, desired) && Subseq(d.toRemove, actual)
    ensures NoDup(desired) ==> NoDup(d.toAdd)
    ensures NoDup(actual) ==> NoDup(d.toRemove)
  {
    Diff(Filter(desired, e => e !in actual), Filter(actual, e => e !in desired))
  }

  /** Applying a diff makes the group's members exactly the wanted ones: no
      address is both added and removed, and what is kept plus what is added
      is the desired set. */
  lemma DiffReconciles(desired: seq<MemberEmail>, actual: seq<MemberEmail>)
    ensures var d := CalculateDiff(desired, actual);
      && (forall e :: !(e in d.toAdd && e in d.toRemove))
      && (forall e :: (e in actual && e !in d.toRemove) || e in d.toAdd <==> e in desired)
  {
  }

  /** When the group already has exactly the wanted members there is nothing
      to do; in particular a second synchronisation after a successful one
      changes nothing. */
  lemma DiffOfSameMembers(desired: seq<MemberEmail>, actual: seq<MemberEmail>)
    requires forall e :: e in desired <==> e in actual
    ensures CalculateDiff(desired, actual) == Diff([], [])
  {
    FilterNone(desired, e => e !in actual);
    FilterNone(actual, e => e !in desired);
  }

  /** The memberships `addMember` creates for `emails`, in order. */
  function Added(svc: Service, groupName: GroupName, emails: seq<MemberEmail>): (infos: seq<MembershipInfo>)
    ensures |infos| <= |emails|
  {
    if emails == [] then []
    else
      var rest, e := Added(svc, groupName, emails[..|emails| - 1]), emails[|emails| - 1];
      var info := AddOutcome(svc.create(groupName, e), e);
      if info.Some? then rest + [info.value] else rest
  }

  /** The addresses of `infos`, in order. */
  function EmailsOf(infos: seq<MembershipInfo>): (r: seq<MemberEmail>)
    ensures |r| == |infos|
  {
    if infos == [] then [] else EmailsOf(infos[..|infos| - 1]) + [infos[|infos| - 1].email]
  }

  /** `new Map(infos.map(info => [info.email, info.name]))`: a later entry
      for the same address wins. */
  function NamesOf(infos: seq<MembershipInfo>): (r: map<MemberEmail, MembershipName>)
  {
    if infos == [] then map[]
    else
      var last := infos[|infos| - 1];
      NamesOf(infos[..|infos| - 1])[last.email := last.name]
  }

  /** An address is reported added exactly when it was to be added and its
      `create` returned a response; the names map has an entry for exactly
      those addresses, holding the name `create` returned. */
  lemma {:induction false} AddedExactly(svc: Service, groupName: GroupName, emails: seq<MemberEmail>)
    ensures var infos := Added(svc, groupName, emails);
      && Subseq(EmailsOf(infos), emails)
      && (forall e :: e in EmailsOf(infos) <==> e in emails && AddOutcome(svc.create(groupName, e), e).Some?)
      && (forall e :: e in NamesOf(infos) <==> e in EmailsOf(infos))
      && (forall e :: e in NamesOf(infos) ==> NamesOf(infos)[e] == svc.create(groupName, e).value.value)
  {
    if emails != [] {
      var init, e := emails[..|emails| - 1], emails[|emails| - 1];
      AddedExactly(svc, groupName, init);
      var rest := Added(svc, groupName, init);
      var info := AddOutcome(svc.create(groupName, e), e);
      assert emails == init + [e];
      if info.Some? {
        var infos := rest + [info.value];
        assert infos[..|infos| - 1] == rest;
        assert EmailsOf(infos) == EmailsOf(rest) + [e];
        SubseqBothSnoc(EmailsOf(rest), init, e);
      } else {
        SubseqSnoc(EmailsOf(rest), init, e);
      }
    }
  }

  /** One `create` call per address, in order. */
  function AddCalls(groupName: GroupName, emails: seq<MemberEmail>): (r: seq<Call>)
    ensures |r| == |emails|
    ensures forall i :: 0 <= i < |emails| ==> r[i] == CreateCall(groupName, emails[i])
  {
    seq(|emails|, i requires 0 <= i < |emails| => CreateCall(groupName, emails[i]))
  }

  /** The addresses `removeMember` reports removed, in order. */
  function Removed(svc: Service, groupName: GroupName, emails: seq<MemberEmail>): (r: seq<MemberEmail>)
    ensures forall e :: e in r <==> e in emails && RemoveOutcome(svc, groupName, e)
    ensures Subseq(r, emails)
  {
    Filter(emails, e => RemoveOutcome(svc, groupName, e))
  }

  /** The calls of `removeMember` for each address in turn. */
  function RemovalCalls(svc: Service, groupName: GroupName, emails: seq<MemberEmail>): seq<Call> {
    if emails == [] then []
    else RemovalCalls(svc, groupName, emails[..|emails| - 1]) + RemoveCalls(svc, groupName, emails[|emails| - 1])
  }

  /** The group's resource name, its current members and the diff that
      `syncGroup` computes once the lookup has succeeded. */
  function PlannedDiff(svc: Service, groupName: GroupName, rows: seq<SheetRow>, excludedUsers: set<MemberEmail>, now: int): Diff {
    var current := CurrentEmails(ListOutcome(svc.listing(groupName)), excludedUsers);
    CalculateDiff(DesiredState(rows, now, excludedUsers), current)
  }

  /** What `syncGroup` returns, or the error it throws. */
  function SyncOutcome(svc: Service, groupEmail: GroupEmail, rows: seq<SheetRow>, excludedUsers: set<MemberEmail>, now: int): Result<SyncResult, Error> {
    var name := NameOf(svc.groupLookup(groupEmail));
    if name.None? then Failure(GroupNotFound(groupEmail))
    else
      var d := PlannedDiff(svc, name.value, rows, excludedUsers, now);
      var infos := Added(svc, name.value, d.toAdd);
      Success(SyncResult(groupEmail, EmailsOf(infos), Removed(svc, name.value, d.toRemove), NamesOf(infos)))
  }

  /** The service calls `syncGroup` makes, in order. */
  function SyncCalls(svc: Service, groupEmail: GroupEmail, rows: seq<SheetRow>, excludedUsers: set<MemberEmail>, now: int): seq<Call> {
    var name := NameOf(svc.groupLookup(groupEmail));
    [LookupGroupCall(groupEmail)] +
    if name.None? then []
    else
      var g := name.value;
      var d := PlannedDiff(svc, g, rows, excludedUsers, now);
      ListCalls(g, Fetched(svc.listing(g))) + AddCalls(g, d.toAdd) + RemovalCalls(svc, g, d.toRemove)
  }

  /** `toAdd.map(email => addMember(groupName, email))`, keeping the
      memberships that were created. */
  method AddAll(svc: Service, groupName: GroupName, emails: seq<MemberEmail>) returns (infos: seq<MembershipInfo>)
    modifies svc
    ensures infos == Added(svc, groupName, emails)
    ensures svc.calls == old(svc.calls) + AddCalls(groupName, emails)
  {
    infos := [];
    var i := 0;
    while i < |emails|
      invariant 0 <= i <= |emails|
      invariant infos == Added(svc, groupName, emails[..i])
      invariant svc.calls == old(svc.calls) + AddCalls(groupName, emails[..i])
    {
      var info := AddMember(svc, groupName, emails[i]);
      assert emails[..i + 1][..i] == emails[..i];
      if info.Some? {
        infos := infos + [info.value];
      }
      assert AddCalls(groupName, emails[..i + 1]) == AddCalls(groupName, emails[..i]) + [CreateCall(groupName, emails[i])];
      i := i + 1;
    }
    assert emails[..i] == emails;
  }

  /** `toRemove.filter(email => removeMember(groupName, email))`. */
  method RemoveAll(svc: Service, groupName: GroupName, emails: seq<MemberEmail>) returns (removed: seq<MemberEmail>)
    modifies svc
    ensures removed == Removed(svc, groupName, emails)
    ensures svc.calls == old(svc.calls) + RemovalCalls(svc, groupName, emails)
  {
    removed := [];
    var j := 0;
    while j < |emails|
      invariant 0 <= j <= |emails|
      invariant removed == Removed(svc, groupName, emails[..j])
      invariant svc.calls == old(svc.calls) + RemovalCalls(svc, groupName, emails[..j])
    {
      var ok := RemoveMember(svc, groupName, emails[j]);
      assert emails[..j + 1][..j] == emails[..j];
      assert emails[..j + 1][j] == emails[j];
      if ok {
        removed := removed + [emails[j]];
      }
      j := j + 1;
    }
    assert emails[..j] == emails;
  }

  /** `syncGroup`: finds the group (throwing when it cannot), reads its
      members, adds the wanted members it lacks and removes the members it
      should not have, none of them excluded; reports what actually changed. */
  method SyncGroup(svc: Service, groupEmail: GroupEmail, rows: seq<SheetRow>, excludedUsers: set<MemberEmail>, now: int)
    returns (r: Result<SyncResult, Error>)
    modifies svc
    ensures r == SyncOutcome(svc, groupEmail, rows, excludedUsers, now)
    ensures svc.calls == old(svc.calls) + SyncCalls(svc, groupEmail, rows, excludedUsers, now)
  {
    var name := LookupGroup(svc, groupEmail);
    if name.None? {
      return Failure(GroupNotFound(groupEmail));
    }
    var g := name.value;
    var members := ListMembers(svc, g);
    var current := CurrentEmails(members, excludedUsers);
    var desired := DesiredState(rows, now, excludedUsers);
    var d := CalculateDiff(desired, current);
    assert d == PlannedDiff(svc, g, rows, excludedUsers, now);
    ghost var lists := ListCalls(g, Fetched(svc.listing(g)));
    assert svc.calls == old(svc.calls) + [LookupGroupCall(groupEmail)] + lists;

    var infos := AddAll(svc, g, d.toAdd);
    var removed := RemoveAll(svc, g, d.toRemove);
    r := Success(SyncResult(groupEmail, EmailsOf(infos), removed, NamesOf(infos)));
    ghost var adds, removes := AddCalls(g, d.toAdd), RemovalCalls(svc, g, d.toRemove);
    assert SyncCalls(svc, groupEmail, rows, excludedUsers, now) == [LookupGroupCall(groupEmail)] + ((lists + adds) + removes);
    AppendFour(old(svc.calls), [LookupGroupCall(groupEmail)], lists, adds, removes);
  }

  /** `syncGroup` throws exactly when the group lookup finds no name, and
      then it has made no call besides the lookup. */
  lemma SyncFailsOnlyOnLookup(svc: Service, groupEmail: GroupEmail, rows: seq<SheetRow>, excludedUsers: set<MemberEmail>, now: int)
    ensures SyncOutcome(svc, groupEmail, rows, excludedUsers, now).Failure? <==>
      NameOf(svc.groupLookup(groupEmail)).None?
    ensures SyncOutcome(svc, groupEmail, rows, excludedUsers, now).Failure? ==>
      && SyncOutcome(svc, groupEmail, rows, excludedUsers, now).error == GroupNotFound(groupEmail)
      && SyncCalls(svc, groupEmail, rows, excludedUsers, now) == [LookupGroupCall(groupEmail)]
  {
  }

  /** The calls of `removeMember` for `emails` look up only those addresses
      and remove only memberships those lookups named. */
  lemma {:induction false} RemovalCallsTargets(svc: Service, groupName: GroupName, emails: seq<MemberEmail>)
    ensures forall c :: c in RemovalCalls(svc, groupName, emails) ==>
      && (c.LookupMembershipCall? ==> c.groupName == groupName && c.memberEmail in emails)
      && (c.RemoveCall? ==> exists e :: e in emails && NameOf(svc.membershipLookup(groupName, e)) == Some(c.membershipName))
      && !c.CreateCall? && !c.LookupGroupCall? && !c.ListCall?
  {
    if emails != [] {
      var init, e := emails[..|emails| - 1], emails[|emails| - 1];
      RemovalCallsTargets(svc, groupName, init);
      assert forall x :: x in init ==> x in emails;
      assert e in emails;
    }
  }

  /** Every `create` of `syncGroup` is for an address of the diff's additions,
      and every membership lookup for one of its removals. */
  lemma SyncCallsTargets(svc: Service, groupEmail: GroupEmail, rows: seq<SheetRow>, excludedUsers: set<MemberEmail>, now: int)
    requires NameOf(svc.groupLookup(groupEmail)).Some?
    ensures var g := NameOf(svc.groupLookup(groupEmail)).value;
      var d := PlannedDiff(svc, g, rows, excludedUsers, now);
      forall c :: c in SyncCalls(svc, groupEmail, rows, excludedUsers, now) ==>
        && (c.CreateCall? ==> c.groupName == g && c.memberEmail in d.toAdd)
        && (c.LookupMembershipCall? ==> c.groupName == g && c.memberEmail in d.toRemove)
  {
    var g := NameOf(svc.groupLookup(groupEmail)).value;
    var d := PlannedDiff(svc, g, rows, excludedUsers, now);
    PlanCallsTargets(svc, groupEmail, g, Fetched(svc.listing(g)), d.toAdd, d.toRemove);
  }

  /** The calls of a synchronisation of group `g` with the given additions
      and removals: lookup, listing, creates, then removals. */
  lemma PlanCallsTargets(svc: Service, groupEmail: GroupEmail, g: GroupName, pages: nat, toAdd: seq<MemberEmail>, toRemove: seq<MemberEmail>)
    ensures forall c :: c in [LookupGroupCall(groupEmail)] + (ListCalls(g, pages) + AddCalls(g, toAdd) + RemovalCalls(svc, g, toRemove)) ==>
      && (c.CreateCall? ==> c.groupName == g && c.memberEmail in toAdd)
      && (c.LookupMembershipCall? ==> c.groupName == g && c.memberEmail in toRemove)
  {
    RemovalCallsTargets(svc, g, toRemove);
    var lists, adds, removes := ListCalls(g, pages), AddCalls(g, toAdd), RemovalCalls(svc, g, toRemove);
    forall c | c in [LookupGroupCall(groupEmail)] + (lists + adds + removes)
      ensures c.CreateCall? ==> c.groupName == g && c.memberEmail in toAdd
      ensures c.LookupMembershipCall? ==> c.groupName == g && c.memberEmail in toRemove
    {
      if c in adds {
        var i :| 0 <= i < |adds| && adds[i] == c;
      } else if c in lists {
        var i :| 0 <= i < |lists| && lists[i] == c;
      }
    }
  }

  /** The synchroniser adds only wanted members the group lacked and removes
      only members it had that are no longer wanted; an excluded user is
      never added, looked up or removed. */
  lemma ExcludedUsersUntouched(svc: Service, groupEmail: GroupEmail, rows: seq<SheetRow>, excludedUsers: set<MemberEmail>, now: int)
    requires NameOf(svc.groupLookup(groupEmail)).Some?
    ensures var g := NameOf(svc.groupLookup(groupEmail)).value;
      var desired := DesiredState(rows, now, excludedUsers);
      var current := CurrentEmails(ListOutcome(svc.listing(g)), excludedUsers);
      forall c :: c in SyncCalls(svc, groupEmail, rows, excludedUsers, now) ==>
        && (c.CreateCall? ==> c.groupName == g && c.memberEmail in desired && c.memberEmail !in current)
        && (c.LookupMembershipCall? ==> c.groupName == g && c.memberEmail in current && c.memberEmail !in desired)
        && (c.CreateCall? || c.LookupMembershipCall? ==> c.memberEmail !in excludedUsers)
  {
    SyncCallsTargets(svc, groupEmail, rows, excludedUsers, now);
  }

  /** What `syncGroup` reports: the added addresses are those of the diff
      whose `create` returned a response, with the names `create` returned;
      the removed ones are those of the diff `removeMember` confirmed; no
      address is both. */
  lemma SyncResultMeaning(svc: Service, groupEmail: GroupEmail, rows: seq<SheetRow>, excludedUsers: set<MemberEmail>, now: int)
    requires NameOf(svc.groupLookup(groupEmail)).Some?
    ensures var g := NameOf(svc.groupLookup(groupEmail)).value;
      var d := PlannedDiff(svc, g, rows, excludedUsers, now);
      var res := SyncOutcome(svc, groupEmail, rows, excludedUsers, now).value;
      && res.groupEmail == groupEmail
      && Subseq(res.added, d.toAdd) && Subseq(res.removed, d.toRemove)
      && (forall e :: e in res.added <==> e in d.toAdd && svc.create(g, e).Returned? && svc.create(g, e).value.Some?)
      && (forall e :: e in res.addedMembershipNames <==> e in res.added)
      && (forall e :: e in res.addedMembershipNames ==> Some(res.addedMembershipNames[e]) == svc.create(g, e).value)
      && (forall e :: e in res.removed <==> e in d.toRemove && RemoveOutcome(svc, g, e))
      && (forall e :: !(e in res.added && e in res.removed))
  {
    var g := NameOf(svc.groupLookup(groupEmail)).value;
    var d := PlannedDiff(svc, g, rows, excludedUsers, now);
    AddedExactly(svc, g, d.toAdd);
  }

  /** A group that already has exactly the wanted members gets no `create`
      and no membership lookup or removal: synchronising it again changes
      nothing. */
  lemma InSyncGroupUnchanged(svc: Service, groupEmail: GroupEmail, rows: seq<SheetRow>, excludedUsers: set<MemberEmail>, now: int)
    requires NameOf(svc.groupLookup(groupEmail)).Some?
    requires var g := NameOf(svc.groupLookup(groupEmail)).value;
      forall e :: e in DesiredState(rows, now, excludedUsers) <==>
        e in CurrentEmails(ListOutcome(svc.listing(g)), excludedUsers)
    ensures var g := NameOf(svc.groupLookup(groupEmail)).value;
      && SyncCalls(svc, groupEmail, rows, excludedUsers, now) == [LookupGroupCall(groupEmail)] + ListCalls(g, Fetched(svc.listing(g)))
      && SyncOutcome(svc, groupEmail, rows, excludedUsers, now) == Success(SyncResult(groupEmail, [], [], map[]))
  {
    var g := NameOf(svc.groupLookup(groupEmail)).value;
    DiffOfSameMembers(DesiredState(rows, now, excludedUsers), CurrentEmails(ListOutcome(svc.listing(g)), excludedUsers));
    assert Removed(svc, g, []) == [];
  }
}
