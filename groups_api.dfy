/** The group API client: small operations over the Cloud Identity service
    that turn its replies and exceptions into plain results. */
module GroupsApi {
  import opened Wrappers
  import opened Types
  import opened CloudIdentity

  /** A resource name read from a reply: present when the call returned a
      non-empty name (`response && response.name`, `response?.name || null`);
      absent when it returned none or threw. */
  function NameOf(reply: Reply<string>): (r: Option<string>)
    ensures r.Some? <==> reply.Returned? && reply.value != ""
    ensures r.Some? ==> r.value == reply.value
  {
    if reply.Returned? && reply.value != "" then Some(reply.value) else None
  }

  /** `lookupGroup`: the group's resource name, or `None` when the lookup
      finds no name or throws. */
  method LookupGroup(svc: Service, groupEmail: GroupEmail) returns (name: Option<GroupName>)
    modifies svc
    ensures name == NameOf(svc.groupLookup(groupEmail))
    ensures svc.calls == old(svc.calls) + [LookupGroupCall(groupEmail)]
  {
    var reply := svc.LookupGroup(groupEmail);
    if reply.Returned? && reply.value != "" {
      name := Some(reply.value);
    } else {
      name := None;
    }
  }

  /** The memberships of one page that have a member key, in page order. */
  function Keyed(ms: seq<Membership>): (r: seq<MembershipInfo>)
    ensures |r| <= |ms|
  {
    if ms == [] then []
    else
      var rest, m := Keyed(ms[..|ms| - 1]), ms[|ms| - 1];
      if m.preferredMemberKeyId != "" then rest + [MembershipInfo(m.name, m.preferredMemberKeyId)] else rest
  }

  /** `Keyed` keeps exactly the memberships with a member key, as name and
      e-mail pairs. */
  lemma {:induction false} KeyedExactly(ms: seq<Membership>, info: MembershipInfo)
    ensures info in Keyed(ms) <==>
      exists i :: 0 <= i < |ms| && ms[i].preferredMemberKeyId != "" && ms[i] == Membership(info.name, info.email)
  {
    if ms != [] {
      var init := ms[..|ms| - 1];
      KeyedExactly(init, info);
      if info in Keyed(init) {
        var i :| 0 <= i < |init| && init[i].preferredMemberKeyId != "" && init[i] == Membership(info.name, info.email);
        assert ms[i] == init[i];
      }
      if exists i :: 0 <= i < |ms| && ms[i].preferredMemberKeyId != "" && ms[i] == Membership(info.name, info.email) {
        var i :| 0 <= i < |ms| && ms[i].preferredMemberKeyId != "" && ms[i] == Membership(info.name, info.email);
        if i < |init| {
          assert init[i] == ms[i];
        }
      }
    }
  }

  /** The members of all pages, or `None` when fetching some page throws. */
  function Collected(pages: seq<Reply<seq<Membership>>>): (r: Option<seq<MembershipInfo>>)
    ensures r.None? <==> exists i :: 0 <= i < |pages| && pages[i].Thrown?
  {
    if pages == [] then Some([])
    else
      var init, last := pages[..|pages| - 1], pages[|pages| - 1];
      assert forall i :: 0 <= i < |init| ==> init[i] == pages[i];
      var rest := Collected(init);
      if rest.None? || last.Thrown? then None else Some(rest.value + Keyed(last.value))
  }

  /** What `listMembers` returns: every keyed membership of every page, or
      nothing at all when a page fails. */
  function ListOutcome(pages: Listing): seq<MembershipInfo> {
    if Collected(pages).Some? then Collected(pages).value else []
  }

  /** The number of pages `listMembers` requests: up to and including the
      first that throws, otherwise all of them. */
  function Fetched(pages: seq<Reply<seq<Membership>>>): (n: nat)
    ensures n <= |pages|
    ensures Collected(pages).Some? ==> n == |pages|
    ensures Collected(pages).None? ==>
      0 < n && pages[n - 1].Thrown? && forall i :: 0 <= i < n - 1 ==> pages[i].Returned?
  {
    if pages == [] then 0
    else
      var init := pages[..|pages| - 1];
      assert forall i :: 0 <= i < |init| ==> init[i] == pages[i];
      if Collected(init).None? then Fetched(init) else |pages|
  }

  /** One listing call per page, with the page's position. */
  function ListCalls(groupName: GroupName, n: nat): (r: seq<Call>)
    ensures |r| == n
    ensures forall i :: 0 <= i < n ==> r[i] == ListCall(groupName, i)
  {
    seq(n, i requires 0 <= i < n => ListCall(groupName, i))
  }

  /** Collecting one more page. */
  lemma CollectedSnoc(pages: seq<Reply<seq<Membership>>>, k: nat)
    requires k < |pages|
    ensures var c := Collected(pages[..k]);
      Collected(pages[..k + 1]) ==
        if c.None? || pages[k].Thrown? then None else Some(c.value + Keyed(pages[k].value))
  {
    assert pages[..k + 1][..k] == pages[..k];
  }

  /** `listMembers`: follows the pages while each carries a next-page token,
      keeping every membership that has a member key; any failure yields an
      empty list. */
  method ListMembers(svc: Service, groupName: GroupName) returns (members: seq<MembershipInfo>)
    modifies svc
    ensures members == ListOutcome(svc.listing(groupName))
    ensures svc.calls == old(svc.calls) + ListCalls(groupName, Fetched(svc.listing(groupName)))
  {
    var pages := svc.listing(groupName);
    members := [];
    var page := 0;
    var more := true;
    while more
      invariant 0 <= page <= |pages|
      invariant more ==> page < |pages| && Collected(pages[..page]) == Some(members)
      invariant more ==> svc.calls == old(svc.calls) + ListCalls(groupName, page)
      invariant !more ==> members == ListOutcome(pages)
      invariant !more ==> svc.calls == old(svc.calls) + ListCalls(groupName, Fetched(pages))
      decreases |pages| - page, more
    {
      var reply := svc.ListPage(groupName, page);
      CollectedSnoc(pages, page);
      assert ListCalls(groupName, page) + [ListCall(groupName, page)] == ListCalls(groupName, page + 1);
      if reply.Thrown? {
        assert pages[..page + 1][page].Thrown?;
        assert Collected(pages).None?;
        assert Fetched(pages) == page + 1;
        members := [];
        more := false;
      } else {
        members := members + Keyed(reply.value);
        page := page + 1;
        if page == |pages| {
          assert pages[..page] == pages;
          more := false;
        }
      }
    }
  }

  /** What `addMember` returns for a `create` reply: the new membership when
      the operation carries a response, otherwise (or on an exception)
      nothing. */
  function AddOutcome(reply: Reply<Option<MembershipName>>, memberEmail: MemberEmail): (r: Option<MembershipInfo>)
    ensures r.Some? <==> reply.Returned? && reply.value.Some?
    ensures r.Some? ==> r.value.email == memberEmail && r.value.name == reply.value.value
  {
    if reply.Returned? && reply.value.Some? then Some(MembershipInfo(reply.value.value, memberEmail)) else None
  }

  /** `addMember`: creates a `MEMBER` membership for the address. */
  method AddMember(svc: Service, groupName: GroupName, memberEmail: MemberEmail) returns (info: Option<MembershipInfo>)
    modifies svc
    ensures info == AddOutcome(svc.create(groupName, memberEmail), memberEmail)
    ensures svc.calls == old(svc.calls) + [CreateCall(groupName, memberEmail)]
  {
    var reply := svc.Create(groupName, memberEmail);
    if reply.Returned? && reply.value.Some? {
      info := Some(MembershipInfo(reply.value.value, memberEmail));
    } else {
      info := None;
    }
  }

  /** `getMembershipName`: the membership's resource name, or `None` when the
      lookup finds none or throws (a missing member answers 404). */
  method GetMembershipName(svc: Service, groupName: GroupName, memberEmail: MemberEmail) returns (name: Option<MembershipName>)
    modifies svc
    ensures name == NameOf(svc.membershipLookup(groupName, memberEmail))
    ensures svc.calls == old(svc.calls) + [LookupMembershipCall(groupName, memberEmail)]
  {
    var reply := svc.LookupMembership(groupName, memberEmail);
    if reply.Returned? && reply.value != "" {
      name := Some(reply.value);
    } else {
      name := None;
    }
  }

  /** Whether `removeMember` reports success. */
  function RemoveOutcome(svc: Service, groupName: GroupName, memberEmail: MemberEmail): bool {
    var name := NameOf(svc.membershipLookup(groupName, memberEmail));
    name.None? || svc.removal(name.value).Returned?
  }

  /** The calls `removeMember` makes. */
  function RemoveCalls(svc: Service, groupName: GroupName, memberEmail: MemberEmail): seq<Call> {
    var name := NameOf(svc.membershipLookup(groupName, memberEmail));
    [LookupMembershipCall(groupName, memberEmail)] + (if name.Some? then [RemoveCall(name.value)] else [])
  }

  /** `removeMember`: deletes the member's membership.  A member that cannot
      be found counts as removed already. */
  method RemoveMember(svc: Service, groupName: GroupName, memberEmail: MemberEmail) returns (ok: bool)
    modifies svc
    ensures ok == RemoveOutcome(svc, groupName, memberEmail)
    ensures svc.calls == old(svc.calls) + RemoveCalls(svc, groupName, memberEmail)
  {
    var name := GetMembershipName(svc, groupName, memberEmail);
    if name.None? {
      return true;
    }
    var reply := svc.Remove(name.value);
    ok := reply.Returned?;
  }

  /** `removeMember` fails exactly when the membership was found and its
      removal threw; it removes only the membership the lookup named, and
      nothing when the lookup found none. */
  lemma RemoveMeaning(svc: Service, groupName: GroupName, memberEmail: MemberEmail)
    ensures var lookup := svc.membershipLookup(groupName, memberEmail);
      && (!RemoveOutcome(svc, groupName, memberEmail) <==>
            lookup.Returned? && lookup.value != "" && svc.removal(lookup.value).Thrown?)
      && (forall c :: c in RemoveCalls(svc, groupName, memberEmail) && c.RemoveCall? ==>
            lookup.Returned? && c.membershipName == lookup.value != "")
      && RemoveCalls(svc, groupName, memberEmail)[0] == LookupMembershipCall(groupName, memberEmail)
      && |RemoveCalls(svc, groupName, memberEmail)| <= 2
  {
  }

  /** `listMembers` yields all or nothing: the keyed memberships of every
      page when no page fails, none at all otherwise; it stops at the first
      failing page. */
  lemma {:induction false} ListAllOrNothing(pages: Listing, info: MembershipInfo)
    ensures (exists i :: 0 <= i < |pages| && pages[i].Thrown?) ==> ListOutcome(pages) == []
    ensures (forall i :: 0 <= i < |pages| ==> pages[i].Returned?) ==>
      (info in ListOutcome(pages) <==> exists i :: 0 <= i < |pages| && info in Keyed(pages[i].value))
    ensures Fetched(pages) >= 1
  {
    if forall i :: 0 <= i < |pages| ==> pages[i].Returned? {
      CollectedMembers(pages, info);
    }
  }

  /** The members collected from pages that all returned. */
  lemma {:induction false} CollectedMembers(pages: seq<Reply<seq<Membership>>>, info: MembershipInfo)
    requires forall i :: 0 <= i < |pages| ==> pages[i].Returned?
    ensures Collected(pages).Some?
    ensures info in Collected(pages).value <==> exists i :: 0 <= i < |pages| && info in Keyed(pages[i].value)
  {
    if pages != [] {
      var init := pages[..|pages| - 1];
      assert forall i :: 0 <= i < |init| ==> init[i] == pages[i];
      CollectedMembers(init, info);
      if info in Collected(init).value {
        var i :| 0 <= i < |init| && info in Keyed(init[i].value);
        assert info in Keyed(pages[i].value);
      }
    }
  }
}
