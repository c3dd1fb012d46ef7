/** The Cloud Identity Groups advanced service, reduced to the replies it
    gives and the calls it receives.  A reply depends only on the call's
    arguments; every call is recorded in order, so that contracts can say
    which groups were changed and how. */
module CloudIdentity {
  import opened Wrappers
  import opened Types

  /** A call either throws or returns a value. */
  datatype Reply<+T> = Thrown | Returned(value: T)

  /** One membership of a listing page.  An absent or empty member key is
      the empty string; so is an absent resource name. */
  datatype Membership = Membership(name: MembershipName, preferredMemberKeyId: string)

  /** The pages `Memberships.list` returns for a group, in order: every page
      but the last carries a `nextPageToken`.  A page without `memberships`
      is an empty page. */
  type Listing = pages: seq<Reply<seq<Membership>>> | |pages| >= 1 witness [Returned([])]

  /** The service calls, as recorded. */
  datatype Call =
    | LookupGroupCall(groupEmail: GroupEmail)
    | ListCall(groupName: GroupName, page: nat)
    | CreateCall(groupName: GroupName, memberEmail: MemberEmail)
    | LookupMembershipCall(groupName: GroupName, memberEmail: MemberEmail)
    | RemoveCall(membershipName: MembershipName)

  class Service {
    /** `Groups.lookup`: the group's resource name (`""` when the response
        has no name). */
    const groupLookup: GroupEmail -> Reply<GroupName>
    const listing: GroupName -> Listing
    /** `Memberships.create`: `Returned(None)` when the operation carries no
        response, otherwise the new membership's name (`""` when absent). */
    const create: (GroupName, MemberEmail) -> Reply<Option<MembershipName>>
    /** `Memberships.lookup`: the membership's name (`""` when absent). */
    const membershipLookup: (GroupName, MemberEmail) -> Reply<MembershipName>
    /** `Memberships.remove`. */
    const removal: MembershipName -> Reply<()>
    var calls: seq<Call>

    constructor (
      groupLookup: GroupEmail -> Reply<GroupName>,
      listing: GroupName -> Listing,
      create: (GroupName, MemberEmail) -> Reply<Option<MembershipName>>,
      membershipLookup: (GroupName, MemberEmail) -> Reply<MembershipName>,
      removal: MembershipName -> Reply<()>)
      ensures this.groupLookup == groupLookup && this.listing == listing
      ensures this.create == create && this.membershipLookup == membershipLookup
      ensures this.removal == removal
      ensures calls == []
    {
      this.groupLookup := groupLookup;
      this.listing := listing;
      this.create := create;
      this.membershipLookup := membershipLookup;
      this.removal := removal;
      calls := [];
    }

    method LookupGroup(groupEmail: GroupEmail) returns (reply: Reply<GroupName>)
      modifies this
      ensures reply == groupLookup(groupEmail)
      ensures calls == old(calls) + [LookupGroupCall(groupEmail)]
    {
      reply := groupLookup(groupEmail);
      calls := calls + [LookupGroupCall(groupEmail)];
    }

    /** Fetches page `page` of the group's memberships (the first page
        without a token, later ones with the previous page's token). */
    method ListPage(groupName: GroupName, page: nat) returns (reply: Reply<seq<Membership>>)
      requires page < |listing(groupName)|
      modifies this
      ensures reply == listing(groupName)[page]
      ensures calls == old(calls) + [ListCall(groupName, page)]
    {
      reply := listing(groupName)[page];
      calls := calls + [ListCall(groupName, page)];
    }

    method Create(groupName: GroupName, memberEmail: MemberEmail) returns (reply: Reply<Option<MembershipName>>)
      modifies this
      ensures reply == create(groupName, memberEmail)
      ensures calls == old(calls) + [CreateCall(groupName, memberEmail)]
    {
      reply := create(groupName, memberEmail);
      calls := calls + [CreateCall(groupName, memberEmail)];
    }

    method LookupMembership(groupName: GroupName, memberEmail: MemberEmail) returns (reply: Reply<MembershipName>)
      modifies this
      ensures reply == membershipLookup(groupName, memberEmail)
      ensures calls == old(calls) + [LookupMembershipCall(groupName, memberEmail)]
    {
      reply := membershipLookup(groupName, memberEmail);
      calls := calls + [LookupMembershipCall(groupName, memberEmail)];
    }

    method Remove(membershipName: MembershipName) returns (reply: Reply<()>)
      modifies this
      ensures reply == removal(membershipName)
      ensures calls == old(calls) + [RemoveCall(membershipName)]
    {
      reply := removal(membershipName);
      calls := calls + [RemoveCall(membershipName)];
    }
  }
}
