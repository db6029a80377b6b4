/**
 * The groups resource: the path of a group and `ListGroups`, which always asks for the
 * whole list and hands back either the decoded list or the error, never both.
 */
module Groups {
  import opened Wrappers
  import opened Text
  import opened Bitly

  /** One group as the API describes it. */
  datatype GroupResponse = GroupResponse(
    references: map<string, string>,
    name: string,
    bsds: seq<string>,
    isActive: bool,
    created: string,
    modified: string,
    organizationGuid: string,
    role: string,
    guid: string)

  /** The body of a group listing. */
  datatype GroupsResponse = GroupsResponse(groups: seq<GroupResponse>)

  /** `&groupsResponse{}`: the value a listing starts from before decoding. */
  const EmptyGroups: GroupsResponse := GroupsResponse([])

  const GroupsPath: string := "/groups"

  /** `groupPath`: the collection for an empty GUID, otherwise the group below it. */
  function GroupPath(groupGuid: string): (r: string)
    ensures IsPrefix(GroupsPath, r)
    ensures groupGuid == "" <==> r == GroupsPath
    ensures groupGuid != "" ==> r == GroupsPath + "/" + groupGuid
  {
    if groupGuid == "" then GroupsPath else GroupsPath + "/" + groupGuid
  }

  /** A GUID without slashes ends up right below `/v4/groups/`. */
  lemma VersionedGroupPath(groupGuid: string)
    requires '/' !in groupGuid
    ensures groupGuid == "" ==> Versioned(GroupPath(groupGuid)) == "/v4/groups"
    ensures groupGuid != "" ==> Versioned(GroupPath(groupGuid)) == "/v4/groups/" + groupGuid
  {
    if groupGuid == "" {
      VersionedCollection(GroupPath(groupGuid), "groups");
    } else {
      VersionedGroup(groupGuid);
    }
  }

  // Takes its literal through a parameter pinned by `requires`, which keeps literal unfolding stable.
  lemma VersionedCollection(p: string, inner: string)
    requires p == GroupsPath && inner == "groups"
    ensures Versioned(p) == "/v4/groups"
  {
    SlashInFront(p, inner);
    VersionedIgnoresSlashes(inner);
    VersionedPlain(inner);
    UnderVersion(inner);
  }

  // Takes its literal through a parameter pinned by `requires`, which keeps literal unfolding stable.
  lemma SlashInFront(p: string, inner: string)
    requires p == GroupsPath && inner == "groups"
    ensures p == "/" + inner
  {
  }

  // Takes its literal through a parameter pinned by `requires`, which keeps literal unfolding stable.
  lemma UnderVersion(inner: string)
    requires inner == "groups"
    ensures "/v4/" + inner == "/v4/groups"
  {
  }

  lemma VersionedGroup(groupGuid: string)
    requires '/' !in groupGuid && groupGuid != ""
    ensures Versioned(GroupsPath + "/" + groupGuid) == "/v4/groups/" + groupGuid
  {
    var inner := GroupBelowCollection(groupGuid);
    VersionedIgnoresSlashes(inner);
    VersionedPlain(inner);
    GroupUnderVersion(groupGuid, inner);
  }

  /** The group path is a slash followed by a path without slashes at its ends. */
  lemma GroupBelowCollection(groupGuid: string) returns (inner: string)
    requires '/' !in groupGuid && groupGuid != ""
    ensures inner == "groups/" + groupGuid
    ensures GroupsPath + "/" + groupGuid == "/" + inner
    ensures NoEdgeSlash(inner)
  {
    inner := "groups/" + groupGuid;
    assert GroupsPath + "/" == "/" + "groups/";
    AppendAssociative("/", "groups/", groupGuid);
    assert inner[|inner| - 1] == groupGuid[|groupGuid| - 1];
  }

  lemma GroupUnderVersion(groupGuid: string, inner: string)
    requires inner == "groups/" + groupGuid
    ensures "/v4/" + inner == "/v4/groups/" + groupGuid
  {
    AppendAssociative("/v4/", "groups/", groupGuid);
    assert "/v4/" + "groups/" == "/v4/groups/";
  }

  /** The request `ListGroups` sends: the same for every organization GUID. */
  function ListGroupsCall(organizationGuid: string): (c: Call<()>)
    ensures c == Send("GET", "/v4/groups", None)
  {
    VersionedGroupPath("");
    Send("GET", Versioned(GroupPath("")), None)
  }

  /**
   * `ListGroups`, given the reply of the client's `get` for `ListGroupsCall`: no listing
   * and the error unchanged when the call failed, otherwise the listing and no error.
   */
  function ListGroups(organizationGuid: string, reply: Reply<GroupsResponse>): (r: (Option<GroupsResponse>, Option<Error>))
    ensures reply.err.Some? ==> r == (None, reply.err)
    ensures reply.err.None? ==> r == (Some(Filled(EmptyGroups, reply)), None)
    ensures r.0.Some? != r.1.Some?
  {
    if reply.err.Some? then (None, reply.err)
    else (Some(Filled(EmptyGroups, reply)), None)
  }

  /**
   * End to end for a reachable server: a 2xx with a body that decodes to `{"groups":[]}` gives
   * an empty listing and no error; any other status gives no listing and the API error,
   * whose text names the status and the message.
   */
  lemma ListGroupsResponses(baseURL: string, organizationGuid: string, status: nat, body: ErrorBody)
    ensures var reply := DoReply("GET", baseURL + "/v4/groups", Received(status, Ok(body), Ok(EmptyGroups)), true);
      && (IsSuccess(status) ==> ListGroups(organizationGuid, reply) == (Some(GroupsResponse([])), None))
      && (!IsSuccess(status) ==> ListGroups(organizationGuid, reply) == (None, Some(ApiError("GET", baseURL + "/v4/groups", status, body))))
  {
  }

  /** A 403 with message `FORBIDDEN` is reported as `... 403 FORBIDDEN` and no listing. */
  lemma ListGroupsForbidden(baseURL: string, organizationGuid: string, asTarget: Result<GroupsResponse, string>)
    ensures var body := ErrorBody("FORBIDDEN", [], "", "");
      var r := ListGroups(organizationGuid, DoReply("GET", baseURL + "/v4/groups", Received(403, Ok(body), asTarget), true));
      r.0.None? && r.1.Some? && IsSuffix(": 403 FORBIDDEN", ErrorText(r.1.value))
  {
    ForbiddenText("GET", baseURL + "/v4/groups", ErrorBody("FORBIDDEN", [], "", ""));
  }
}
