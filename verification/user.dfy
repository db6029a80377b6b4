/**
 * The user resource: `Get`, `Update` and `GetGroups`. Each one either refuses its
 * arguments before any request is made or sends one fixed request to `/v4/user`, and then
 * returns the value the client filled next to the client's error.
 */
module User {
  import opened Wrappers
  import opened Text
  import opened Bitly
  import opened Groups

  datatype Email = Email(email: string, isPrimary: bool, isVerified: bool)

  /** A `JSONDate`; time.go is not part of this model, so a date is an opaque instant. */
  datatype JSONDate = JSONDate(instant: int)

  datatype User = User(
    name: string,
    created: JSONDate,
    modified: JSONDate,
    login: string,
    isActive: bool,
    is2FAEnabled: bool,
    emails: seq<Email>,
    isSSOUser: bool)

  datatype UserUpdateOptions = UserUpdateOptions(name: string)

  /** `&User{}`: the value a user starts from before decoding. */
  const ZeroUser: User := User("", JSONDate(0), JSONDate(0), "", false, false, [], false)

  /** The one path all three operations use, whatever their arguments. */
  const UserResource: string := "user"

  /** The request `Get` sends. */
  function GetCall(): (c: Call<()>)
    ensures c == Send("GET", "/v4/user", None)
  {
    VersionedUser();
    Send("GET", Versioned(UserResource), None)
  }

  /**
   * `Get`, given the reply of the client's `get`: the user value is returned whatever the
   * outcome, filled on success and still empty otherwise, next to the client's error.
   */
  function Get(reply: Reply<User>): (r: (Option<User>, Option<Error>))
    ensures r.0.Some? && r.1 == reply.err
    ensures reply.filled.Some? ==> r.0.value == reply.filled.value
    ensures reply.filled.None? ==> r.0.value == ZeroUser
  {
    (Some(Filled(ZeroUser, reply)), reply.err)
  }

  /** As written, a failed `Get` hands back a user and an error together. */
  lemma GetReturnsUserOnError(baseURL: string, body: ErrorBody, asTarget: Result<User, string>)
    ensures var r := Get(DoReply("GET", baseURL + "/v4/user", Received(403, Ok(body), asTarget), true));
      r == (Some(ZeroUser), Some(ApiError("GET", baseURL + "/v4/user", 403, body)))
  {
  }

  /**
   * `Get` as the user tests and `ListGroups` expect it: no user when the call failed, so
   * exactly one of the user and the error is present.
   */
  function GetOrError(reply: Reply<User>): (r: (Option<User>, Option<Error>))
    ensures r.1 == reply.err
    ensures r.0.Some? != r.1.Some?
    ensures r.0.Some? ==> r.0.value == Filled(ZeroUser, reply)
  {
    if reply.err.Some? then (None, reply.err) else (Some(Filled(ZeroUser, reply)), None)
  }

  /** On a 2xx whose body decodes, both versions return the decoded user and no error. */
  lemma GetVersionsAgreeOnSuccess(baseURL: string, status: int, body: Result<ErrorBody, string>, u: User)
    requires IsSuccess(status)
    ensures var reply := DoReply("GET", baseURL + "/v4/user", Received(status, body, Ok(u)), true);
      Get(reply) == GetOrError(reply) == (Some(u), None)
  {
  }

  /** The request `Update` sends: none without options, a PATCH carrying them otherwise. */
  function UpdateCall(options: Option<UserUpdateOptions>): (c: Call<UserUpdateOptions>)
    ensures options.None? <==> c.Refuse?
    ensures options.None? ==> c == Refuse(OptionsRequired)
    ensures options.Some? ==> c == Send("PATCH", "/v4/user", options)
  {
    if options.None? then Refuse(OptionsRequired)
    else
      VersionedUser();
      Send("PATCH", Versioned(UserResource), options)
  }

  /**
   * `Update`, given the reply of the client's `patch` (unused when nothing was sent): without
   * options no user and `errOptionsRequired`; otherwise the user value, as for `Get`.
   */
  function Update(options: Option<UserUpdateOptions>, reply: Reply<User>): (r: (Option<User>, Option<Error>))
    ensures options.None? ==> r == (None, Some(OptionsRequired))
    ensures options.Some? ==> r.0.Some? && r.1 == reply.err
    ensures options.Some? && reply.filled.Some? ==> r.0.value == reply.filled.value
    ensures options.Some? && reply.filled.None? ==> r.0.value == ZeroUser
  {
    if options.None? then (None, Some(OptionsRequired))
    else (Some(Filled(ZeroUser, reply)), reply.err)
  }

  /** The error `Update` returns without options reads "options cannot be empty". */
  lemma UpdateWithoutOptionsText(reply: Reply<User>)
    ensures var r := Update(None, reply);
      r.0.None? && r.1.Some? && ErrorText(r.1.value) == "options cannot be empty"
  {
  }

  /** The request `GetGroups` sends: none for an empty login, the same GET for any other. */
  function GetGroupsCall(login: string): (c: Call<()>)
    ensures login == "" <==> c.Refuse?
    ensures login == "" ==> c == Refuse(ParameterError("login"))
    ensures login != "" ==> c == Send("GET", "/v4/user", None)
  {
    if login == "" then Refuse(ParameterError("login"))
    else
      VersionedUser();
      Send("GET", Versioned(UserResource), None)
  }

  /** The login is only checked for emptiness: it never reaches the request. */
  lemma GetGroupsIgnoresLogin(login1: string, login2: string)
    requires login1 != "" && login2 != ""
    ensures GetGroupsCall(login1) == GetGroupsCall(login2)
  {
  }

  /**
   * `GetGroups`, given the reply of the client's `get` (unused when nothing was sent): for
   * an empty login no listing and the parameter error; otherwise the listing value next to
   * the client's error.
   */
  function GetGroups(login: string, reply: Reply<GroupsResponse>): (r: (Option<GroupsResponse>, Option<Error>))
    ensures login == "" ==> r == (None, Some(ParameterError("login")))
    ensures login != "" ==> r.0.Some? && r.1 == reply.err
    ensures login != "" && reply.filled.Some? ==> r.0.value == reply.filled.value
    ensures login != "" && reply.filled.None? ==> r.0.value == EmptyGroups
  {
    if login == "" then (None, Some(ParameterError("login")))
    else (Some(Filled(EmptyGroups, reply)), reply.err)
  }

  /** The error for an empty login is the parameter name followed by the fixed text. */
  lemma GetGroupsEmptyLoginText(reply: Reply<GroupsResponse>)
    ensures var r := GetGroups("", reply);
      r.0.None? && r.1.Some? && ErrorText(r.1.value) == "login paramater is required and cannot be empty"
  {
    LoginParameterText("login", ParameterErrorSuffix);
  }

  // The parts of the text are parameters pinned to their literals by `requires`, which
  // keeps literal unfolding stable; the text is put together in two joins, each in a
  // lemma of its own, since one proof of the whole literal runs out of resource.
  lemma LoginParameterText(name: string, suffix: string)
    requires name == "login" && suffix == ParameterErrorSuffix
    ensures name + suffix == "login paramater is required and cannot be empty"
  {
    var p, q := " paramater is required", " and cannot be empty";
    SuffixSplit(suffix, p, q);
    AppendAssociative(name, p, q);
    var head := "login paramater is required";
    HeadJoin(name, p, head);
    TailJoin(head, q);
  }

  lemma SuffixSplit(suffix: string, p: string, q: string)
    requires suffix == ParameterErrorSuffix && p == " paramater is required" && q == " and cannot be empty"
    ensures suffix == p + q
  {
  }

  lemma HeadJoin(name: string, p: string, head: string)
    requires name == "login" && p == " paramater is required" && head == "login paramater is required"
    ensures name + p == head
  {
  }

  lemma TailJoin(head: string, q: string)
    requires head == "login paramater is required" && q == " and cannot be empty"
    ensures head + q == "login paramater is required and cannot be empty"
  {
  }
}
