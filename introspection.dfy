/** check_via_iam: read the calling user's inline policies from IAM, all or nothing. */
module Introspection {
  import opened Wrappers
  import opened Cloud

  /** The `(success, permissions)` pair check_via_iam returns, with the calls it issued. */
  datatype IamReport = IamReport(success: bool, permissions: Option<seq<PolicyDocument>>, calls: seq<Call>)

  /** The documents gathered for a list of policy names (None once a fetch raises) and the
      fetches issued. */
  datatype Fetch = Fetch(docs: Option<seq<PolicyDocument>>, calls: seq<Call>)

  /** Connecting, resolving the user and listing the policy names all succeed. */
  predicate Listed(iam: Iam) {
    iam.connect == Succeeded && iam.currentUser.Some? && iam.userPolicies.Returned?
  }

  /** Every listed policy can be fetched. */
  predicate AllFetchable(names: seq<PolicyName>, fetch: PolicyName -> Outcome<string>) {
    forall n :: n in names ==> fetch(n).Returned?
  }

  /** Fetch the policies named in `names` in order, stopping at the first fetch that raises. */
  function FetchAll(user: UserName, names: seq<PolicyName>, fetch: PolicyName -> Outcome<string>): (f: Fetch)
    ensures f.docs.Some? <==> AllFetchable(names, fetch)
    ensures f.docs.Some? ==>
      && |f.docs.value| == |names|
      && forall i :: 0 <= i < |names| ==> f.docs.value[i] == Fetched(fetch(names[i]).value)
    // the fetches issued are a prefix of the names, one call per name
    ensures |f.calls| <= |names|
    ensures f.docs.Some? ==> |f.calls| == |names|
    // on failure, the last fetch issued is the first one that raised
    ensures f.docs.None? ==>
      && f.calls != []
      && fetch(names[|f.calls| - 1]).Raised?
      && forall i :: 0 <= i < |f.calls| - 1 ==> fetch(names[i]).Returned?
  {
    if names == [] then
      Fetch(Some([]), [])
    else
      var call := GetUserPolicy(user, names[0]);
      match fetch(names[0])
      case Raised => Fetch(None, [call])
      case Returned(doc) =>
        var rest := FetchAll(user, names[1..], fetch);
        Fetch(if rest.docs.None? then None else Some([Fetched(doc)] + rest.docs.value), [call] + rest.calls)
  }

  /** The i-th fetch issued is the fetch of the i-th policy name. */
  lemma {:induction false} FetchAllCalls(user: UserName, names: seq<PolicyName>, fetch: PolicyName -> Outcome<string>)
    ensures var calls := FetchAll(user, names, fetch).calls;
      forall i :: 0 <= i < |calls| ==> calls[i] == GetUserPolicy(user, names[i])
  {
    if names != [] && fetch(names[0]).Returned? {
      FetchAllCalls(user, names[1..], fetch);
      var calls := FetchAll(user, names, fetch).calls;
      var rest := FetchAll(user, names[1..], fetch).calls;
      assert calls == [GetUserPolicy(user, names[0])] + rest;
      forall i | 0 < i < |calls| ensures calls[i] == GetUserPolicy(user, names[i]) {
        assert calls[i] == rest[i - 1];
        assert names[1..][i - 1] == names[i];
      }
    }
  }

  /** The specification of check_via_iam (as the code evidently intends at line 143: a failed
      fetch reports failure and discards what was gathered). */
  function Introspect(iam: Iam): (r: IamReport)
    ensures r.success <==> r.permissions.Some?
  {
    if iam.connect == Failed then
      IamReport(false, None, [IamConnect])
    else if iam.currentUser.None? then
      IamReport(false, None, [IamConnect, GetCurrentUser])
    else
      var user := iam.currentUser.value;
      var listing := [IamConnect, GetCurrentUser, GetAllUserPolicies(user)];
      match iam.userPolicies
      case Raised => IamReport(false, None, listing)
      case Returned(names) =>
        var f := FetchAll(user, names, iam.userPolicy);
        IamReport(f.docs.Some?, f.docs, listing + f.calls)
  }

  /** Introspection succeeds exactly when connecting, resolving the user, listing the policy
      names and every fetch succeed; on success it yields one document per name, in listing
      order; on failure it yields none (no partial results). */
  lemma IntrospectOutcome(iam: Iam)
    ensures Introspect(iam).success <==> Listed(iam) && AllFetchable(iam.userPolicies.value, iam.userPolicy)
    ensures !Introspect(iam).success ==> Introspect(iam).permissions == None
    ensures Introspect(iam).success ==>
      && |Introspect(iam).permissions.value| == |iam.userPolicies.value|
      && forall i :: 0 <= i < |iam.userPolicies.value| ==>
           Introspect(iam).permissions.value[i] == Fetched(iam.userPolicy(iam.userPolicies.value[i]).value)
  {
  }

  /** Introspection opens its connection first, calls nothing but IAM, and issues a single call
      when the connection fails. */
  lemma IntrospectCalls(iam: Iam)
    ensures Introspect(iam).calls != [] && Introspect(iam).calls[0] == IamConnect
    ensures iam.connect == Failed ==> Introspect(iam).calls == [IamConnect]
    ensures iam.connect == Succeeded && iam.currentUser.None? ==> Introspect(iam).calls == [IamConnect, GetCurrentUser]
    ensures iam.connect == Succeeded && iam.currentUser.Some? && iam.userPolicies.Raised? ==>
      Introspect(iam).calls == [IamConnect, GetCurrentUser, GetAllUserPolicies(iam.currentUser.value)]
    ensures forall c :: c in Introspect(iam).calls ==> !IsEc2Call(c)
  {
    if Listed(iam) {
      FetchAllCalls(iam.currentUser.value, iam.userPolicies.value, iam.userPolicy);
    }
  }

  /** check_via_iam as written, branch by branch. At line 143 the bare `except:` refers to `e`,
      which no statement executed in the function has bound, so a fetch that raises makes the
      handler raise UnboundLocalError out of the function instead of returning `(False, None)`. */
  function IntrospectAsWritten(iam: Iam): (r: Outcome<IamReport>)
    // whenever it returns, it reports success exactly when it hands back documents
    ensures r.Returned? ==> (r.value.success <==> r.value.permissions.Some?)
    // it can only raise once the policy names have been listed
    ensures r.Raised? ==> Listed(iam)
  {
    if iam.connect == Failed then
      Returned(IamReport(false, None, [IamConnect]))
    else if iam.currentUser.None? then
      Returned(IamReport(false, None, [IamConnect, GetCurrentUser]))
    else
      var user := iam.currentUser.value;
      var listing := [IamConnect, GetCurrentUser, GetAllUserPolicies(user)];
      match iam.userPolicies
      case Raised => Returned(IamReport(false, None, listing))
      case Returned(names) =>
        var f := FetchAll(user, names, iam.userPolicy);
        if f.docs.None? then Raised
        else Returned(IamReport(true, f.docs, listing + f.calls))
  }

  /** The discrepancy: as written, the function raises exactly when the names are listed and one
      of the listed policies cannot be fetched; on every other input it returns what the
      intended version returns. */
  lemma AsWrittenRaisesOnFetchFailure(iam: Iam)
    ensures IntrospectAsWritten(iam) == Raised <==>
      Listed(iam) && exists n :: n in iam.userPolicies.value && iam.userPolicy(n).Raised?
    ensures IntrospectAsWritten(iam).Returned? ==> IntrospectAsWritten(iam).value == Introspect(iam)
  {
  }

  /** A concrete input: user "alice" with one inline policy whose fetch is denied. As written
      the call raises; as intended it reports failure with no documents. */
  lemma FetchDeniedExample()
    ensures
      var iam := Iam(Succeeded, Succeeded, Returned(None), Some("alice"), Returned(["ReadOnly"]),
                     (n: PolicyName) => Raised);
      && IntrospectAsWritten(iam) == Raised
      && Introspect(iam).success == false
      && Introspect(iam).permissions == None
      && Introspect(iam).calls
           == [IamConnect, GetCurrentUser, GetAllUserPolicies("alice"), GetUserPolicy("alice", "ReadOnly")]
  {
  }

  /** When the fetch of `names[i]` is the first to raise, exactly `i + 1` fetches are issued. */
  lemma {:induction false} FirstRaise(user: UserName, names: seq<PolicyName>, fetch: PolicyName -> Outcome<string>, i: nat)
    requires i < |names| && fetch(names[i]).Raised?
    requires forall k :: 0 <= k < i ==> fetch(names[k]).Returned?
    ensures FetchAll(user, names, fetch).docs.None?
    ensures |FetchAll(user, names, fetch).calls| == i + 1
  {
  }

  /** The loop of check_via_iam over the policy names (lines 138-149): fetch each in turn,
      giving up with no documents at the first fetch that raises. */
  method FetchPolicies(user: UserName, names: seq<PolicyName>, fetch: PolicyName -> Outcome<string>)
    returns (docs: Option<seq<PolicyDocument>>, calls: seq<Call>)
    ensures Fetch(docs, calls) == FetchAll(user, names, fetch)
  {
    var permissions: seq<PolicyDocument> := [];
    calls := [];
    for i := 0 to |names|
      invariant |permissions| == i && |calls| == i
      invariant forall k :: 0 <= k < i ==> fetch(names[k]).Returned? && permissions[k] == Fetched(fetch(names[k]).value)
      invariant forall k :: 0 <= k < i ==> calls[k] == GetUserPolicy(user, names[k])
    {
      calls := calls + [GetUserPolicy(user, names[i])];
      match fetch(names[i])
      case Raised =>
        FirstRaise(user, names, fetch, i);
        FetchAllCalls(user, names, fetch);
        return None, calls;
      case Returned(doc) =>
        ghost var before := permissions;
        permissions := permissions + [Fetched(doc)];
        assert forall k :: 0 <= k < i ==> permissions[k] == before[k];
    }
    assert AllFetchable(names, fetch) by {
      forall n | n in names ensures fetch(n).Returned? {
        var k :| 0 <= k < |names| && names[k] == n;
      }
    }
    FetchAllCalls(user, names, fetch);
    ghost var f := FetchAll(user, names, fetch);
    assert permissions == f.docs.value;
    assert calls == f.calls;
    return Some(permissions), calls;
  }

  /** check_via_iam: connect, resolve the calling user, list its inline policies, then fetch
      them all; as the intended specification says. */
  method CheckViaIam(iam: Iam) returns (success: bool, permissions: Option<seq<PolicyDocument>>, calls: seq<Call>)
    ensures IamReport(success, permissions, calls) == Introspect(iam)
  {
    calls := [IamConnect];
    if iam.connect == Failed {
      return false, None, calls;
    }
    calls := calls + [GetCurrentUser];
    if iam.currentUser.None? {
      return false, None, calls;
    }
    var user := iam.currentUser.value;
    calls := calls + [GetAllUserPolicies(user)];
    if iam.userPolicies.Raised? {
      return false, None, calls;
    }
    var fetchCalls;
    permissions, fetchCalls := FetchPolicies(user, iam.userPolicies.value, iam.userPolicy);
    success := permissions.Some?;
    calls := calls + fetchCalls;
  }
}
