/** check_root_account: the credentials are the root account's exactly when IAM lets them read
    the account summary and enumerate users, and no user owns the access key. */
module RootAccount {
  import opened Wrappers
  import opened Cloud

  /** What the detector decided, the calls it issued in order, and what it logged. */
  datatype RootReport = RootReport(root: bool, calls: seq<Call>, log: seq<Message>)

  /** Every call the detector can issue, in the order it issues them. */
  const RootCalls: seq<Call> := [IamConnect, GetAccountSummary, GetUserFromKey]

  function CheckRootAccount(creds: Credentials, iam: Iam): (r: RootReport)
    // root exactly when there is no token and all three calls succeed without finding an owner
    ensures r.root <==>
      && !HasToken(creds)
      && iam.connect == Succeeded
      && iam.accountSummary == Succeeded
      && iam.keyOwner == Returned(None)
    // a token means no call at all; otherwise the connection is always attempted
    ensures HasToken(creds) <==> r.calls == []
    // each call is issued only once the previous one succeeded
    ensures r.calls <= RootCalls
    ensures GetAccountSummary in r.calls <==> !HasToken(creds) && iam.connect == Succeeded
    ensures GetUserFromKey in r.calls <==>
      !HasToken(creds) && iam.connect == Succeeded && iam.accountSummary == Succeeded
    // the only line logged is the root announcement, and only when root
    ensures r.log == if r.root then [RootDetected] else []
  {
    if HasToken(creds) then
      RootReport(false, [], [])
    else if iam.connect == Failed then
      RootReport(false, [IamConnect], [])
    else if iam.accountSummary == Failed then
      RootReport(false, [IamConnect, GetAccountSummary], [])
    else if iam.keyOwner == Returned(None) then
      assert iam.connect == Succeeded && iam.accountSummary == Succeeded;
      RootReport(true, RootCalls, [RootDetected])
    else
      // the key-owner lookup raised, or found the user owning the key
      RootReport(false, RootCalls, [])
  }
}
