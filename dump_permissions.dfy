/** cmd_handler and print_permissions: try the root check, then IAM introspection, then
    bruteforce, stopping at the first strategy that gives an answer, and log the result. */
module DumpPermissions {
  import opened Wrappers
  import opened Cloud
  import opened RootAccount
  import opened Introspection
  import opened Bruteforce

  /** One info line per document, in order. */
  function ShowEach(docs: seq<PolicyDocument>): (log: seq<Message>)
    ensures |log| == |docs|
    ensures forall i :: 0 <= i < |docs| ==> log[i] == PolicyShown(docs[i])
  {
    if docs == [] then [] else [PolicyShown(docs[0])] + ShowEach(docs[1..])
  }

  /** print_permissions: a single warning for a missing or empty list, otherwise one info line
      per document, in list order. */
  function PrintPermissions(permissions: Option<seq<PolicyDocument>>): (log: seq<Message>)
    ensures permissions.None? || permissions.value == [] ==> log == [NothingDumped]
    ensures permissions.Some? && permissions.value != [] ==>
      && |log| == |permissions.value|
      && forall i :: 0 <= i < |log| ==> log[i] == PolicyShown(permissions.value[i]) && LevelOf(log[i]) == Info
  {
    if permissions.None? || permissions.value == [] then [NothingDumped] else ShowEach(permissions.value)
  }

  /** The three strategies, in the order cmd_handler tries them. */
  datatype Strategy = RootAccountCheck | IamIntrospection | CapabilityBruteforce

  const Strategies: seq<Strategy> := [RootAccountCheck, IamIntrospection, CapabilityBruteforce]

  /** What one run of the sub-command did: the strategies it attempted, the remote calls it
      issued and the lines it logged, each in order. */
  datatype Run = Run(attempted: seq<Strategy>, calls: seq<Call>, log: seq<Message>)

  /** cmd_handler. Introspection follows the intended behaviour of check_via_iam (a failed
      fetch reports failure, so the run falls through to bruteforce). */
  function CmdHandler(creds: Credentials, world: World): (r: Run)
    // the strategies run in the fixed order, each at most once, stopping at the first answer
    ensures r.attempted != [] && r.attempted <= Strategies
    ensures r.attempted == [RootAccountCheck] <==> CheckRootAccount(creds, world.iam).root
    ensures r.attempted == [RootAccountCheck, IamIntrospection] <==>
      !CheckRootAccount(creds, world.iam).root && Introspect(world.iam).success
    // root: only the root check's calls, and only the root line is logged
    ensures CheckRootAccount(creds, world.iam).root ==> r.calls == RootCalls && r.log == [RootDetected]
    // introspection answered: its list is printed, possibly empty, and EC2 is never called
    ensures r.attempted == [RootAccountCheck, IamIntrospection] ==>
      && r.log == PrintPermissions(Introspect(world.iam).permissions)
      && forall c :: c in r.calls ==> !IsEc2Call(c)
    // otherwise bruteforce runs after the other two and its documents are printed
    ensures r.attempted == Strategies ==>
      && r.calls == CheckRootAccount(creds, world.iam).calls + Introspect(world.iam).calls
                    + BruteforceReport(world).calls
      && r.log == BruteforceReport(world).log + PrintPermissions(Some(BruteforceReport(world).permissions))
  {
    var root := CheckRootAccount(creds, world.iam);
    if root.root then
      Run([RootAccountCheck], root.calls, root.log)
    else
      var iam := Introspect(world.iam);
      if iam.success then
        IntrospectCalls(world.iam);
        Run([RootAccountCheck, IamIntrospection], root.calls + iam.calls, PrintPermissions(iam.permissions))
      else
        var brute := BruteforceReport(world);
        Run(Strategies, root.calls + iam.calls + brute.calls, brute.log + PrintPermissions(Some(brute.permissions)))
  }

  /** A temporary credential is never taken for root: the detector issues no call, so the
      run's calls are introspection's, then bruteforce's if it runs. */
  lemma TokenSkipsRootCheck(creds: Credentials, world: World)
    requires HasToken(creds)
    ensures CmdHandler(creds, world).attempted != [RootAccountCheck]
    ensures CmdHandler(creds, world).calls == Introspect(world.iam).calls +
      (if CmdHandler(creds, world).attempted == Strategies then BruteforceReport(world).calls else [])
  {
  }

  /** Whichever strategies run, the first remote call opens an IAM connection. */
  lemma ConnectFirst(creds: Credentials, world: World)
    ensures CmdHandler(creds, world).calls != [] && CmdHandler(creds, world).calls[0] == IamConnect
  {
  }

  /** If an IAM connection cannot be opened, the credentials are not root, introspection fails
      and the run ends with bruteforce, having issued one IAM call per IAM strategy. */
  lemma IamUnreachable(creds: Credentials, world: World)
    requires world.iam.connect == Failed
    ensures !CheckRootAccount(creds, world.iam).root
    ensures !Introspect(world.iam).success && Introspect(world.iam).permissions == None
    ensures CmdHandler(creds, world).attempted == Strategies
    ensures CmdHandler(creds, world).calls ==
      (if HasToken(creds) then [] else [IamConnect]) + [IamConnect] + BruteforceReport(world).calls
  {
  }

  /** A user with no inline policies: introspection still answers, the single warning is
      logged and bruteforce does not run. */
  lemma EmptyPolicyListStops(creds: Credentials, world: World)
    requires !CheckRootAccount(creds, world.iam).root
    requires Listed(world.iam) && world.iam.userPolicies.value == []
    ensures CmdHandler(creds, world).attempted == [RootAccountCheck, IamIntrospection]
    ensures CmdHandler(creds, world).log == [NothingDumped]
    ensures forall c :: c in CmdHandler(creds, world).calls ==> !IsEc2Call(c)
  {
  }

  /** When the run reaches bruteforce and nothing is confirmed (no EC2 connection, or every
      probe raised), no document is logged and the last line is the "nothing dumped" warning. */
  lemma NothingConfirmedWarns(creds: Credentials, world: World)
    requires !CheckRootAccount(creds, world.iam).root && !Introspect(world.iam).success
    requires world.ec2.connect == Failed || forall k :: 0 <= k < |Tests| ==> world.ec2.probe(Tests[k]) == Failed
    ensures var log := CmdHandler(creds, world).log;
      && log != [] && log[|log| - 1] == NothingDumped
      && forall m :: m in log ==> !m.PolicyShown?
  {
  }

  /** When a listed policy cannot be fetched, the intended introspection reports failure with no
      documents and the run falls through to bruteforce; check_via_iam as written raises instead. */
  lemma FetchFailureFallsThrough(creds: Credentials, world: World, name: PolicyName)
    requires !CheckRootAccount(creds, world.iam).root && Listed(world.iam)
    requires name in world.iam.userPolicies.value && world.iam.userPolicy(name).Raised?
    ensures Introspect(world.iam).permissions == None
    ensures CmdHandler(creds, world).attempted == Strategies
    ensures IntrospectAsWritten(world.iam) == Raised
  {
  }

  /** Two of the three probes allowed, after the other strategies failed: exactly one document,
      listing those two actions in probe order, is logged. */
  lemma TwoProbesOneDocument(creds: Credentials, world: World, failed: nat)
    requires !CheckRootAccount(creds, world.iam).root && !Introspect(world.iam).success
    requires world.ec2.connect == Succeeded && failed < |Tests|
    requires forall k :: 0 <= k < |Tests| ==> (world.ec2.probe(Tests[k]) == Succeeded <==> k != failed)
    ensures CmdHandler(creds, world).log == [PolicyShown(AllowDocument(Tests[..failed] + Tests[failed + 1..]))]
  {
    TwoOfThreeProbes(world, failed);
  }
}
