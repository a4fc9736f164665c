/** bruteforce_permissions and bruteforce_ec2_permissions: infer allowed actions by trying a
    fixed list of read-only calls, and wrap the ones that succeeded in one synthesized policy. */
module Bruteforce {
  import opened Wrappers
  import opened Cloud

  /** The EC2 probes, in the order they are tried. */
  const Tests: seq<ApiAction> := ["DescribeImages", "DescribeInstances", "DescribeInstanceStatus"]

  /** The policy-language version written into the synthesized document. */
  const PolicyVersion: string := "2012-10-17"

  predicate Distinct<T(==)>(s: seq<T>) {
    forall i, j :: 0 <= i < j < |s| ==> s[i] != s[j]
  }

  /** `r` is `s` with some elements left out, the rest in their original order. */
  ghost predicate SubsequenceOf<T>(r: seq<T>, s: seq<T>)
    decreases |s|
  {
    if r == [] then true
    else if s == [] then false
    else (r[|r| - 1] == s[|s| - 1] && SubsequenceOf(r[..|r| - 1], s[..|s| - 1]))
         || SubsequenceOf(r, s[..|s| - 1])
  }

  /** The actions of `tests` whose probe succeeded, in probe order. */
  function Confirmed(tests: seq<ApiAction>, probe: ApiAction -> Status): (r: seq<ApiAction>)
    ensures forall a :: a in r <==> a in tests && probe(a) == Succeeded
    ensures |r| <= |tests|
  {
    if tests == [] then []
    else
      var init := Confirmed(tests[..|tests| - 1], probe);
      var last := tests[|tests| - 1];
      assert tests == tests[..|tests| - 1] + [last];
      if probe(last) == Succeeded then init + [last] else init
  }

  /** The trace of probe calls for `tests`, one per action, in order. */
  function ProbeCalls(tests: seq<ApiAction>): (calls: seq<Call>)
    ensures |calls| == |tests|
    ensures forall k :: 0 <= k < |tests| ==> calls[k] == Ec2Probe(tests[k])
  {
    if tests == [] then [] else ProbeCalls(tests[..|tests| - 1]) + [Ec2Probe(tests[|tests| - 1])]
  }

  lemma {:induction false} SubsequenceMembers<T>(r: seq<T>, s: seq<T>)
    requires SubsequenceOf(r, s)
    ensures forall x :: x in r ==> x in s
    decreases |s|
  {
    if r != [] {
      assert s != [];
      var t := s[..|s| - 1];
      assert forall x :: x in t ==> x in s;
      if r[|r| - 1] == s[|s| - 1] && SubsequenceOf(r[..|r| - 1], t) {
        SubsequenceMembers(r[..|r| - 1], t);
        assert r == r[..|r| - 1] + [r[|r| - 1]];
      } else {
        SubsequenceMembers(r, t);
      }
    }
  }

  /** The confirmed actions are a subsequence of the probes: order is preserved. */
  lemma {:induction false} ConfirmedIsSubsequence(tests: seq<ApiAction>, probe: ApiAction -> Status)
    ensures SubsequenceOf(Confirmed(tests, probe), tests)
    decreases |tests|
  {
    if tests != [] {
      var t := tests[..|tests| - 1];
      var init := Confirmed(t, probe);
      ConfirmedIsSubsequence(t, probe);
      if probe(tests[|tests| - 1]) == Succeeded {
        var r := init + [tests[|tests| - 1]];
        assert r[..|r| - 1] == init;
      }
    }
  }

  /** The confirmed actions are the ONLY order-preserving selection of distinct probes that holds
      exactly the probes that succeeded. */
  lemma {:induction false} ConfirmedUnique(tests: seq<ApiAction>, probe: ApiAction -> Status, r: seq<ApiAction>)
    requires Distinct(tests) && SubsequenceOf(r, tests)
    requires forall a :: a in r <==> a in tests && probe(a) == Succeeded
    ensures r == Confirmed(tests, probe)
    decreases |tests|
  {
    if tests == [] {
      assert r == [];
    } else {
      var t := tests[..|tests| - 1];
      var last := tests[|tests| - 1];
      assert tests == t + [last];
      assert last !in t;
      assert Distinct(t) by {
        forall i, j | 0 <= i < j < |t| ensures t[i] != t[j] {
          assert t[i] == tests[i] && t[j] == tests[j];
        }
      }
      if probe(last) == Succeeded {
        assert last in r;
        var p := r[..|r| - 1];
        assert r == p + [r[|r| - 1]];
        if r[|r| - 1] == last && SubsequenceOf(p, t) {
          SubsequenceMembers(p, t);
          assert forall a :: a in p <==> a in t && probe(a) == Succeeded by {
            forall a ensures a in p <==> a in t && probe(a) == Succeeded {
              if a in t && probe(a) == Succeeded {
                assert a in r && a != last;
              }
            }
          }
          ConfirmedUnique(t, probe, p);
        } else {
          assert SubsequenceOf(r, t);
          SubsequenceMembers(r, t);
          assert false;
        }
      } else {
        assert last !in r;
        if r != [] {
          assert r[|r| - 1] in r;
        }
        assert SubsequenceOf(r, t);
        ConfirmedUnique(t, probe, r);
      }
    }
  }

  /** Nothing is confirmed exactly when every probe failed. */
  lemma ConfirmedEmpty(tests: seq<ApiAction>, probe: ApiAction -> Status)
    ensures Confirmed(tests, probe) == [] <==> forall k :: 0 <= k < |tests| ==> probe(tests[k]) == Failed
  {
  }

  /** The confirmed list for the fixed EC2 probes, spelled out. */
  lemma ConfirmedTests(probe: ApiAction -> Status)
    ensures Confirmed(Tests, probe) ==
      (if probe(Tests[0]) == Succeeded then [Tests[0]] else []) +
      (if probe(Tests[1]) == Succeeded then [Tests[1]] else []) +
      (if probe(Tests[2]) == Succeeded then [Tests[2]] else [])
  {
  }

  /** The actions a probe group confirmed, the calls it issued and the lines it logged. */
  datatype ProbeReport = ProbeReport(actions: seq<ApiAction>, calls: seq<Call>, log: seq<Message>)

  /** The specification of bruteforce_ec2_permissions. */
  function Ec2Report(ec2: Ec2): (r: ProbeReport)
    // only probes that succeeded are reported, and only after a connection was opened
    ensures forall a :: a in r.actions ==> ec2.connect == Succeeded && a in Tests && ec2.probe(a) == Succeeded
    // at most the one warning is logged
    ensures r.log == [] || r.log == [NothingBruteforced]
  {
    if ec2.connect == Failed then
      ProbeReport([], [Ec2Connect], [])
    else
      var actions := Confirmed(Tests, ec2.probe);
      ProbeReport(actions, [Ec2Connect] + ProbeCalls(Tests), if actions == [] then [NothingBruteforced] else [])
  }

  /** The calls bruteforce_ec2_permissions issues: the connection first; if it fails, no probe;
      otherwise every probe, in order, whatever the earlier ones did. */
  lemma Ec2ProbeCalls(ec2: Ec2)
    ensures Ec2Report(ec2).calls != [] && Ec2Report(ec2).calls[0] == Ec2Connect
    ensures ec2.connect == Failed ==> Ec2Report(ec2).calls == [Ec2Connect]
    ensures ec2.connect == Succeeded ==>
      && |Ec2Report(ec2).calls| == 1 + |Tests|
      && forall k :: 0 <= k < |Tests| ==> Ec2Report(ec2).calls[k + 1] == Ec2Probe(Tests[k])
  {
  }

  /** The actions bruteforce_ec2_permissions confirms: none when the connection fails (and it
      returns before the warning); otherwise exactly the probes that succeeded, in probe order,
      with the warning logged exactly when every probe failed. */
  lemma Ec2ProbeActions(ec2: Ec2)
    ensures ec2.connect == Failed ==> Ec2Report(ec2).actions == [] && Ec2Report(ec2).log == []
    ensures ec2.connect == Succeeded ==>
      && SubsequenceOf(Ec2Report(ec2).actions, Tests)
      && forall a :: a in Ec2Report(ec2).actions <==> a in Tests && ec2.probe(a) == Succeeded
    ensures Ec2Report(ec2).log == [NothingBruteforced] <==>
      ec2.connect == Succeeded && forall k :: 0 <= k < |Tests| ==> ec2.probe(Tests[k]) == Failed
    ensures ec2.connect == Succeeded && Ec2Report(ec2).actions != [] ==> Ec2Report(ec2).log == []
  {
    ConfirmedIsSubsequence(Tests, ec2.probe);
    ConfirmedEmpty(Tests, ec2.probe);
  }

  /** bruteforce_ec2_permissions: connect, then try each probe in turn, keeping those that
      did not raise. */
  method BruteforceEc2(ec2: Ec2) returns (actions: seq<ApiAction>, calls: seq<Call>, log: seq<Message>)
    ensures ProbeReport(actions, calls, log) == Ec2Report(ec2)
  {
    actions, calls, log := [], [Ec2Connect], [];
    if ec2.connect == Failed {
      return;
    }
    for i := 0 to |Tests|
      invariant actions == Confirmed(Tests[..i], ec2.probe)
      invariant calls == [Ec2Connect] + ProbeCalls(Tests[..i])
    {
      var apiAction := Tests[i];
      calls := calls + [Ec2Probe(apiAction)];
      if ec2.probe(apiAction) == Succeeded {
        actions := actions + [apiAction];
      }
      assert Tests[..i + 1][..i] == Tests[..i];
    }
    assert Tests[..|Tests|] == Tests;
    if actions == [] {
      log := [NothingBruteforced];
    }
  }

  /** The probe groups bruteforce_permissions tries, one per service. */
  datatype Service = EC2

  const Bruteforcers: seq<Service> := [EC2]

  function ServiceReport(s: Service, world: World): ProbeReport {
    match s
    case EC2 => Ec2Report(world.ec2)
  }

  method RunBruteforcer(s: Service, world: World) returns (actions: seq<ApiAction>, calls: seq<Call>, log: seq<Message>)
    ensures ProbeReport(actions, calls, log) == ServiceReport(s, world)
  {
    match s
    case EC2 => actions, calls, log := BruteforceEc2(world.ec2);
  }

  /** The reports of `services`, run in order, concatenated. */
  function Gather(services: seq<Service>, world: World): (r: ProbeReport)
    // every gathered action is a probe that succeeded; every group issues at least its connection
    ensures forall a :: a in r.actions ==> a in Tests && world.ec2.probe(a) == Succeeded
    ensures |r.calls| >= |services|
    decreases |services|
  {
    if services == [] then ProbeReport([], [], [])
    else
      var g := Gather(services[..|services| - 1], world);
      var s := ServiceReport(services[|services| - 1], world);
      ProbeReport(g.actions + s.actions, g.calls + s.calls, g.log + s.log)
  }

  /** With EC2 the only probe group, gathering is running the EC2 group. */
  lemma GatherBruteforcers(world: World)
    ensures Gather(Bruteforcers, world) == Ec2Report(world.ec2)
  {
  }

  /** The single document wrapping the confirmed actions. */
  function AllowDocument(actions: seq<ApiAction>): (d: PolicyDocument)
    // a synthesized document, never one fetched from IAM, from which the actions can be read back
    ensures d.Synthesized? && d.statement != [] && d.statement[0].action == actions
  {
    Synthesized(PolicyVersion, [Statement("Allow", actions, "*")])
  }

  /** The documents bruteforce_permissions returns, with the calls issued and the lines logged. */
  datatype BruteReport = BruteReport(permissions: seq<PolicyDocument>, calls: seq<Call>, log: seq<Message>)

  /** The specification of bruteforce_permissions. */
  function BruteforceReport(world: World): (r: BruteReport)
    // at most one document, and none exactly when nothing was confirmed
    ensures |r.permissions| <= 1
    ensures r.permissions == [] <==>
      world.ec2.connect == Failed || forall k :: 0 <= k < |Tests| ==> world.ec2.probe(Tests[k]) == Failed
    ensures r.permissions == [] <==> Ec2Report(world.ec2).actions == []
    // the document allows the confirmed actions on every resource
    ensures forall d :: d in r.permissions ==>
      && d.Synthesized?
      && d.version == "2012-10-17"
      && |d.statement| == 1
      && d.statement[0].effect == "Allow"
      && d.statement[0].resource == "*"
      && d.statement[0].action == Ec2Report(world.ec2).actions
    // the calls and log lines are those of the EC2 probe group
    ensures r.calls == Ec2Report(world.ec2).calls && r.log == Ec2Report(world.ec2).log
  {
    var g := Gather(Bruteforcers, world);
    GatherBruteforcers(world);
    ConfirmedEmpty(Tests, world.ec2.probe);
    BruteReport(if g.actions == [] then [] else [AllowDocument(g.actions)], g.calls, g.log)
  }

  /** bruteforce_permissions: gather the actions of every probe group and wrap them in one
      document when there are any. */
  method BruteforcePermissions(world: World) returns (permissions: seq<PolicyDocument>, calls: seq<Call>, log: seq<Message>)
    ensures BruteReport(permissions, calls, log) == BruteforceReport(world)
  {
    var actionList: seq<ApiAction> := [];
    permissions, calls, log := [], [], [];
    for i := 0 to |Bruteforcers|
      invariant ProbeReport(actionList, calls, log) == Gather(Bruteforcers[..i], world)
    {
      var actions, c, l := RunBruteforcer(Bruteforcers[i], world);
      actionList, calls, log := actionList + actions, calls + c, log + l;
      assert Bruteforcers[..i + 1][..i] == Bruteforcers[..i];
    }
    assert Bruteforcers[..|Bruteforcers|] == Bruteforcers;
    var bruteforced := AllowDocument(actionList);
    if actionList != [] {
      permissions := permissions + [bruteforced];
    }
  }

  /** Exactly two of the three probes succeed (the one at `failed` raised): one document,
      listing those two actions in probe order, and no warning. */
  lemma TwoOfThreeProbes(world: World, failed: nat)
    requires world.ec2.connect == Succeeded && failed < |Tests|
    requires forall k :: 0 <= k < |Tests| ==> (world.ec2.probe(Tests[k]) == Succeeded <==> k != failed)
    ensures BruteforceReport(world).permissions == [AllowDocument(Tests[..failed] + Tests[failed + 1..])]
    ensures BruteforceReport(world).log == []
  {
    var probe := world.ec2.probe;
    var c := Confirmed(Tests, probe);
    var expected := Tests[..failed] + Tests[failed + 1..];
    ConfirmedTests(probe);
    assert c == expected by {
      if failed == 0 {
        assert probe(Tests[0]) == Failed && probe(Tests[1]) == Succeeded && probe(Tests[2]) == Succeeded;
        assert expected == [Tests[1], Tests[2]];
      } else if failed == 1 {
        assert probe(Tests[0]) == Succeeded && probe(Tests[1]) == Failed && probe(Tests[2]) == Succeeded;
        assert expected == [Tests[0], Tests[2]];
      } else {
        assert probe(Tests[0]) == Succeeded && probe(Tests[1]) == Succeeded && probe(Tests[2]) == Failed;
        assert expected == [Tests[0], Tests[1]];
      }
    }
    GatherBruteforcers(world);
    assert Ec2Report(world.ec2).actions == c;
  }
}
