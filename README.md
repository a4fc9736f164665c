# dump-permissions, modelled in Dafny

This project models the `dump-permissions` sub-command of nimbostratus. The command works out
what a set of AWS credentials may do. It tries three strategies in a fixed order and stops at
the first one that gives an answer:

1. The root-account check: the credentials are root when IAM lets them read the account summary
   and enumerate users, and no user owns the access key.
2. IAM introspection: fetch the calling user's inline policies, all or nothing.
3. Capability bruteforce: try three read-only EC2 calls. The ones that succeed are wrapped in one
   synthesized `Allow` policy document.

Every remote call is replaced by an abstract outcome that is part of the input. The call either
returned (with its value) or raised. The `World` record in `cloud.dfy` gathers these outcomes.
The model returns what the command can be observed to do:
- which strategies it attempted;
- the remote calls it issued, in order;
- the info and warning lines it logged, in order.

Files and modules:
- `wrappers.dfy` (`Wrappers`): `Option`, `Status` (a call that returns nothing of interest) and
  `Outcome` (a call that returns a value or raises).
- `cloud.dfy` (`Cloud`): the entities and the services:
  - credentials, policy documents, the trace of calls and the log messages;
  - `Iam` and `Ec2`: how each service answers each call.
- `root_account.dfy` (`RootAccount`): `check_root_account`, a pure decision.
- `introspection.dfy` (`Introspection`): `check_via_iam`:
  - `Introspect`, its specification;
  - `FetchAll`, the all-or-nothing fetch of the listed policies;
  - the methods `FetchPolicies` and `CheckViaIam`, which have the source's loop;
  - `IntrospectAsWritten`, the function as written (see Findings).
- `bruteforce.dfy` (`Bruteforce`): `bruteforce_ec2_permissions` and `bruteforce_permissions`:
  - their specifications (`Ec2Report`, `BruteforceReport`);
  - the loop methods `BruteforceEc2` and `BruteforcePermissions`;
  - the probe filter `Confirmed` and its characterisation as the unique order-preserving
    selection of the probes that succeeded.
- `dump_permissions.dfy` (`DumpPermissions`): `print_permissions` and `cmd_handler`, with lemmas
  relating the strategies.

Each loop method is proved equal to its specification function. The properties are proved about
those functions. `CmdHandler` is built from them.

## Model

| member | source | states |
|---|---|---|
| `RootAccount.CheckRootAccount` | core/dump_permissions/command.py:154-199 | Root exactly when there is no (truthy) token and connect, account summary and key-owner lookup all succeed with no owning user. A token means no call at all. Calls are a prefix of connect, summary, lookup, and each is issued only after the previous one succeeded. Only the root line is logged, and only when root. |
| `Cloud.HasToken` | core/dump_permissions/command.py:162 | Python's truth value of the token: a token counts exactly when it is present and non-empty, so an absent token and an empty one both count as none. |
| `Introspection.Introspect` | core/dump_permissions/command.py:109-151 | The intended `check_via_iam`, where a failed fetch returns `(False, None)`. It reports success exactly when it hands back documents. Its promises are stated by `IntrospectOutcome` and `IntrospectCalls`. |
| `Introspection.FetchAll` | core/dump_permissions/command.py:138-149 | The documents exist exactly when every listed policy can be fetched. They are then one per name, in listing order. No more fetches are issued than there are names, and all of them on success. On failure the last fetch issued is the first that raised. |
| `Introspection.FetchAllCalls` | core/dump_permissions/command.py:138-140 | The i-th fetch issued is the fetch of the i-th listed name, for the calling user: the fetches are a prefix of the listing, in order. |
| `Introspection.FirstRaise` | core/dump_permissions/command.py:138-144 | When `names[i]` is the first fetch that raises, the result is failure after exactly `i + 1` fetches. |
| `Introspection.FetchPolicies` | core/dump_permissions/command.py:136-149 | The loop over the policy names gives the documents and calls that `FetchAll` specifies. |
| `Introspection.CheckViaIam` | core/dump_permissions/command.py:109-151 | The method's success flag, documents and calls equal the intended specification `Introspect`. |
| `Introspection.IntrospectOutcome` | core/dump_permissions/command.py:113-151 | Success exactly when connect, user resolution, listing and every fetch succeed. On failure there are no documents: no partial results. On success there is one document per policy name, in listing order, even when there are no names. |
| `Introspection.IntrospectCalls` | core/dump_permissions/command.py:113-140 | Introspection opens the IAM connection first and calls nothing but IAM. Each early return cuts the trace: a failed connection is the only call; an unresolved user ends it after the user lookup; a failed listing ends it after the listing, before any policy fetch. |
| `Introspection.IntrospectAsWritten` | core/dump_permissions/command.py:109-151 | `check_via_iam` as written, branch by branch: each early `return False, None`, the fetch loop, and the raise out of the handler at line 143. Whenever it returns, success matches the presence of documents. It can raise only after the names have been listed. |
| `Introspection.AsWrittenRaisesOnFetchFailure` | core/dump_permissions/command.py:109-151 | Relates the as-written and intended definitions. As written, the function raises exactly when everything up to the listing succeeds and some listed policy cannot be fetched. On every other input it returns what the intended version returns. |
| `Introspection.FetchDeniedExample` | core/dump_permissions/command.py:139-144 | Input: user `alice` with one policy whose fetch is denied. As written this raises. As intended it reports failure with no documents after four calls. |
| `Bruteforce.Confirmed` | core/dump_permissions/command.py:95-102 | An action is confirmed exactly when it is one of the probes and its probe succeeded. There are never more confirmed actions than probes. |
| `Bruteforce.ProbeCalls` | core/dump_permissions/command.py:95-97 | One probe call per action, in probe order. |
| `Bruteforce.SubsequenceMembers` | core/dump_permissions/command.py:95-102 | A helper of `ConfirmedUnique`, not a statement about the source on its own: every element of a subsequence is an element of the sequence. |
| `Bruteforce.ConfirmedIsSubsequence` | core/dump_permissions/command.py:95-102 | The confirmed actions are a subsequence of the probes, so probe order is preserved. |
| `Bruteforce.ConfirmedUnique` | core/dump_permissions/command.py:95-102 | Take any order-preserving selection of distinct probes that holds exactly the successful ones. That selection is the confirmed list. |
| `Bruteforce.ConfirmedEmpty` | core/dump_permissions/command.py:95-105 | Nothing is confirmed exactly when every probe failed. |
| `Bruteforce.ConfirmedTests` | core/dump_permissions/command.py:92-102 | For the fixed probes DescribeImages, DescribeInstances, DescribeInstanceStatus, the confirmed list is each successful one, in that order. |
| `Bruteforce.Ec2Report` | core/dump_permissions/command.py:81-107 | The specification of `bruteforce_ec2_permissions`. Every reported action is a probe that succeeded after the connection was opened. At most the one warning is logged. `Ec2ProbeCalls` and `Ec2ProbeActions` state the rest. |
| `Bruteforce.Ec2ProbeCalls` | core/dump_permissions/command.py:84-97 | The EC2 connection is attempted first. If it fails, no probe is issued. Otherwise all three probes are issued in order, whatever the earlier ones did. |
| `Bruteforce.Ec2ProbeActions` | core/dump_permissions/command.py:84-107 | If the connection fails, nothing is confirmed and nothing is logged. Otherwise the confirmed actions are an order-preserving selection holding exactly the successful probes. The "no actions" warning is logged exactly when the connection succeeded and every probe failed. Some action confirmed means nothing logged. |
| `Bruteforce.BruteforceEc2` | core/dump_permissions/command.py:81-107 | The loop method's actions, calls and log equal the specification `Ec2Report`. |
| `Bruteforce.RunBruteforcer` | core/dump_permissions/command.py:66-69 | Running one registered bruteforcer gives that service's report. |
| `Bruteforce.Gather` | core/dump_permissions/command.py:66-69 | The in-order concatenation of each registered group's report (actions, calls and log), as the `extend` at line 69 accumulates them. Its own contract states only that every gathered action is a probe that succeeded and that each group issues at least its connection call. `GatherBruteforcers` pins it down for the one-entry registry. |
| `Bruteforce.AllowDocument` | core/dump_permissions/command.py:71-74 | The synthesized document, never a fetched one. The confirmed actions can be read back from its first statement. |
| `Bruteforce.GatherBruteforcers` | core/dump_permissions/command.py:66-69 | With EC2 the only registered bruteforcer, the gathered actions, calls and log are those of the EC2 bruteforcer. |
| `Bruteforce.BruteforceReport` | core/dump_permissions/command.py:63-79 | There is at most one document. There is none exactly when the EC2 connection failed or every probe failed, that is, exactly when no action was confirmed. The document has version `2012-10-17` and a single statement: effect `Allow`, resource `*`, action list equal to the confirmed actions. |
| `Bruteforce.BruteforcePermissions` | core/dump_permissions/command.py:54-79 | The loop over the registered bruteforcers gives the documents, calls and log that `BruteforceReport` specifies. |
| `Bruteforce.TwoOfThreeProbes` | core/dump_permissions/command.py:63-102 | If exactly one of the three probes raises, the result is exactly one document listing the other two actions, in probe order. |
| `DumpPermissions.ShowEach` | core/dump_permissions/command.py:51-52 | One info line per document, the i-th showing the i-th document. |
| `DumpPermissions.PrintPermissions` | core/dump_permissions/command.py:46-52 | A missing or empty list gives exactly one "nothing dumped" warning. Otherwise there is one info line per document, in list order, and nothing else. |
| `DumpPermissions.CmdHandler` | core/dump_permissions/command.py:23-44 | Strategies run in the order root, IAM, bruteforce, each at most once, and the run stops at the first answer. Root: only the root check's calls and the root line. IAM success: its list is printed, even when empty, and EC2 is never called. Otherwise bruteforce runs after both and its result is printed. |
| `DumpPermissions.TokenSkipsRootCheck` | core/dump_permissions/command.py:162-164 | With a token the run is never root. Its calls begin with introspection's. |
| `DumpPermissions.ConnectFirst` | core/dump_permissions/command.py:32-37 | Whatever happens, the first remote call opens an IAM connection. |
| `DumpPermissions.IamUnreachable` | core/dump_permissions/command.py:113-120 | If IAM connect fails, the credentials are not root and introspection fails. The run ends with bruteforce, after one IAM connect per IAM strategy. |
| `DumpPermissions.EmptyPolicyListStops` | core/dump_permissions/command.py:37-48 | A user with no inline policies gets only the "nothing dumped" warning, and bruteforce never runs. |
| `DumpPermissions.NothingConfirmedWarns` | core/dump_permissions/command.py:43-48 | If bruteforce runs and confirms nothing, no document is logged and the last line is the "nothing dumped" warning. |
| `DumpPermissions.FetchFailureFallsThrough` | core/dump_permissions/command.py:138-144 | A listed policy that cannot be fetched makes intended introspection fail with no documents, so the run falls through to bruteforce. As written, the same input raises. |
| `DumpPermissions.TwoProbesOneDocument` | core/dump_permissions/command.py:43-52 | If the run reaches bruteforce and two of three probes succeed, the whole log is one info line. That line shows the single document listing those two actions in probe order. |

## Left out

- The boto `IAMConnection` and `EC2Connection` clients and every remote call. Each is an abstract
  outcome in `Cloud.World`. Exception details (`e.error_message`) and the kind of error are not
  kept: every exception is modelled as the call raising.
- An exception without an `error_message` attribute is not modelled. Examples are a socket
  error during a probe or a connection attempt. The handlers at lines 89, 99, 118, 131, 172, 180
  and 188 read that attribute, so such an exception would make the handler itself raise
  `AttributeError` out of the command.
- Each call is assumed to answer the same way every time it is made. So the two IAM connection
  attempts (root check and introspection) share one outcome.
- `get_current_user` and `get_user_from_key` are not part of this model; `core/utils` is not
  available. The key-owner lookup is an outcome that raises or yields an optional user. The
  current-user lookup yields an optional user. An exception it might raise is not modelled,
  because it is called outside any `try` and its source is not available.
- Percent-decoding and JSON parsing of fetched policies (`urllib.unquote`, `json.loads`). IAM
  answers a fetch with the document text, which the model wraps as the opaque value
  `Fetched(document)`; a fetch can never yield a synthesized document. A decoding failure, which would
  raise out of `check_via_iam`, is not modelled. The round trip through decoding is not stated.
- Indexing the raw IAM responses (`['list_user_policies_response']...`) is folded into the call
  outcomes. A `KeyError` from a malformed response is not modelled.
- Debug-level log lines are not modelled. Info and warning lines are modelled by kind, count and
  order, not by their text or the `pprint` formatting.
- `cmd_arguments`, `add_credential_arguments` and argparse wiring are CLI plumbing. The access and
  secret keys are carried in `Credentials` but only the token is inspected. Python's `if token:`
  treats both `None` and `""` as no token (`HasToken`).
- Introspection.FetchPolicies: the `for` loop of `check_via_iam` is a method of its own that
  `CheckViaIam` calls. A fetch failure there makes `check_via_iam` as a whole return
  `(False, None)`, as line 144 intends. As written, line 143 raises instead (see Findings).
- DumpPermissions.CmdHandler: the run follows the corrected `check_via_iam`, as do `FetchAll`,
  `FetchPolicies` and `CheckViaIam`. As written, a failed fetch of a listed policy raises out of
  `cmd_handler`, so bruteforce never runs. The model falls through to bruteforce instead.
  `IntrospectAsWritten` alone models the source's behaviour here.
- Bruteforce.BruteforceReport: the action names in the synthesized document are the bare names
  the code appends ("DescribeImages", without an "ec2:" service prefix). The model keeps them
  as written.

## Findings

| source | as written | input that shows it | evidently intended | confidence | as-written member | corrected member |
|---|---|---|---|---|---|---|
| core/dump_permissions/command.py:141-144 | The bare `except:` formats `e.error_message`. No statement executed in `check_via_iam` has bound `e`, so Python 2 raises `UnboundLocalError`. The exception escapes `check_via_iam` and `cmd_handler`, so bruteforce never runs. | IAM connect, user resolution and listing succeed. The listing holds `ReadOnly`. Fetching `ReadOnly` is denied. | Return `(False, None)`, discarding the documents gathered so far, so `cmd_handler` falls through to bruteforce. | high, not executed | `Introspection.FetchDeniedExample` | `Introspection.IntrospectOutcome` |

`Introspection.AsWrittenRaisesOnFetchFailure` states the discrepancy for all inputs.
`DumpPermissions.FetchFailureFallsThrough` proves that, with the corrected behaviour, the run
reaches bruteforce. `CmdHandler` uses the corrected behaviour (`Introspect`).
