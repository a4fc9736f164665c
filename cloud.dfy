/** The entities the dump-permissions command works with, and the cloud services it talks to,
    each remote call reduced to the outcome it has for the credentials at hand. */
module Cloud {
  import opened Wrappers

  type UserName = string
  type PolicyName = string
  /** An API action name such as "DescribeImages". */
  type ApiAction = string

  /** The credential triple given on the command line. */
  datatype Credentials = Credentials(accessKey: string, secretKey: string, token: Option<string>)

  /** The truth value of `token` in Python: absent and empty tokens are both false. */
  predicate HasToken(c: Credentials): (b: bool)
    // both falsy forms of a token count as none
    ensures c.token == None || c.token == Some("") ==> !b
    ensures c.token.Some? && c.token.value != "" ==> b
  {
    c.token.Some? && c.token.value != ""
  }

  /** One statement of a policy document. */
  datatype Statement = Statement(effect: string, action: seq<ApiAction>, resource: string)

  /** A policy document: either one fetched from IAM, kept opaque (it is only printed), or one
      synthesized from the actions the bruteforcer confirmed. */
  datatype PolicyDocument =
    | Fetched(document: string)
    | Synthesized(version: string, statement: seq<Statement>)

  /** The remote calls the command can issue, in the form they appear in a trace. */
  datatype Call =
    | IamConnect                                  // IAMConnection(...)
    | GetAccountSummary                           // conn.get_account_summary()
    | GetUserFromKey                              // get_user_from_key(conn, access_key)
    | GetCurrentUser                              // get_current_user(conn, access_key)
    | GetAllUserPolicies(user: UserName)          // conn.get_all_user_policies(user)
    | GetUserPolicy(user: UserName, name: PolicyName)  // conn.get_user_policy(user, name)
    | Ec2Connect                                  // EC2Connection(...)
    | Ec2Probe(action: ApiAction)                 // one of the bruteforce probes

  predicate IsEc2Call(c: Call) {
    c.Ec2Connect? || c.Ec2Probe?
  }

  datatype Level = Info | Warning

  /** The log lines the command emits at info or warning level. */
  datatype Message =
    | RootDetected                  // "The provided credentials are for an AWS root account! ..."
    | PolicyShown(doc: PolicyDocument)  // one pretty-printed policy document
    | NothingDumped                 // "No permissions could be dumped."
    | NothingBruteforced            // "No actions could be bruteforced."

  function LevelOf(m: Message): Level {
    match m
    case RootDetected => Info
    case PolicyShown(_) => Info
    case NothingDumped => Warning
    case NothingBruteforced => Warning
  }

  /** How IAM answers each call made with the credentials at hand. */
  datatype Iam = Iam(
    connect: Status,                                   // opening a connection
    accountSummary: Status,                            // the account summary
    keyOwner: Outcome<Option<UserName>>,               // the user owning the access key, if any
    currentUser: Option<UserName>,                     // the calling user, if it can be resolved
    userPolicies: Outcome<seq<PolicyName>>,            // the names of that user's inline policies
    userPolicy: PolicyName -> Outcome<string>)         // each inline policy document, already decoded

  /** How EC2 answers: opening a connection, and each probe by its action name. */
  datatype Ec2 = Ec2(connect: Status, probe: ApiAction -> Status)

  datatype World = World(iam: Iam, ec2: Ec2)
}
