/** The agent's home deployment (agent/src/home.rs): what a persisted home was resolved from, when
    it still answers a configuration, and the resolution that asks for it.
 */
module Home {
  import opened Options

  /** An HTTP(S) origin. */
  datatype Origin = Origin(secure: bool, authority: string)

  datatype JobPolicy = JobPolicy(enabled: set<string>)

  datatype Osquery = Osquery(queries: set<string>, socket: string)

  /** The configuration; `rest` stands for every setting that goes neither into a client nor into a
      job pass. */
  datatype Config = Config(
    rengaUrl: string,
    allowInsecureHttp: bool,
    intakeKey: string,
    installationId: string,
    requestTimeout: nat,
    maxRetryAttempts: nat,
    labels: map<string, string>,
    jobs: JobPolicy,
    osquery: Osquery,
    rest: string)

  /** An origin with the address and identifier that the resolver was asked about. */
  datatype Home = Home(rengaUrl: string, deployment: string, home: Origin, resolvedAt: int)

  // ---------------------------------------------------------------- deployment identifiers

  const INTAKE_KEY_PREFIX := "renga_intake_"
  const SECRET_LENGTH: nat := 43

  predicate IdentifierChar(c: char) {
    'a' <= c <= 'z' || '0' <= c <= '9' || c == '-'
  }

  predicate ValidDeploymentId(id: string) {
    && 1 <= |id| <= 16
    && (forall i | 0 <= i < |id| :: IdentifierChar(id[i]))
    && id[0] != '-' && id[|id| - 1] != '-'
  }

  /** The identifier inside a key. Counting back from the end decides where it stops, since a
      secret of the known length may hold separators of its own. */
  function DeploymentId(key: string): Option<string> {
    var p := |INTAKE_KEY_PREFIX|;
    if |key| < p || key[..p] != INTAKE_KEY_PREFIX then None
    else
      var rest := key[p..];
      if |rest| < SECRET_LENGTH + 1 then None
      else
        var at := |rest| - (SECRET_LENGTH + 1);
        if rest[at] == '_' && ValidDeploymentId(rest[..at]) then Some(rest[..at]) else None
  }

  function Deployment(config: Config): string {
    match DeploymentId(config.intakeKey)
    case Some(id) => id
    case None => ""
  }

  /** Every valid identifier is read back out of the keys issued for it, whatever the secret. */
  lemma DeploymentIdReadsBack(id: string, secret: string)
    requires ValidDeploymentId(id) && |secret| == SECRET_LENGTH
    ensures DeploymentId(INTAKE_KEY_PREFIX + id + "_" + secret) == Some(id)
  {
    var key := INTAKE_KEY_PREFIX + id + "_" + secret;
    var rest := key[|INTAKE_KEY_PREFIX|..];
    assert key[..|INTAKE_KEY_PREFIX|] == INTAKE_KEY_PREFIX;
    assert rest == id + "_" + secret;
    assert rest[..|id|] == id && rest[|id|] == '_';
  }

  /** Between the prefix and a secret of 43 characters stands an identifier exactly when it has one to
      sixteen lower-case letters, digits and dashes, with no dash at either end. */
  lemma IdentifierExactly(id: string, secret: string)
    requires |secret| == 43
    ensures DeploymentId("renga_intake_" + id + "_" + secret).Some? <==>
            && 1 <= |id| <= 16
            && (forall i | 0 <= i < |id| :: 'a' <= id[i] <= 'z' || '0' <= id[i] <= '9' || id[i] == '-')
            && id[0] != '-' && id[|id| - 1] != '-'
    ensures var found := DeploymentId("renga_intake_" + id + "_" + secret); found.Some? ==> found.value == id
  {
    var key := "renga_intake_" + id + "_" + secret;
    var rest := key[|INTAKE_KEY_PREFIX|..];
    assert key[..|INTAKE_KEY_PREFIX|] == INTAKE_KEY_PREFIX;
    assert rest == id + "_" + secret;
    assert rest[..|id|] == id && rest[|id|] == '_';
  }

  // ---------------------------------------------------------------- resolution

  predicate Allowed(origin: Origin, config: Config) {
    origin.secure || config.allowInsecureHttp
  }

  /** Whether a home was resolved for this configuration and may still be sent to. */
  predicate Answers(home: Home, config: Config) {
    home.rengaUrl == config.rengaUrl && home.deployment == Deployment(config) && Allowed(home.home, config)
  }

  /** What the resolver said: an origin and when, or nothing usable. */
  datatype Reply = Reply(origin: Origin, at: int) | NoReply

  /** Asking the configured address; an origin the configuration forbids is refused. */
  function Fetch(config: Config, reply: Reply): Option<Home> {
    if reply.Reply? && Allowed(reply.origin, config)
    then Some(Home(config.rengaUrl, Deployment(config), reply.origin, reply.at))
    else None
  }

  function Persisted(config: Config, file: Option<Home>): Option<Home> {
    if file.Some? && Answers(file.value, config) then file else None
  }

  /** The startup resolution: the persisted home when it answers, and otherwise a fresh reply, which
      is used only once it is persisted. */
  method Resolve(config: Config, file: Option<Home>, reply: Reply, persistOk: bool)
    returns (home: Option<Home>, after: Option<Home>)
    ensures home.Some? ==> Answers(home.value, config) && after == home
    ensures home.None? ==> after == file
    ensures file.Some? && Answers(file.value, config) ==> home == file
    ensures (file.None? || !Answers(file.value, config)) && persistOk ==> home == Fetch(config, reply)
  {
    var known := Persisted(config, file);
    if known.Some? {
      return known, file;
    }
    var fetched := Fetch(config, reply);
    if fetched.None? || !persistOk {
      return None, file;
    }
    return fetched, fetched;
  }

  /** With a key issued for an identifier, a home answers exactly when it was resolved at the same address
      for the same identifier and may be sent to; the home of another identifier never does. What is
      fetched carries the identifier. */
  lemma AnswersItsDeployment(config: Config, home: Home, id: string, secret: string, reply: Reply)
    requires ValidDeploymentId(id) && |secret| == 43 && config.intakeKey == "renga_intake_" + id + "_" + secret
    ensures Answers(home, config) <==>
            && home.rengaUrl == config.rengaUrl
            && home.deployment == id
            && (home.home.secure || config.allowInsecureHttp)
    ensures Fetch(config, reply).Some? <==> reply.Reply? && (reply.origin.secure || config.allowInsecureHttp)
    ensures Fetch(config, reply).Some? ==>
              Fetch(config, reply).value == Home(config.rengaUrl, id, reply.origin, reply.at)
  {
    DeploymentIdReadsBack(id, secret);
  }

  /** A key of another form carries no identifier. */
  lemma NoDeployment(config: Config, home: Home)
    requires |config.intakeKey| < 13 || config.intakeKey[..13] != "renga_intake_"
    ensures Answers(home, config) <==>
            && home.rengaUrl == config.rengaUrl && home.deployment == ""
            && (home.home.secure || config.allowInsecureHttp)
  {
  }

  /** The same agent started with keys of two deployments: the home persisted for one is not used for the
      other, which asks again and gets a home of its own. */
  method ResolveForAnother(
    config: Config, id: string, other: string, secret: string, home: Home, reply: Reply)
    returns (resolved: Option<Home>)
    requires ValidDeploymentId(id) && ValidDeploymentId(other) && id != other && |secret| == 43
    requires config.intakeKey == "renga_intake_" + other + "_" + secret && home.deployment == id
    ensures resolved.Some? <==> reply.Reply? && (reply.origin.secure || config.allowInsecureHttp)
    ensures resolved.Some? ==> resolved.value == Home(config.rengaUrl, other, reply.origin, reply.at)
  {
    AnswersItsDeployment(config, home, other, secret, reply);
    var after;
    resolved, after := Resolve(config, Some(home), reply, true);
  }
}
