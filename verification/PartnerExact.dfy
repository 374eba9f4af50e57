/** Exactly when each partner operation succeeds, with which error it is refused otherwise, and what
    the node table then holds; all told from the steps of the run. */
module PartnerExact {
  import opened Options
  import opened PartnerTables
  import opened PartnerHistory
  import opened PartnerLaws
  import opened PartnerStories

  // ----- the life of a node

  /** The node of `partner` and `domain` after `steps`, as the successful steps made it. */
  function Life(steps: seq<Step>, partner: string, domain: string): Option<Node> {
    if steps == [] then None
    else
      var n := |steps| - 1;
      var before := Life(steps[..n], partner, domain);
      if Answer(steps, n).Refused? then before else Lived(before, steps[n], partner, domain)
  }

  /** What one successful step does to it. */
  function Lived(before: Option<Node>, step: Step, partner: string, domain: string): Option<Node> {
    match step
    case RegisterStep(_, req, clock) =>
      if req.partner != partner || req.domain != domain then before
      else if before.Some? then Some(before.value.(publicIp := req.ip, lastSeenAt := clock.db))
      else
        Some(Node(partner + "-" + req.hex, partner, domain, "api-" + req.hex, req.ip, clock.db, clock.db))
    case DeactivateStep(nodeId) => if before.Some? && before.value.nodeId == nodeId then None else before
    case _ => before
  }

  function NodeOf(nodes: seq<Node>, partner: string, domain: string): Option<Node> {
    var i := Find(nodes, IsRow(partner, domain));
    if i < |nodes| then Some(nodes[i]) else None
  }

  lemma NodeOfIsMember(nodes: seq<Node>, n: Node, partner: string, domain: string)
    requires NodesGood(nodes)
    ensures NodeOf(nodes, partner, domain) == Some(n) <==> n in nodes && n.partner == partner && n.domain == domain
  {
    var p := IsRow(partner, domain);
    var i := Find(nodes, p);
    if i < |nodes| {
      assert p(nodes[i]);
    }
    if n in nodes && n.partner == partner && n.domain == domain {
      var k :| 0 <= k < |nodes| && nodes[k] == n;
      assert p(nodes[k]);
    }
  }

  /** Two tables that hold the same rows of a partner and domain have the same one. */
  lemma SameMembersSameNode(nodes: seq<Node>, nodes': seq<Node>, partner: string, domain: string)
    requires NodesGood(nodes) && NodesGood(nodes')
    requires forall n: Node | n.partner == partner && n.domain == domain :: n in nodes <==> n in nodes'
    ensures NodeOf(nodes', partner, domain) == NodeOf(nodes, partner, domain)
  {
    hide NodesGood;
    var (before, after) := (NodeOf(nodes, partner, domain), NodeOf(nodes', partner, domain));
    hide NodeOf;
    if before.Some? {
      NodeOfIsMember(nodes, before.value, partner, domain);
      NodeOfIsMember(nodes', before.value, partner, domain);
    }
    if after.Some? {
      NodeOfIsMember(nodes, after.value, partner, domain);
      NodeOfIsMember(nodes', after.value, partner, domain);
    }
  }

  lemma UpsertLives(nodes: seq<Node>, req: Request, clock: Clock, env: Env, partner: string, domain: string)
    requires NodesGood(nodes) && Upsert(nodes, req, clock.db).Some?
    ensures NodeOf(Upsert(nodes, req, clock.db).value.0, partner, domain) ==
              Lived(NodeOf(nodes, partner, domain), RegisterStep(env, req, clock), partner, domain)
    ensures NodeOf(Upsert(nodes, req, clock.db).value.0, req.partner, req.domain) ==
              Some(Upsert(nodes, req, clock.db).value.1)
  {
    var (nodes', node) := Upsert(nodes, req, clock.db).value;
    UpsertKeepsNodes(nodes, req, clock.db);
    var i := Find(nodes, IsRow(req.partner, req.domain));
    assert i < |nodes| ==> IsRow(req.partner, req.domain)(nodes[i]);
    assert nodes'[i] == node && node in nodes';
    NodeOfIsMember(nodes', node, req.partner, req.domain);
    hide NodesGood;
    if req.partner != partner || req.domain != domain {
      forall n: Node | n.partner == partner && n.domain == domain ensures n in nodes <==> n in nodes' {
        if n in nodes {
          var k :| 0 <= k < |nodes| && nodes[k] == n;
          assert nodes'[k] == n;
        }
      }
      SameMembersSameNode(nodes, nodes', partner, domain);
    }
  }

  lemma DeletedRows(nodes: seq<Node>, i: nat, n: Node)
    requires NodesGood(nodes) && i < |nodes|
    ensures n in nodes[..i] + nodes[i + 1..] <==> n in nodes && n != nodes[i]
  {
    var rest := nodes[..i] + nodes[i + 1..];
    assert forall j | 0 <= j < |rest| :: rest[j] == nodes[if j < i then j else j + 1];
    if n in nodes && n != nodes[i] {
      var k :| 0 <= k < |nodes| && nodes[k] == n;
      assert rest[if k < i then k else k - 1] == n;
    }
  }

  lemma DeletedNode(nodes: seq<Node>, i: nat, partner: string, domain: string)
    requires NodesGood(nodes) && i < |nodes|
    ensures NodeOf(nodes[..i] + nodes[i + 1..], partner, domain) ==
      if NodeOf(nodes, partner, domain) == Some(nodes[i]) then None else NodeOf(nodes, partner, domain)
  {
    var rest := nodes[..i] + nodes[i + 1..];
    var (before, after) := (NodeOf(nodes, partner, domain), NodeOf(rest, partner, domain));
    DeleteKeepsNodes(nodes, i);
    hide NodesGood, NodeOf;
    if after.Some? {
      NodeOfIsMember(rest, after.value, partner, domain);
      NodeOfIsMember(nodes, after.value, partner, domain);
      DeletedRows(nodes, i, after.value);
    }
    if before.Some? {
      NodeOfIsMember(nodes, before.value, partner, domain);
      DeletedRows(nodes, i, before.value);
      NodeOfIsMember(rest, before.value, partner, domain);
    }
  }

  lemma DeleteLives(nodes: seq<Node>, nodeId: string, partner: string, domain: string)
    requires NodesGood(nodes) && Find(nodes, HasNodeId(nodeId)) < |nodes|
    ensures var i := Find(nodes, HasNodeId(nodeId));
      NodeOf(nodes[..i] + nodes[i + 1..], partner, domain) ==
        Lived(NodeOf(nodes, partner, domain), DeactivateStep(nodeId), partner, domain)
  {
    hide NodesGood, NodeOf, Find;
    var i := Find(nodes, HasNodeId(nodeId));
    assert HasNodeId(nodeId)(nodes[i]);
    DeletedNode(nodes, i, partner, domain);
    var before := NodeOf(nodes, partner, domain);
    if before.Some? {
      NodeOfIsMember(nodes, before.value, partner, domain);
      SameIdSameRow(nodes, nodes[i], before.value);
    }
  }

  lemma SameIdSameRow(nodes: seq<Node>, a: Node, b: Node)
    requires NodesGood(nodes) && a in nodes && b in nodes
    ensures a.nodeId == b.nodeId <==> a == b
  {}

  lemma StepLives(db: Db, step: Step, partner: string, domain: string)
    requires NodesGood(db.nodes) && Apply(db, step).1.Done?
    ensures NodeOf(Apply(db, step).0.nodes, partner, domain) ==
              Lived(NodeOf(db.nodes, partner, domain), step, partner, domain)
  {
    hide NodesGood, Upsert, Lived, NodeOf, Find, IsPartnerId, Misconfigured, Rejected;
    match step
    case RegisterStep(env, req, clock) =>
      RegisterUpserts(db, env, req, clock);
      UpsertLives(db.nodes, req, clock, env, partner, domain);
    case DeactivateStep(nodeId) =>
      DeleteLives(db.nodes, nodeId, partner, domain);
    case _ =>
      OthersLeaveNodes(db, step);
      OthersLive(NodeOf(db.nodes, partner, domain), step, partner, domain);
  }

  lemma OthersLeaveNodes(db: Db, step: Step)
    requires step.IssueStep? || step.RevokeStep?
    ensures Apply(db, step).0.nodes == db.nodes
  {
    hide IsPartnerId, Find;
  }

  lemma OthersLive(before: Option<Node>, step: Step, partner: string, domain: string)
    requires step.IssueStep? || step.RevokeStep?
    ensures Lived(before, step, partner, domain) == before
  {}

  /** In every reachable state the row of a partner and domain is what the successful steps made of it:
      its id and subdomain and the time of its registration come from the registration that created it,
      its address and the time it was last seen from the latest one. */
  lemma {:induction false} NodesLive(steps: seq<Step>, partner: string, domain: string)
    ensures NodeOf(After(steps).db.nodes, partner, domain) == Life(steps, partner, domain)
  {
    if steps != [] {
      var n := |steps| - 1;
      assert steps == steps[..n] + [steps[n]];
      NodesLive(steps[..n], partner, domain);
      RunsAreGood(steps[..n]);
      AfterOneMore(steps[..n], steps[n]);
      var db := After(steps[..n]).db;
      hide Apply, NodesGood, NodeOf, Lived;
      if Apply(db, steps[n]).1.Done? {
        StepLives(db, steps[n], partner, domain);
      } else {
        RefusalsKeepTables(db, steps[n]);
      }
    }
  }

  // ----- issuing

  /** A token with this id or this hash has been issued. */
  ghost predicate Clashes(steps: seq<Step>, id: Uuid, hash: string) {
    exists token: Token :: WasIssued(steps, token) && (token.id == id || token.hash == hash)
  }

  lemma ClashesInTable(steps: seq<Step>, id: Uuid, hash: string)
    ensures var tokens := After(steps).db.tokens;
      Clashes(steps, id, hash) <==> exists t :: 0 <= t < |tokens| && (tokens[t].id == id || tokens[t].hash == hash)
  {
    TablesTell(steps);
    var tokens := After(steps).db.tokens;
    hide WasIssued, After, WasRevoked, WasUsed, TellsRevocation, TellsUse;
    if Clashes(steps, id, hash) {
      var token :| WasIssued(steps, token) && (token.id == id || token.hash == hash);
      var t :| 0 <= t < |tokens| && SameToken(tokens[t], token);
    }
    if t :| 0 <= t < |tokens| && (tokens[t].id == id || tokens[t].hash == hash) {
      assert Tells(tokens[t], steps);
    }
  }

  /** In every reachable state: a token is issued if and only if the partner id has its form, the
      validity is a duration of 1 to 90 days, and neither the id nor the hash is that of a token that
      was issued before; else the first of these that fails is the error. It expires that long after
      the moment of its issue, and no row is lost or changed. */
  lemma IssueIsExact(steps: seq<Step>, step: Step)
    requires step.IssueStep?
    ensures AnswerTo(steps, step).Done? <==>
      && IsPartnerId(step.partner)
      && step.validFor.Some? && 86_400 <= step.validFor.value <= 7_776_000
      && !Clashes(steps, step.id, step.hash)
    ensures AnswerTo(steps, step) == Refused(InvalidPartner) <==> !IsPartnerId(step.partner)
    ensures AnswerTo(steps, step) == Refused(InvalidDuration) <==>
      IsPartnerId(step.partner) && !(step.validFor.Some? && 86_400 <= step.validFor.value <= 7_776_000)
    ensures AnswerTo(steps, step).Done? ==>
      var (before, after) := (After(steps).db.tokens, After(steps + [step]).db.tokens);
      && AnswerTo(steps, step) == Done(Issued(|before|)) && |after| == |before| + 1 && before <= after
      && after[|before|].partner == step.partner && after[|before|].hash == step.hash
      && after[|before|].id == step.id && after[|before|].expiresAt == step.clock.server + step.validFor.value
  {
    ClashesInTable(steps, step.id, step.hash);
    AfterOneMore(steps, step);
    var tokens := After(steps).db.tokens;
    assert forall t | 0 <= t < Find(tokens, HasHash(step.hash)) :: !HasHash(step.hash)(tokens[t]);
    assert forall t | 0 <= t < Find(tokens, HasId(step.id)) :: !HasId(step.id)(tokens[t]);
    assert forall t | 0 <= t < |tokens| :: HasHash(step.hash)(tokens[t]) <==> tokens[t].hash == step.hash;
    assert forall t | 0 <= t < |tokens| :: HasId(step.id)(tokens[t]) <==> tokens[t].id == step.id;
    hide IsPartnerId, Clashes, After;
  }

  /** The form of a partner id: 3 to 32 small letters, digits and hyphens, a hyphen at neither end. */
  lemma PartnerIdForm(s: string)
    ensures IsPartnerId(s) <==>
      && 3 <= |s| <= 32 && s[0] != '-' && s[|s| - 1] != '-'
      && forall i | 0 <= i < |s| :: 'a' <= s[i] <= 'z' || '0' <= s[i] <= '9' || s[i] == '-'
  {
    if 3 <= |s| <= 32 {
      assert s[0] != '-' ==> (IsPartnerChar(s[0]) || s[0] == '-') == IsPartnerChar(s[0]);
    }
  }

  // ----- revoking

  ghost predicate IdWasIssued(steps: seq<Step>, id: Uuid) {
    exists token: Token :: WasIssued(steps, token) && token.id == id
  }

  lemma IssuedIsInTable(steps: seq<Step>, token: Token) returns (t: nat)
    requires WasIssued(steps, token)
    ensures t < |After(steps).db.tokens| && SameToken(After(steps).db.tokens[t], token)
    ensures Tells(After(steps).db.tokens[t], steps)
    ensures HasId(token.id)(After(steps).db.tokens[t]) && HasHash(token.hash)(After(steps).db.tokens[t])
    ensures Find(After(steps).db.tokens, HasId(token.id)) == t == Find(After(steps).db.tokens, HasHash(token.hash))
  {
    TablesTell(steps);
    var tokens := After(steps).db.tokens;
    hide WasIssued, After, WasRevoked, WasUsed, TellsRevocation, TellsUse, Find, IsPartnerId;
    assert Listed(tokens, token);
    t :| t < |tokens| && SameToken(tokens[t], token);
    assert HasId(token.id)(tokens[t]) && HasHash(token.hash)(tokens[t]);
    var (i, h) := (Find(tokens, HasId(token.id)), Find(tokens, HasHash(token.hash)));
    assert HasId(token.id)(tokens[i]) && HasHash(token.hash)(tokens[h]);
  }

  /** In every reachable state: a token is revoked if and only if the id parses and is that of a token
      that was issued and has not been revoked, whether it has been used or not. */
  lemma RevocationIsExact(steps: seq<Step>, step: Step)
    requires step.RevokeStep?
    ensures AnswerTo(steps, step).Done? <==>
      step.uuid.Some? && IdWasIssued(steps, step.uuid.value) && !WasRevoked(steps, step.uuid.value)
    ensures AnswerTo(steps, step) == Refused(InvalidUuid) <==> step.uuid.None?
    ensures AnswerTo(steps, step).Refused? && step.uuid.Some? ==> AnswerTo(steps, step) == Refused(NotFoundOrRevoked)
  {
    if step.uuid.Some? {
      var (id, tokens) := (step.uuid.value, After(steps).db.tokens);
      var f := Find(tokens, HasId(id));
      if token: Token :| WasIssued(steps, token) && token.id == id {
        var t := IssuedIsInTable(steps, token);
        assert f == t;
      }
      if f < |tokens| {
        TablesTell(steps);
        assert HasId(id)(tokens[f]) && Tells(tokens[f], steps);
        assert IdWasIssued(steps, id);
      }
      hide WasIssued, After, WasRevoked, TellsUse, TableTells, TokensGood;
    }
  }

  /** Once it has been revoked, used or not, a token registers nobody any more. */
  lemma RevokedTokensAreRefused(steps: seq<Step>, token: Token, j: nat, step: Step)
    requires WasIssued(steps, token) && RevokedBy(steps, j, token.id) && Spends(step, token.hash)
    ensures AnswerTo(steps, step).Refused?
  {
    var t := IssuedIsInTable(steps, token);
    assert WasRevoked(steps, token.id);
    hide WasIssued, After, WasRevoked, TellsUse, Misconfigured, Upsert;
  }

  // ----- registering

  /** Another domain of the partner lives under the random digits of the request, whose own does not live. */
  ghost predicate DigitsLive(steps: seq<Step>, req: Request) {
    && Life(steps, req.partner, req.domain).None?
    && exists domain: string ::
         Life(steps, req.partner, domain).Some? && Life(steps, req.partner, domain).value.subdomain == "api-" + req.hex
  }

  lemma DigitsAreTaken(steps: seq<Step>, req: Request)
    ensures DigitsTaken(After(steps), req) <==> DigitsLive(steps, req)
  {
    RunsAreGood(steps);
    var (h, nodes) := (After(steps), After(steps).db.nodes);
    NodesLive(steps, req.partner, req.domain);
    assert RowOf(nodes, req.partner, req.domain) == LastNode(h.log, req.partner, req.domain);
    hide Good, After, LastNode, Life;
    if DigitsTaken(h, req) {
      var i :| 0 <= i < |nodes| && nodes[i].partner == req.partner && nodes[i].subdomain == SubdomainFor(req.hex);
      NodesLive(steps, req.partner, nodes[i].domain);
      NodesAreGood(h);
      NodeOfIsMember(nodes, nodes[i], req.partner, nodes[i].domain);
      assert Life(steps, req.partner, nodes[i].domain) == Some(nodes[i]);
    }
    if DigitsLive(steps, req) {
      var domain :| Life(steps, req.partner, domain).Some?
        && Life(steps, req.partner, domain).value.subdomain == "api-" + req.hex;
      NodesLive(steps, req.partner, domain);
      NodesAreGood(h);
      NodeOfIsMember(nodes, Life(steps, req.partner, domain).value, req.partner, domain);
    }
  }

  lemma NodesAreGood(h: History)
    requires Good(h)
    ensures NodesGood(h.db.nodes)
  {}

  /** What the server must be configured with: Reality, a TURN secret, and a backend endpoint that is a
      host and a port with a colon between them. */
  predicate Configured(env: Env) {
    && env.reality
    && env.turnSecret.Some? && env.turnSecret.value != ""
    && env.backendEndpoint.Some?
    && var s := env.backendEndpoint.value;
       s != "" && s[0] != ':' && s[|s| - 1] != ':' && exists i :: 0 <= i < |s| && s[i] == ':'
  }

  lemma ConfiguredExactly(env: Env)
    ensures Misconfigured(env).None? <==> Configured(env)
    ensures Misconfigured(env) == Some(RealityNotConfigured) <==> !env.reality
    ensures Misconfigured(env) == Some(TurnNotConfigured) <==>
      env.reality && (env.turnSecret == None || env.turnSecret == Some(""))
  {}

  /** In every reachable state: how a registration with a token that was issued is answered. It is
      accepted if and only if the token was neither revoked nor used, is in time and the partner's own,
      and the random digits are free; else the first of these that fails is the error. */
  lemma RegistrationOfToken(steps: seq<Step>, step: Step, token: Token)
    requires step.RegisterStep? && Configured(step.env) && WasIssued(steps, token) && token.hash == step.req.hash
    ensures var answer := AnswerTo(steps, step);
      if WasRevoked(steps, token.id) then answer == Refused(TokenRevoked)
      else if WasUsed(steps, token.hash) then answer == Refused(TokenAlreadyUsed)
      else if step.clock.server >= token.expiresAt then answer == Refused(TokenExpired)
      else if step.req.partner != token.partner then answer == Refused(PartnerMismatch)
      else if DigitsLive(steps, step.req) then answer == Refused(Database)
      else answer.Done?
  {
    var t := IssuedIsInTable(steps, token);
    ConfiguredExactly(step.env);
    RunsAreGood(steps);
    UpsertFailsOnTakenDigits(After(steps), step.req, step.clock.db);
    DigitsAreTaken(steps, step.req);
    assert TellsRevocation(After(steps).db.tokens[t], steps) && TellsUse(After(steps).db.tokens[t], steps);
    hide WasIssued, After, WasRevoked, WasUsed, Misconfigured, Upsert, Good, DigitsTaken, DigitsLive;
  }

  ghost predicate HashWasIssued(steps: seq<Step>, hash: string) {
    exists token: Token :: WasIssued(steps, token) && token.hash == hash
  }

  lemma HashInTable(steps: seq<Step>, hash: string)
    ensures Find(After(steps).db.tokens, HasHash(hash)) < |After(steps).db.tokens| <==> HashWasIssued(steps, hash)
  {
    TablesTell(steps);
    var tokens := After(steps).db.tokens;
    hide WasIssued, After, TokensGood, TellsRevocation, TellsUse;
    var f := Find(tokens, HasHash(hash));
    if f < |tokens| {
      assert HasHash(hash)(tokens[f]) && Tells(tokens[f], steps);
    }
    if token: Token :| WasIssued(steps, token) && token.hash == hash {
      var t := IssuedIsInTable(steps, token);
    }
  }

  /** And without such a token, or on a server that is not configured, it is refused. */
  lemma RegistrationWithoutToken(steps: seq<Step>, step: Step)
    requires step.RegisterStep?
    ensures !Configured(step.env) ==> AnswerTo(steps, step) == Refused(Misconfigured(step.env).value)
    ensures Configured(step.env) ==>
      (AnswerTo(steps, step) == Refused(TokenNotFound) <==> !HashWasIssued(steps, step.req.hash))
  {
    ConfiguredExactly(step.env);
    HashInTable(steps, step.req.hash);
    hide HashWasIssued, After, Misconfigured, Configured, Upsert;
  }

  /** A registration is answered with the node that then lives. */
  lemma RegistrationAnswers(steps: seq<Step>, step: Step)
    requires step.RegisterStep? && AnswerTo(steps, step).Done?
    ensures var (e, tokens) := (AnswerTo(steps, step).event, After(steps).db.tokens);
      && e.Registered? && e.t < |tokens| && tokens[e.t].hash == step.req.hash
      && e.partner == step.req.partner && e.domain == step.req.domain && e.at == step.clock.server
      && var node := Life(steps + [step], step.req.partner, step.req.domain);
         node.Some? && node.value.nodeId == e.nodeId && node.value.subdomain == e.subdomain
  {
    var (db, req) := (After(steps).db, step.req);
    var f := Find(db.tokens, HasHash(req.hash));
    RegisterUpserts(db, step.env, req, step.clock);
    AfterOneMore(steps, step);
    RunsAreGood(steps);
    NodesAreGood(After(steps));
    NodesLive(steps + [step], req.partner, req.domain);
    UpsertLives(db.nodes, req, step.clock, step.env, req.partner, req.domain);
    RegisteredToken(db, step);
    hide After, Upsert, Life, Misconfigured, Register, NodeOf, Good, NodesGood;
  }

  lemma RegisteredToken(db: Db, step: Step)
    requires step.RegisterStep? && Apply(db, step).1.Done?
    ensures var e := Apply(db, step).1.event;
      && e.Registered? && e.t < |db.tokens| && db.tokens[e.t].hash == step.req.hash && e.at == step.clock.server
  {
    var f := Find(db.tokens, HasHash(step.req.hash));
    assert f < |db.tokens| ==> HasHash(step.req.hash)(db.tokens[f]);
    hide Misconfigured, Upsert, Rejected;
  }

  // ----- deactivating

  /** In every reachable state: a node is deactivated if and only if the id is not empty and is that of
      a node that lives; and then exactly that one lives no more. */
  lemma DeactivationIsExact(steps: seq<Step>, nodeId: string)
    ensures var answer := AnswerTo(steps, DeactivateStep(nodeId));
      && (answer.Done? <==> nodeId != "" && exists partner: string, domain: string ::
             Life(steps, partner, domain).Some? && Life(steps, partner, domain).value.nodeId == nodeId)
      && (answer == Refused(EmptyNodeId) <==> nodeId == "")
      && (answer.Refused? && nodeId != "" ==> answer == Refused(NodeNotFound))
    ensures var answer := AnswerTo(steps, DeactivateStep(nodeId));
      answer.Done? ==>
        && answer.event.Deactivated? && answer.event.nodeId == nodeId
        && var node := Life(steps, answer.event.partner, answer.event.domain);
           node.Some? && node.value.nodeId == nodeId
  {
    RunsAreGood(steps);
    NodesAreGood(After(steps));
    var nodes := After(steps).db.nodes;
    var f := Find(nodes, HasNodeId(nodeId));
    hide After, Life, Good, NodeOf;
    if f < |nodes| {
      assert HasNodeId(nodeId)(nodes[f]);
      NodeOfIsMember(nodes, nodes[f], nodes[f].partner, nodes[f].domain);
      NodesLive(steps, nodes[f].partner, nodes[f].domain);
    }
    if partner: string, domain: string :|
      Life(steps, partner, domain).Some? && Life(steps, partner, domain).value.nodeId == nodeId {
      NodesLive(steps, partner, domain);
      var n := Life(steps, partner, domain).value;
      NodeOfIsMember(nodes, n, partner, domain);
      var k :| 0 <= k < |nodes| && nodes[k] == n;
      assert HasNodeId(nodeId)(nodes[k]);
    }
  }
}
