/** What the partner tables say about the history of operations that led to them. */
module PartnerHistory {
  import opened Options
  import opened StableSort
  import opened PartnerTables

  datatype Step =
    | IssueStep(partner: string, validFor: Option<int>, id: Uuid, hash: string, clock: Clock)
    | RegisterStep(env: Env, req: Request, clock: Clock)
    | RevokeStep(uuid: Option<Uuid>, clock: Clock)
    | DeactivateStep(nodeId: string)

  function Apply(db: Db, step: Step): (Db, Outcome) {
    match step
    case IssueStep(partner, validFor, id, hash, clock) => Issue(db, partner, validFor, id, hash, clock)
    case RegisterStep(env, req, clock) => Register(db, env, req, clock)
    case RevokeStep(uuid, clock) => Revoke(db, uuid, clock)
    case DeactivateStep(nodeId) => Deactivate(db, nodeId)
  }

  /** The tables and everything that succeeded so far. */
  datatype History = History(db: Db, log: seq<Event>)

  function Next(h: History, step: Step): History {
    var (db, outcome) := Apply(h.db, step);
    History(db, if outcome.Done? then h.log + [outcome.event] else h.log)
  }

  function After(steps: seq<Step>): History {
    if steps == [] then History(Db([], []), [])
    else Next(After(steps[..|steps| - 1]), steps[|steps| - 1])
  }

  // ----- reading the log

  function IsSuccess(): Event -> bool { (e: Event) => e.Registered? }
  function IsUse(t: nat): Event -> bool { (e: Event) => e.Registered? && e.t == t }
  function IsRevocation(t: nat): Event -> bool { (e: Event) => e.Revoked? && e.t == t }
  function IsUsed(): Token -> bool { (t: Token) => t.usedAt.Some? }

  function Uses(log: seq<Event>, t: nat): nat { |Where(log, IsUse(t))| }
  function Revocations(log: seq<Event>, t: nat): nat { |Where(log, IsRevocation(t))| }

  /** The node that `partner` and `domain` were last given, unless it was deactivated since. */
  function LastNode(log: seq<Event>, partner: string, domain: string): Option<(string, string)> {
    if log == [] then None
    else match log[|log| - 1]
      case Registered(_, p, d, nodeId, subdomain, _) =>
        if p == partner && d == domain then Some((nodeId, subdomain)) else LastNode(log[..|log| - 1], partner, domain)
      case Deactivated(_, p, d) =>
        if p == partner && d == domain then None else LastNode(log[..|log| - 1], partner, domain)
      case _ => LastNode(log[..|log| - 1], partner, domain)
  }

  lemma LogPush(log: seq<Event>, e: Event)
    ensures forall t :: Uses(log + [e], t) == Uses(log, t) + if e.Registered? && e.t == t then 1 else 0
    ensures forall t :: Revocations(log + [e], t) == Revocations(log, t) + if e.Revoked? && e.t == t then 1 else 0
    ensures |Where(log + [e], IsSuccess())| == |Where(log, IsSuccess())| + if e.Registered? then 1 else 0
  {
    WherePush(log, e, IsSuccess());
    forall t: nat ensures Uses(log + [e], t) == Uses(log, t) + if e.Registered? && e.t == t then 1 else 0 {
      WherePush(log, e, IsUse(t));
    }
    forall t: nat
      ensures Revocations(log + [e], t) == Revocations(log, t) + if e.Revoked? && e.t == t then 1 else 0
    {
      WherePush(log, e, IsRevocation(t));
    }
  }

  // ----- the node table

  function RowOf(nodes: seq<Node>, partner: string, domain: string): Option<(string, string)> {
    var i := Find(nodes, IsRow(partner, domain));
    if i < |nodes| then Some((nodes[i].nodeId, nodes[i].subdomain)) else None
  }

  /** Node id and subdomain are made from the same hexadecimal digits. */
  predicate Shaped(n: Node) {
    |n.subdomain| == 16 && n.subdomain == SubdomainFor(n.subdomain[4..])
    && n.nodeId == NodeIdFor(n.partner, n.subdomain[4..])
  }

  predicate NodesGood(nodes: seq<Node>) {
    && (forall i | 0 <= i < |nodes| :: Shaped(nodes[i]))
    && (forall i, j | 0 <= i < j < |nodes| :: nodes[i].nodeId != nodes[j].nodeId)
    && (forall i, j | 0 <= i < j < |nodes| ::
         nodes[i].partner != nodes[j].partner || nodes[i].domain != nodes[j].domain)
  }

  lemma RowIs(nodes: seq<Node>, i: nat)
    requires NodesGood(nodes) && i < |nodes|
    ensures RowOf(nodes, nodes[i].partner, nodes[i].domain) == Some((nodes[i].nodeId, nodes[i].subdomain))
  {
    var p := IsRow(nodes[i].partner, nodes[i].domain);
    assert p(nodes[i]);
    assert p(nodes[Find(nodes, p)]);
  }

  /** A row for another key neither adds nor hides anything. */
  lemma RowFrame(nodes: seq<Node>, nodes': seq<Node>, partner: string, domain: string)
    requires NodesGood(nodes) && NodesGood(nodes')
    requires forall n: Node :: n.partner == partner && n.domain == domain ==> (n in nodes <==> n in nodes')
    ensures RowOf(nodes, partner, domain) == RowOf(nodes', partner, domain)
  {
    var p := IsRow(partner, domain);
    var i := Find(nodes, p);
    if i < |nodes| {
      assert p(nodes[i]) && nodes[i] in nodes';
      var k :| 0 <= k < |nodes'| && nodes'[k] == nodes[i];
      RowIs(nodes', k);
      RowIs(nodes, i);
    }
  }

  lemma UpsertKeepsNodes(nodes: seq<Node>, req: Request, now: Time)
    requires NodesGood(nodes) && Upsert(nodes, req, now).Some?
    ensures NodesGood(Upsert(nodes, req, now).value.0)
  {
    var i := Find(nodes, IsRow(req.partner, req.domain));
    if i == |nodes| {
      var taken := HasNodeId(NodeIdFor(req.partner, req.hex));
      assert forall j | 0 <= j < |nodes| :: !taken(nodes[j]);
      assert forall j | 0 <= j < |nodes| :: !IsRow(req.partner, req.domain)(nodes[j]);
      assert SubdomainFor(req.hex)[4..] == req.hex;
    }
  }

  /** What an upsert answers is what the row said before, if there was one, and says afterwards. */
  lemma UpsertAnswers(nodes: seq<Node>, req: Request, now: Time)
    requires NodesGood(nodes) && Upsert(nodes, req, now).Some?
    ensures var (nodes', node) := Upsert(nodes, req, now).value;
      && RowOf(nodes, req.partner, req.domain) in {None, Some((node.nodeId, node.subdomain))}
      && RowOf(nodes', req.partner, req.domain) == Some((node.nodeId, node.subdomain))
  {
    UpsertKeepsNodes(nodes, req, now);
    var (nodes', node) := Upsert(nodes, req, now).value;
    var i := Find(nodes, IsRow(req.partner, req.domain));
    assert nodes'[i] == node && IsRow(req.partner, req.domain)(node);
    RowIs(nodes', i);
  }

  lemma UpsertLeavesOthers(nodes: seq<Node>, req: Request, now: Time, partner: string, domain: string)
    requires NodesGood(nodes) && Upsert(nodes, req, now).Some?
    requires partner != req.partner || domain != req.domain
    ensures RowOf(Upsert(nodes, req, now).value.0, partner, domain) == RowOf(nodes, partner, domain)
  {
    UpsertKeepsNodes(nodes, req, now);
    var nodes' := Upsert(nodes, req, now).value.0;
    var i := Find(nodes, IsRow(req.partner, req.domain));
    assert i < |nodes| ==> IsRow(req.partner, req.domain)(nodes[i]);
    forall n: Node | n.partner == partner && n.domain == domain ensures n in nodes <==> n in nodes' {
      if n in nodes {
        var k :| 0 <= k < |nodes| && nodes[k] == n;
        assert nodes'[k] == n;
      }
    }
    RowFrame(nodes, nodes', partner, domain);
  }

  lemma DeleteKeepsNodes(nodes: seq<Node>, i: nat)
    requires NodesGood(nodes) && i < |nodes|
    ensures NodesGood(nodes[..i] + nodes[i + 1..])
  {
    var rest := nodes[..i] + nodes[i + 1..];
    assert forall j | 0 <= j < |rest| :: rest[j] == nodes[if j < i then j else j + 1];
  }

  lemma DeleteRemovesRow(nodes: seq<Node>, i: nat, partner: string, domain: string)
    requires NodesGood(nodes) && i < |nodes|
    ensures RowOf(nodes[..i] + nodes[i + 1..], partner, domain) ==
      if nodes[i].partner == partner && nodes[i].domain == domain then None else RowOf(nodes, partner, domain)
  {
    DeleteKeepsNodes(nodes, i);
    var rest := nodes[..i] + nodes[i + 1..];
    assert forall j | 0 <= j < |rest| :: rest[j] == nodes[if j < i then j else j + 1];
    if nodes[i].partner == partner && nodes[i].domain == domain {
      assert forall j | 0 <= j < |rest| :: !IsRow(partner, domain)(rest[j]);
    } else {
      forall n: Node | n.partner == partner && n.domain == domain ensures n in nodes <==> n in rest {
        if n in nodes {
          var k :| 0 <= k < |nodes| && nodes[k] == n;
          assert rest[if k < i then k else k - 1] == n;
        }
      }
      RowFrame(nodes, rest, partner, domain);
    }
  }

  // ----- the invariant

  predicate TokensGood(tokens: seq<Token>) {
    && (forall i | 0 <= i < |tokens| :: IsPartnerId(tokens[i].partner))
    && (forall i, j | 0 <= i < j < |tokens| :: tokens[i].id != tokens[j].id && tokens[i].hash != tokens[j].hash)
  }

  /** The columns of a token say how often the log uses and revokes it. */
  predicate Recorded(tokens: seq<Token>, log: seq<Event>, t: nat) {
    && Uses(log, t) == (if t < |tokens| && tokens[t].usedAt.Some? then 1 else 0)
    && Revocations(log, t) == (if t < |tokens| && tokens[t].revokedAt.Some? then 1 else 0)
  }

  /** A registration used a token that was then unused, unrevoked, unexpired and its partner's. */
  predicate Justified(tokens: seq<Token>, e: Event) {
    e.Registered? ==>
      && e.t < |tokens| && e.at < tokens[e.t].expiresAt && e.partner == tokens[e.t].partner
      && tokens[e.t].usedAt.Some? && tokens[e.t].nodeId == Some(e.nodeId)
  }

  /** What may follow the log so far. */
  predicate Continues(log: seq<Event>, e: Event) {
    e.Registered? ==>
      && Uses(log, e.t) == 0 && Revocations(log, e.t) == 0
      && LastNode(log, e.partner, e.domain) in {None, Some((e.nodeId, e.subdomain))}
  }

  predicate LogGood(log: seq<Event>) {
    log == [] || (LogGood(log[..|log| - 1]) && Continues(log[..|log| - 1], log[|log| - 1]))
  }

  ghost predicate NodesFollow(nodes: seq<Node>, log: seq<Event>) {
    forall partner: string, domain: string :: RowOf(nodes, partner, domain) == LastNode(log, partner, domain)
  }

  ghost predicate TokensFollow(tokens: seq<Token>, log: seq<Event>) {
    && (forall t: nat :: Recorded(tokens, log, t))
    && (forall i | 0 <= i < |log| :: Justified(tokens, log[i]))
    && |Where(log, IsSuccess())| == |Where(tokens, IsUsed())|
  }

  ghost predicate Good(h: History) {
    && TokensGood(h.db.tokens) && NodesGood(h.db.nodes)
    && TokensFollow(h.db.tokens, h.log) && NodesFollow(h.db.nodes, h.log) && LogGood(h.log)
  }

  // ----- every operation keeps it

  lemma LogGoodPush(log: seq<Event>, e: Event)
    requires LogGood(log) && Continues(log, e)
    ensures LogGood(log + [e])
  {
    assert (log + [e])[..|log|] == log;
  }

  lemma LastNodePush(log: seq<Event>, e: Event, partner: string, domain: string)
    ensures LastNode(log + [e], partner, domain) ==
      match e
      case Registered(_, p, d, nodeId, subdomain, _) =>
        if p == partner && d == domain then Some((nodeId, subdomain)) else LastNode(log, partner, domain)
      case Deactivated(_, p, d) => if p == partner && d == domain then None else LastNode(log, partner, domain)
      case _ => LastNode(log, partner, domain)
  {
    assert (log + [e])[..|log|] == log;
  }

  lemma IssueFollows(tokens: seq<Token>, token: Token, log: seq<Event>)
    requires TokensFollow(tokens, log) && token.usedAt.None? && token.revokedAt.None?
    ensures TokensFollow(tokens + [token], log + [Issued(|tokens|)])
  {
    LogPush(log, Issued(|tokens|));
    WherePush(tokens, token, IsUsed());
    hide Uses, Revocations, Where;
    forall t: nat ensures Recorded(tokens + [token], log + [Issued(|tokens|)], t) {
      assert Recorded(tokens, log, t);
    }
    forall i | 0 <= i < |log| ensures Justified(tokens + [token], log[i]) {
      assert Justified(tokens, log[i]);
    }
  }

  lemma UseFollows(tokens: seq<Token>, log: seq<Event>, e: Event, token: Token)
    requires TokensFollow(tokens, log) && e.Registered? && e.t < |tokens|
    requires tokens[e.t].usedAt.None? && e.at < tokens[e.t].expiresAt && e.partner == tokens[e.t].partner
    requires exists ip: string, now: Time :: token == Spent(tokens[e.t], ip, e.nodeId, now)
    ensures TokensFollow(tokens[e.t := token], log + [e])
  {
    LogPush(log, e);
    WhereUpdate(tokens, e.t, token, IsUsed());
    var tokens' := tokens[e.t := token];
    hide Uses, Revocations, Where;
    forall t: nat ensures Recorded(tokens', log + [e], t) {
      assert Recorded(tokens, log, t);
    }
    forall i | 0 <= i < |log| ensures Justified(tokens', log[i]) {
      assert Justified(tokens, log[i]);
    }
  }

  lemma RevocationFollows(tokens: seq<Token>, log: seq<Event>, t: nat, now: Time)
    requires TokensFollow(tokens, log) && t < |tokens| && tokens[t].revokedAt.None?
    ensures TokensFollow(tokens[t := tokens[t].(revokedAt := Some(now))], log + [Revoked(t)])
  {
    var token := tokens[t].(revokedAt := Some(now));
    var (tokens', e) := (tokens[t := token], Revoked(t));
    LogPush(log, e);
    WhereUpdate(tokens, t, token, IsUsed());
    hide Uses, Revocations, Where;
    forall k: nat ensures Recorded(tokens', log + [e], k) {
      assert Recorded(tokens, log, k);
    }
    forall i | 0 <= i < |log| ensures Justified(tokens', log[i]) {
      assert Justified(tokens, log[i]);
    }
  }

  lemma DeactivationFollows(tokens: seq<Token>, log: seq<Event>, e: Event)
    requires TokensFollow(tokens, log) && e.Deactivated?
    ensures TokensFollow(tokens, log + [e])
  {
    LogPush(log, e);
    hide Uses, Revocations, Where;
    forall k: nat ensures Recorded(tokens, log + [e], k) {
      assert Recorded(tokens, log, k);
    }
  }

  lemma NodesUnaffected(nodes: seq<Node>, log: seq<Event>, e: Event)
    requires NodesFollow(nodes, log) && !e.Registered? && !e.Deactivated?
    ensures NodesFollow(nodes, log + [e])
  {
    forall p: string, d: string ensures RowOf(nodes, p, d) == LastNode(log + [e], p, d) {
      LastNodePush(log, e, p, d);
    }
  }

  lemma IssueKeepsGood(h: History, partner: string, validFor: Option<int>, id: Uuid, hash: string, clock: Clock)
    requires Good(h)
    ensures Good(Next(h, IssueStep(partner, validFor, id, hash, clock)))
  {
    var (db, outcome) := Issue(h.db, partner, validFor, id, hash, clock);
    var tokens := h.db.tokens;
    if outcome.Done? {
      var token := db.tokens[|tokens|];
      assert forall i | 0 <= i < |tokens| :: !HasHash(hash)(tokens[i]) && !HasId(id)(tokens[i]);
      assert TokensGood(db.tokens);
      IssueFollows(tokens, token, h.log);
      NodesUnaffected(h.db.nodes, h.log, outcome.event);
      LogGoodPush(h.log, outcome.event);
    }
  }

  lemma RegisterKeepsNodesFollow(nodes: seq<Node>, log: seq<Event>, req: Request, now: Time, e: Event)
    requires NodesGood(nodes) && NodesFollow(nodes, log) && Upsert(nodes, req, now).Some? && e.Registered?
    requires var node := Upsert(nodes, req, now).value.1;
      (e.partner, e.domain, e.nodeId, e.subdomain) == (req.partner, req.domain, node.nodeId, node.subdomain)
    ensures NodesFollow(Upsert(nodes, req, now).value.0, log + [e])
    ensures LastNode(log, e.partner, e.domain) in {None, Some((e.nodeId, e.subdomain))}
  {
    var nodes' := Upsert(nodes, req, now).value.0;
    UpsertAnswers(nodes, req, now);
    assert RowOf(nodes, req.partner, req.domain) == LastNode(log, req.partner, req.domain);
    hide Upsert, RowOf;
    forall p: string, d: string ensures RowOf(nodes', p, d) == LastNode(log + [e], p, d) {
      LastNodePush(log, e, p, d);
      if p != req.partner || d != req.domain {
        UpsertLeavesOthers(nodes, req, now, p, d);
        assert RowOf(nodes, p, d) == LastNode(log, p, d);
      }
    }
  }

  lemma RegisterKeepsTokens(db: Db, log: seq<Event>, env: Env, req: Request, clock: Clock)
    requires TokensGood(db.tokens) && TokensFollow(db.tokens, log) && Register(db, env, req, clock).1.Done?
    ensures var (db', outcome) := Register(db, env, req, clock); var e := outcome.event;
      && TokensGood(db'.tokens) && TokensFollow(db'.tokens, log + [e])
      && Uses(log, e.t) == 0 && Revocations(log, e.t) == 0
  {
    var (db', outcome) := Register(db, env, req, clock);
    var (e, tokens) := (outcome.event, db.tokens);
    assert Recorded(tokens, log, e.t);
    hide Upsert, Uses, Revocations, TokensFollow, IsPartnerId;
    assert db'.tokens[e.t] == Spent(tokens[e.t], req.ip, e.nodeId, clock.db);
    UseFollows(tokens, log, e, db'.tokens[e.t]);
  }

  /** A success upserts the node and answers with it. */
  lemma RegisterUpserts(db: Db, env: Env, req: Request, clock: Clock)
    requires Register(db, env, req, clock).1.Done?
    ensures var (db', outcome) := Register(db, env, req, clock); var e := outcome.event;
      && e.Registered? && Upsert(db.nodes, req, clock.db).Some?
      && var (nodes, node) := Upsert(db.nodes, req, clock.db).value;
         && db'.nodes == nodes
         && (e.partner, e.domain, e.nodeId, e.subdomain) == (req.partner, req.domain, node.nodeId, node.subdomain)
  {
    hide Upsert, Misconfigured, Rejected;
  }

  lemma RegisterKeepsGood(h: History, env: Env, req: Request, clock: Clock)
    requires Good(h)
    ensures Good(Next(h, RegisterStep(env, req, clock)))
  {
    hide TokensGood, TokensFollow, NodesGood, NodesFollow, LogGood, Upsert, Uses, Revocations, LastNode;
    var (db, outcome) := Register(h.db, env, req, clock);
    if outcome.Done? {
      RegisterUpserts(h.db, env, req, clock);
      RegisterKeepsTokens(h.db, h.log, env, req, clock);
      hide Register;
      UpsertKeepsNodes(h.db.nodes, req, clock.db);
      RegisterKeepsNodesFollow(h.db.nodes, h.log, req, clock.db, outcome.event);
      LogGoodPush(h.log, outcome.event);
    } else {
      RefusedRegistration(h.db, env, req, clock);
      hide Register;
    }
  }

  lemma RefusedRegistration(db: Db, env: Env, req: Request, clock: Clock)
    requires Register(db, env, req, clock).1.Refused?
    ensures Register(db, env, req, clock).0 == db
  {
    hide Upsert, Misconfigured, Rejected;
  }

  lemma RevokeKeepsGood(h: History, uuid: Option<Uuid>, clock: Clock)
    requires Good(h)
    ensures Good(Next(h, RevokeStep(uuid, clock)))
  {
    var (db, outcome) := Revoke(h.db, uuid, clock);
    if outcome.Done? {
      RevocationFollows(h.db.tokens, h.log, outcome.event.t, clock.db);
      NodesUnaffected(h.db.nodes, h.log, outcome.event);
      LogGoodPush(h.log, outcome.event);
    }
  }

  lemma DeactivateKeepsGood(h: History, nodeId: string)
    requires Good(h)
    ensures Good(Next(h, DeactivateStep(nodeId)))
  {
    var (db, outcome) := Deactivate(h.db, nodeId);
    if outcome.Done? {
      var (e, nodes) := (outcome.event, h.db.nodes);
      var i := Find(nodes, HasNodeId(nodeId));
      DeleteKeepsNodes(nodes, i);
      DeactivationFollows(h.db.tokens, h.log, e);
      forall p: string, d: string ensures RowOf(db.nodes, p, d) == LastNode(h.log + [e], p, d) {
        DeleteRemovesRow(nodes, i, p, d);
        LastNodePush(h.log, e, p, d);
      }
      LogGoodPush(h.log, e);
    }
  }

  lemma {:induction false} RunsAreGood(steps: seq<Step>)
    ensures Good(After(steps))
  {
    if steps != [] {
      var h := After(steps[..|steps| - 1]);
      RunsAreGood(steps[..|steps| - 1]);
      hide Good;
      match steps[|steps| - 1]
      case IssueStep(partner, validFor, id, hash, clock) => IssueKeepsGood(h, partner, validFor, id, hash, clock);
      case RegisterStep(env, req, clock) => RegisterKeepsGood(h, env, req, clock);
      case RevokeStep(uuid, clock) => RevokeKeepsGood(h, uuid, clock);
      case DeactivateStep(nodeId) => DeactivateKeepsGood(h, nodeId);
    }
  }
}
