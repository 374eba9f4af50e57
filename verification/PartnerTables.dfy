/** The two tables of partner registration and the four operations on them, each one transaction. */
module PartnerTables {
  import opened Options

  type Time = int
  type Uuid = string

  /** Six random bytes in hexadecimal. */
  type Hex = s: string | |s| == 12 witness ['0', '0', '0', '0', '0', '0', '0', '0', '0', '0', '0', '0']

  datatype Token = Token(
    id: Uuid, partner: string, hash: string, expiresAt: Time, usedAt: Option<Time>, usedFromIp: Option<string>,
    nodeId: Option<string>, revokedAt: Option<Time>)

  datatype Node = Node(
    nodeId: string, partner: string, domain: string, subdomain: string, publicIp: string,
    registeredAt: Time, lastSeenAt: Time)

  datatype Db = Db(tokens: seq<Token>, nodes: seq<Node>)

  /** The clock of the server and the clock of the database. */
  datatype Clock = Clock(server: Time, db: Time)

  datatype Env = Env(reality: bool, turnSecret: Option<string>, backendEndpoint: Option<string>)

  datatype Request = Request(partner: string, domain: string, hash: string, ip: string, hex: Hex)

  datatype Error =
    | RealityNotConfigured | TurnNotConfigured | BackendEndpointNotConfigured
    | TokenNotFound | TokenRevoked | TokenAlreadyUsed | TokenExpired | PartnerMismatch | Database
    | InvalidPartner | InvalidDuration | InvalidUuid | NotFoundOrRevoked | EmptyNodeId | NodeNotFound

  /** What a successful operation did; tokens are named by their row. */
  datatype Event =
    | Issued(t: nat)
    | Registered(t: nat, partner: string, domain: string, nodeId: string, subdomain: string, at: Time)
    | Revoked(t: nat)
    | Deactivated(nodeId: string, partner: string, domain: string)

  datatype Outcome = Done(event: Event) | Refused(error: Error)

  // ----- look-ups

  /** The first row that satisfies `p`, or the number of rows. */
  function Find<T>(rows: seq<T>, p: T -> bool): (i: nat)
    ensures i <= |rows| && (i < |rows| ==> p(rows[i])) && forall j | 0 <= j < i :: !p(rows[j])
  {
    if rows == [] || p(rows[0]) then 0 else 1 + Find(rows[1..], p)
  }

  function HasHash(hash: string): Token -> bool { (t: Token) => t.hash == hash }
  function HasId(id: Uuid): Token -> bool { (t: Token) => t.id == id }
  function HasNodeId(nodeId: string): Node -> bool { (n: Node) => n.nodeId == nodeId }
  function IsRow(partner: string, domain: string): Node -> bool {
    (n: Node) => n.partner == partner && n.domain == domain
  }

  // ----- specification of the operations

  const MIN_VALID_FOR_SECS := 24 * 3600
  const MAX_VALID_FOR_SECS := 90 * 24 * 3600

  predicate IsPartnerChar(c: char) { 'a' <= c <= 'z' || '0' <= c <= '9' }

  predicate IsPartnerId(s: string) {
    && 3 <= |s| <= 32
    && IsPartnerChar(s[0]) && IsPartnerChar(s[|s| - 1])
    && forall i | 0 <= i < |s| :: IsPartnerChar(s[i]) || s[i] == '-'
  }

  function Issue(db: Db, partner: string, validFor: Option<int>, id: Uuid, hash: string, clock: Clock): (Db, Outcome) {
    if !IsPartnerId(partner) then (db, Refused(InvalidPartner))
    else if validFor.None? || !(MIN_VALID_FOR_SECS <= validFor.value <= MAX_VALID_FOR_SECS) then
      (db, Refused(InvalidDuration))
    else if Find(db.tokens, HasHash(hash)) < |db.tokens| || Find(db.tokens, HasId(id)) < |db.tokens| then
      (db, Refused(Database))
    else
      var token := Token(id, partner, hash, clock.server + validFor.value, None, None, None, None);
      (db.(tokens := db.tokens + [token]), Done(Issued(|db.tokens|)))
  }

  predicate IsEndpoint(s: string) {
    s != "" && ':' in s && s[0] != ':' && s[|s| - 1] != ':'
  }

  function Misconfigured(env: Env): Option<Error> {
    if !env.reality then Some(RealityNotConfigured)
    else if env.turnSecret.None? || env.turnSecret.value == "" then Some(TurnNotConfigured)
    else if env.backendEndpoint.None? || !IsEndpoint(env.backendEndpoint.value) then Some(BackendEndpointNotConfigured)
    else None
  }

  function Rejected(token: Token, partner: string, now: Time): Option<Error> {
    if token.revokedAt.Some? then Some(TokenRevoked)
    else if token.usedAt.Some? then Some(TokenAlreadyUsed)
    else if token.expiresAt <= now then Some(TokenExpired)
    else if token.partner != partner then Some(PartnerMismatch)
    else None
  }

  function NodeIdFor(partner: string, hex: Hex): string { partner + "-" + hex }
  function SubdomainFor(hex: Hex): string { "api-" + hex }

  /** INSERT, or on a row for the same partner and domain only refresh it; a taken node id fails. */
  function Upsert(nodes: seq<Node>, req: Request, now: Time): Option<(seq<Node>, Node)> {
    var i := Find(nodes, IsRow(req.partner, req.domain));
    if i < |nodes| then
      var node := nodes[i].(lastSeenAt := now, publicIp := req.ip);
      Some((nodes[i := node], node))
    else if Find(nodes, HasNodeId(NodeIdFor(req.partner, req.hex))) < |nodes| then None
    else
      var node := Node(
        NodeIdFor(req.partner, req.hex), req.partner, req.domain, SubdomainFor(req.hex), req.ip, now, now);
      Some((nodes + [node], node))
  }

  function Spent(token: Token, ip: string, nodeId: string, now: Time): Token {
    token.(usedAt := Some(now), usedFromIp := Some(ip), nodeId := Some(nodeId))
  }

  function Register(db: Db, env: Env, req: Request, clock: Clock): (Db, Outcome) {
    if Misconfigured(env).Some? then (db, Refused(Misconfigured(env).value))
    else
      var t := Find(db.tokens, HasHash(req.hash));
      if t == |db.tokens| then (db, Refused(TokenNotFound))
      else
        var token := db.tokens[t];
        if Rejected(token, req.partner, clock.server).Some? then
          (db, Refused(Rejected(token, req.partner, clock.server).value))
        else match Upsert(db.nodes, req, clock.db)
          case None => (db, Refused(Database))
          case Some((nodes, node)) =>
            (Db(db.tokens[t := Spent(token, req.ip, node.nodeId, clock.db)], nodes),
             Done(Registered(t, req.partner, req.domain, node.nodeId, node.subdomain, clock.server)))
  }

  /** `id` is absent when it does not parse as a UUID. */
  function Revoke(db: Db, id: Option<Uuid>, clock: Clock): (Db, Outcome) {
    if id.None? then (db, Refused(InvalidUuid))
    else
      var t := Find(db.tokens, HasId(id.value));
      if t == |db.tokens| || db.tokens[t].revokedAt.Some? then (db, Refused(NotFoundOrRevoked))
      else (db.(tokens := db.tokens[t := db.tokens[t].(revokedAt := Some(clock.db))]), Done(Revoked(t)))
  }

  function Deactivate(db: Db, nodeId: string): (Db, Outcome) {
    if nodeId == "" then (db, Refused(EmptyNodeId))
    else
      var n := Find(db.nodes, HasNodeId(nodeId));
      if n == |db.nodes| then (db, Refused(NodeNotFound))
      else
        (db.(nodes := db.nodes[..n] + db.nodes[n + 1..]),
         Done(Deactivated(nodeId, db.nodes[n].partner, db.nodes[n].domain)))
  }

  // ----- implementation

  class Tables {
    var tokens: seq<Token>
    var nodes: seq<Node>

    function View(): Db
      reads this
    {
      Db(tokens, nodes)
    }

    constructor ()
      ensures View() == Db([], [])
    {
      tokens, nodes := [], [];
    }

    method IssueToken(partner: string, validFor: Option<int>, id: Uuid, hash: string, clock: Clock)
      returns (outcome: Outcome)
      modifies this
      ensures (View(), outcome) == Issue(old(View()), partner, validFor, id, hash, clock)
    {
      if !IsPartnerId(partner) {
        return Refused(InvalidPartner);
      }
      if validFor.None? {
        return Refused(InvalidDuration);
      }
      if !(MIN_VALID_FOR_SECS <= validFor.value <= MAX_VALID_FOR_SECS) {
        return Refused(InvalidDuration);
      }
      if Find(tokens, HasHash(hash)) < |tokens| || Find(tokens, HasId(id)) < |tokens| {
        return Refused(Database);
      }
      outcome := Done(Issued(|tokens|));
      tokens := tokens + [Token(id, partner, hash, clock.server + validFor.value, None, None, None, None)];
    }

    method UpsertNode(req: Request, now: Time) returns (node: Option<Node>)
      modifies this`nodes
      ensures match Upsert(old(nodes), req, now)
              case None => node == None && nodes == old(nodes)
              case Some((after, row)) => node == Some(row) && nodes == after
    {
      var i := Find(nodes, IsRow(req.partner, req.domain));
      if i < |nodes| {
        nodes := nodes[i := nodes[i].(lastSeenAt := now, publicIp := req.ip)];
        return Some(nodes[i]);
      }
      var nodeId := NodeIdFor(req.partner, req.hex);
      if Find(nodes, HasNodeId(nodeId)) < |nodes| {
        return None;
      }
      var row := Node(nodeId, req.partner, req.domain, SubdomainFor(req.hex), req.ip, now, now);
      nodes := nodes + [row];
      node := Some(row);
    }

    method RegisterNode(env: Env, req: Request, clock: Clock) returns (outcome: Outcome)
      modifies this
      ensures (View(), outcome) == Register(old(View()), env, req, clock)
    {
      var misconfigured := Misconfigured(env);
      if misconfigured.Some? {
        return Refused(misconfigured.value);
      }
      var t := Find(tokens, HasHash(req.hash));
      if t == |tokens| {
        return Refused(TokenNotFound);
      }
      if tokens[t].revokedAt.Some? {
        return Refused(TokenRevoked);
      }
      if tokens[t].usedAt.Some? {
        return Refused(TokenAlreadyUsed);
      }
      if tokens[t].expiresAt <= clock.server {
        return Refused(TokenExpired);
      }
      if tokens[t].partner != req.partner {
        return Refused(PartnerMismatch);
      }
      var node := UpsertNode(req, clock.db);
      if node.None? {
        return Refused(Database);
      }
      tokens := tokens[t := Spent(tokens[t], req.ip, node.value.nodeId, clock.db)];
      outcome := Done(Registered(t, req.partner, req.domain, node.value.nodeId, node.value.subdomain, clock.server));
    }

    method RevokeToken(id: Option<Uuid>, clock: Clock) returns (outcome: Outcome)
      modifies this`tokens
      ensures (View(), outcome) == Revoke(old(View()), id, clock)
    {
      if id.None? {
        return Refused(InvalidUuid);
      }
      var t := Find(tokens, HasId(id.value));
      if t == |tokens| || tokens[t].revokedAt.Some? {
        return Refused(NotFoundOrRevoked);
      }
      tokens := tokens[t := tokens[t].(revokedAt := Some(clock.db))];
      outcome := Done(Revoked(t));
    }

    method DeactivateNode(nodeId: string) returns (outcome: Outcome)
      modifies this`nodes
      ensures (View(), outcome) == Deactivate(old(View()), nodeId)
    {
      if nodeId == "" {
        return Refused(EmptyNodeId);
      }
      var n := Find(nodes, HasNodeId(nodeId));
      if n == |nodes| {
        return Refused(NodeNotFound);
      }
      outcome := Done(Deactivated(nodeId, nodes[n].partner, nodes[n].domain));
      nodes := nodes[..n] + nodes[n + 1..];
    }
  }
}
