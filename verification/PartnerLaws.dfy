/** What every run of issue, register, revoke and deactivate guarantees. */
module PartnerLaws {
  import opened Options
  import opened StableSort
  import opened PartnerTables
  import opened PartnerHistory

  // ----- tokens

  lemma {:induction false} EarlierContinues(log: seq<Event>, j: nat)
    requires LogGood(log) && j < |log|
    ensures LogGood(log[..j]) && Continues(log[..j], log[j])
  {
    var n := |log| - 1;
    if j < n {
      EarlierContinues(log[..n], j);
      assert log[..n][..j] == log[..j];
    }
  }

  lemma CountedBefore(log: seq<Event>, i: nat, j: nat, p: Event -> bool)
    requires i < j <= |log| && p(log[i])
    ensures |Where(log[..j], p)| > 0
  {
    assert log[..j][i] == log[i];
    WhereKeepsMembers(log[..j], p, log[i]);
  }

  /** In every run there are as many successful registrations as used tokens; each used a token that
      was its partner's, had not expired, had not been revoked, and was not used by any other. */
  lemma TokensAreSingleUse(steps: seq<Step>)
    ensures var h := After(steps);
      && |Where(h.log, IsSuccess())| == |Where(h.db.tokens, IsUsed())|
      && (forall i | 0 <= i < |h.log| && h.log[i].Registered? :: Justified(h.db.tokens, h.log[i]))
      && (forall i, j | 0 <= i < j < |h.log| && h.log[j].Registered? ::
           h.log[i] != Revoked(h.log[j].t) && !(h.log[i].Registered? && h.log[i].t == h.log[j].t))
  {
    RunsAreGood(steps);
    var log := After(steps).log;
    forall i, j | 0 <= i < j < |log| && log[j].Registered?
      ensures log[i] != Revoked(log[j].t) && !(log[i].Registered? && log[i].t == log[j].t)
    {
      EarlierContinues(log, j);
      if log[i] == Revoked(log[j].t) {
        CountedBefore(log, i, j, IsRevocation(log[j].t));
      } else if log[i].Registered? && log[i].t == log[j].t {
        CountedBefore(log, i, j, IsUse(log[j].t));
      }
    }
  }

  /** No deactivation of the node of `partner` and `domain` between two places of the log. */
  predicate Undisturbed(log: seq<Event>, i: nat, j: nat, partner: string, domain: string)
    requires j <= |log|
  {
    forall k | i < k < j :: !(log[k].Deactivated? && log[k].partner == partner && log[k].domain == domain)
  }

  lemma {:induction false} LastNodeLasts(log: seq<Event>, i: nat, j: nat)
    requires LogGood(log) && i < j <= |log| && log[i].Registered?
    requires Undisturbed(log, i, j, log[i].partner, log[i].domain)
    ensures LastNode(log[..j], log[i].partner, log[i].domain) == Some((log[i].nodeId, log[i].subdomain))
    decreases j
  {
    var last := j - 1;
    assert log[..j][..last] == log[..last] && log[..j][last] == log[last];
    if i < last {
      LastNodeLasts(log, i, last);
      EarlierContinues(log, last);
    }
  }

  /** Until its node is deactivated, a partner's domain is given the same node id and subdomain by
      every successful registration. */
  lemma IdentityIsStable(steps: seq<Step>, i: nat, j: nat)
    requires var log := After(steps).log; i < j < |log| && log[i].Registered? && log[j].Registered?
    requires var log := After(steps).log; log[i].partner == log[j].partner && log[i].domain == log[j].domain
    requires var log := After(steps).log; Undisturbed(log, i, j, log[i].partner, log[i].domain)
    ensures var log := After(steps).log; log[i].nodeId == log[j].nodeId && log[i].subdomain == log[j].subdomain
  {
    RunsAreGood(steps);
    LastNodeLasts(After(steps).log, i, j);
    EarlierContinues(After(steps).log, j);
  }

  // ----- nodes

  /** The node table has one row for each partner and domain, saying what the log says last; and two
      rows of one partner never share a node id or a subdomain. */
  lemma NodeTableFollowsLog(steps: seq<Step>, partner: string, domain: string)
    ensures var h := After(steps);
      && RowOf(h.db.nodes, partner, domain) == LastNode(h.log, partner, domain)
      && |Where(h.db.nodes, IsRow(partner, domain))| == (if LastNode(h.log, partner, domain).Some? then 1 else 0)
      && (forall i, j | 0 <= i < j < |h.db.nodes| ::
           && h.db.nodes[i].nodeId != h.db.nodes[j].nodeId
           && (h.db.nodes[i].partner == h.db.nodes[j].partner ==> h.db.nodes[i].subdomain != h.db.nodes[j].subdomain))
  {
    RunsAreGood(steps);
    SingleRow(After(steps).db.nodes, partner, domain);
    var nodes := After(steps).db.nodes;
    assert RowOf(nodes, partner, domain) == LastNode(After(steps).log, partner, domain);
    assert NodesGood(nodes);
    forall i, j | 0 <= i < j < |nodes| && nodes[i].partner == nodes[j].partner
      ensures nodes[i].subdomain != nodes[j].subdomain
    {
      assert Shaped(nodes[i]) && Shaped(nodes[j]);
    }
  }

  lemma {:induction false} SingleRow(nodes: seq<Node>, partner: string, domain: string)
    requires NodesGood(nodes)
    ensures |Where(nodes, IsRow(partner, domain))| == if RowOf(nodes, partner, domain).Some? then 1 else 0
  {
    var p := IsRow(partner, domain);
    var i := Find(nodes, p);
    if i < |nodes| {
      assert p(nodes[i]);
      assert nodes == nodes[..i] + [nodes[i]] + nodes[i + 1..];
      WhereConcat(nodes[..i] + [nodes[i]], nodes[i + 1..], p);
      WherePush(nodes[..i], nodes[i], p);
      WhereNone(nodes[..i], p);
      WhereNone(nodes[i + 1..], p);
    } else {
      WhereNone(nodes, p);
    }
  }

  // ----- when a registration succeeds

  /** The token is there, never used or revoked so far, in time, and the caller's. */
  ghost predicate Valid(h: History, t: nat, req: Request, now: Time) {
    && t < |h.db.tokens| && h.db.tokens[t].hash == req.hash
    && Uses(h.log, t) == 0 && Revocations(h.log, t) == 0
    && now < h.db.tokens[t].expiresAt && h.db.tokens[t].partner == req.partner
  }

  /** Another domain of the same partner already has the random digits. */
  ghost predicate DigitsTaken(h: History, req: Request) {
    && LastNode(h.log, req.partner, req.domain).None?
    && exists i :: 0 <= i < |h.db.nodes| && h.db.nodes[i].partner == req.partner
         && h.db.nodes[i].subdomain == SubdomainFor(req.hex)
  }

  lemma UpsertFailsOnTakenDigits(h: History, req: Request, now: Time)
    requires Good(h)
    ensures Upsert(h.db.nodes, req, now).None? <==> DigitsTaken(h, req)
  {
    var nodes := h.db.nodes;
    assert RowOf(nodes, req.partner, req.domain) == LastNode(h.log, req.partner, req.domain);
    var nodeId := NodeIdFor(req.partner, req.hex);
    var i := Find(nodes, HasNodeId(nodeId));
    if i < |nodes| {
      assert Shaped(nodes[i]) && HasNodeId(nodeId)(nodes[i]);
      DigitsNameTheNode(nodes[i].partner, nodes[i].subdomain[4..], req.partner, req.hex);
    }
    forall k | 0 <= k < |nodes| && nodes[k].partner == req.partner && nodes[k].subdomain == SubdomainFor(req.hex)
      ensures i < |nodes|
    {
      assert Shaped(nodes[k]) && SubdomainFor(req.hex)[4..] == req.hex;
      assert HasNodeId(nodeId)(nodes[k]);
    }
  }

  /** The digits have a fixed length, so a node id names its partner and its digits. */
  lemma DigitsNameTheNode(p: string, a: Hex, q: string, b: Hex)
    requires NodeIdFor(p, a) == NodeIdFor(q, b)
    ensures p == q && a == b
  {
    var s := NodeIdFor(p, a);
    assert s[|s| - 12..] == a && s[|s| - 12..] == b;
    assert s[..|s| - 13] == p && s[..|s| - 13] == q;
  }

  lemma TokenByHash(h: History, req: Request, t: nat, now: Time)
    requires Good(h) && Valid(h, t, req, now)
    ensures Find(h.db.tokens, HasHash(req.hash)) == t && Rejected(h.db.tokens[t], req.partner, now).None?
  {
    assert Recorded(h.db.tokens, h.log, t);
    assert HasHash(req.hash)(h.db.tokens[t]);
    var f := Find(h.db.tokens, HasHash(req.hash));
    assert HasHash(req.hash)(h.db.tokens[f]);
  }

  /** In every reachable state: a registration succeeds exactly when the server is configured, the
      log still leaves the presented token valid, and the random digits are not already those of
      another domain of the partner. Otherwise nothing changes. */
  lemma RegistrationIsExact(steps: seq<Step>, env: Env, req: Request, clock: Clock)
    ensures var h := After(steps); var (db, outcome) := Register(h.db, env, req, clock);
      && (outcome.Done? <==>
            Misconfigured(env).None? && (exists t: nat :: Valid(h, t, req, clock.server)) && !DigitsTaken(h, req))
      && (outcome.Refused? ==> db == h.db)
  {
    RunsAreGood(steps);
    var h := After(steps);
    UpsertFailsOnTakenDigits(h, req, clock.db);
    if t: nat :| Valid(h, t, req, clock.server) {
      TokenByHash(h, req, t, clock.server);
    }
    var f := Find(h.db.tokens, HasHash(req.hash));
    if f < |h.db.tokens| && Rejected(h.db.tokens[f], req.partner, clock.server).None? {
      assert Recorded(h.db.tokens, h.log, f) && HasHash(req.hash)(h.db.tokens[f]);
      assert Valid(h, f, req, clock.server);
    }
  }

  /** The same holds of every operation: what is refused changes neither table, and is not logged. */
  lemma RefusalsChangeNothing(h: History, step: Step)
    ensures Apply(h.db, step).1.Refused? ==> Next(h, step) == h
  {}
}
