/** The token table told from the steps of a run and from which of them succeeded. */
module PartnerStories {
  import opened Options
  import opened PartnerTables
  import opened PartnerHistory

  // ----- what succeeded

  /** The answer to `step` after `steps`. */
  function AnswerTo(steps: seq<Step>, step: Step): Outcome { Apply(After(steps).db, step).1 }

  function Answer(steps: seq<Step>, n: nat): Outcome
    requires n < |steps|
  {
    AnswerTo(steps[..n], steps[n])
  }

  predicate Succeeds(steps: seq<Step>, n: nat) { n < |steps| && Answer(steps, n).Done? }

  /** Step `s` issues the token with this id, partner, hash and expiry. */
  predicate Issues(s: Step, token: Token) {
    && s.IssueStep? && s.id == token.id && s.partner == token.partner && s.hash == token.hash
    && s.validFor.Some? && token.expiresAt == s.clock.server + s.validFor.value
  }

  predicate Revokes(s: Step, id: Uuid) { s.RevokeStep? && s.uuid == Some(id) }
  predicate Spends(s: Step, hash: string) { s.RegisterStep? && s.req.hash == hash }

  predicate IssuedBy(steps: seq<Step>, i: nat, token: Token) { Succeeds(steps, i) && Issues(steps[i], token) }
  predicate RevokedBy(steps: seq<Step>, j: nat, id: Uuid) { Succeeds(steps, j) && Revokes(steps[j], id) }
  predicate UsedBy(steps: seq<Step>, j: nat, hash: string) { Succeeds(steps, j) && Spends(steps[j], hash) }

  ghost predicate WasIssued(steps: seq<Step>, token: Token) { exists i: nat :: IssuedBy(steps, i, token) }
  ghost predicate WasRevoked(steps: seq<Step>, id: Uuid) { exists j: nat :: RevokedBy(steps, j, id) }
  ghost predicate WasUsed(steps: seq<Step>, hash: string) { exists j: nat :: UsedBy(steps, j, hash) }

  lemma AfterOneMore(steps: seq<Step>, step: Step)
    ensures After(steps + [step]) == Next(After(steps), step)
  {
    assert (steps + [step])[..|steps|] == steps;
    hide Next;
  }

  lemma AnswerOneMore(steps: seq<Step>, step: Step, n: nat)
    requires n <= |steps|
    ensures Answer(steps + [step], n) == if n < |steps| then Answer(steps, n) else AnswerTo(steps, step)
  {
    var longer := steps + [step];
    if n < |steps| {
      assert longer[..n] == steps[..n];
    } else {
      assert longer[..n] == steps;
    }
    hide AnswerTo;
  }

  lemma SucceedsOneMore(steps: seq<Step>, step: Step, n: nat)
    ensures Succeeds(steps + [step], n) <==>
              Succeeds(steps, n) || (n == |steps| && AnswerTo(steps, step).Done?)
    ensures n < |steps| ==> Answer(steps + [step], n) == Answer(steps, n)
  {
    if n <= |steps| {
      AnswerOneMore(steps, step, n);
    }
    hide Answer;
  }

  lemma SucceedsAreSteps(steps: seq<Step>, n: nat)
    ensures Succeeds(steps, n) ==> n < |steps|
  {}

  lemma IssuedByOneMore(steps: seq<Step>, step: Step, i: nat, token: Token)
    ensures IssuedBy(steps + [step], i, token) <==>
              IssuedBy(steps, i, token) || (i == |steps| && AnswerTo(steps, step).Done? && Issues(step, token))
  {
    SucceedsOneMore(steps, step, i);
    SucceedsAreSteps(steps, i);
    SucceedsAreSteps(steps + [step], i);
    hide Succeeds, Issues, AnswerTo;
  }

  lemma RevokedByOneMore(steps: seq<Step>, step: Step, j: nat, id: Uuid)
    ensures RevokedBy(steps + [step], j, id) <==>
              RevokedBy(steps, j, id) || (j == |steps| && AnswerTo(steps, step).Done? && Revokes(step, id))
  {
    SucceedsOneMore(steps, step, j);
    SucceedsAreSteps(steps, j);
    SucceedsAreSteps(steps + [step], j);
    hide Succeeds, Revokes, AnswerTo;
  }

  lemma UsedByOneMore(steps: seq<Step>, step: Step, j: nat, hash: string)
    ensures UsedBy(steps + [step], j, hash) <==>
              UsedBy(steps, j, hash) || (j == |steps| && AnswerTo(steps, step).Done? && Spends(step, hash))
  {
    SucceedsOneMore(steps, step, j);
    SucceedsAreSteps(steps, j);
    SucceedsAreSteps(steps + [step], j);
    hide Succeeds, Spends, AnswerTo;
  }

  lemma WasIssuedOneMore(steps: seq<Step>, step: Step, token: Token)
    ensures WasIssued(steps + [step], token) <==>
              WasIssued(steps, token) || (AnswerTo(steps, step).Done? && Issues(step, token))
  {
    hide IssuedBy, Issues, AnswerTo;
    if i: nat :| IssuedBy(steps, i, token) {
      IssuedByOneMore(steps, step, i, token);
    }
    if i: nat :| IssuedBy(steps + [step], i, token) {
      IssuedByOneMore(steps, step, i, token);
    }
    IssuedByOneMore(steps, step, |steps|, token);
  }

  lemma WasRevokedOneMore(steps: seq<Step>, step: Step, id: Uuid)
    ensures WasRevoked(steps + [step], id) <==>
              WasRevoked(steps, id) || (AnswerTo(steps, step).Done? && Revokes(step, id))
  {
    hide RevokedBy, Revokes, AnswerTo;
    if j: nat :| RevokedBy(steps, j, id) {
      RevokedByOneMore(steps, step, j, id);
    }
    if j: nat :| RevokedBy(steps + [step], j, id) {
      RevokedByOneMore(steps, step, j, id);
    }
    RevokedByOneMore(steps, step, |steps|, id);
  }

  lemma WasUsedOneMore(steps: seq<Step>, step: Step, hash: string)
    ensures WasUsed(steps + [step], hash) <==>
              WasUsed(steps, hash) || (AnswerTo(steps, step).Done? && Spends(step, hash))
  {
    hide UsedBy, Spends, AnswerTo;
    if j: nat :| UsedBy(steps, j, hash) {
      UsedByOneMore(steps, step, j, hash);
    }
    if j: nat :| UsedBy(steps + [step], j, hash) {
      UsedByOneMore(steps, step, j, hash);
    }
    UsedByOneMore(steps, step, |steps|, hash);
  }

  // ----- what the rows tell

  /** The revocation column of `token` is as step `j` left it. */
  predicate RevokedThen(token: Token, steps: seq<Step>, j: nat) {
    RevokedBy(steps, j, token.id) && token.revokedAt == Some(steps[j].clock.db)
  }

  /** The columns of its use are as step `j` left them. */
  predicate UsedThen(token: Token, steps: seq<Step>, j: nat) {
    && UsedBy(steps, j, token.hash) && Answer(steps, j).event.Registered?
    && token.usedAt == Some(steps[j].clock.db) && token.usedFromIp == Some(steps[j].req.ip)
    && token.nodeId == Some(Answer(steps, j).event.nodeId)
  }

  ghost predicate TellsRevocation(token: Token, steps: seq<Step>) {
    && (token.revokedAt.Some? <==> WasRevoked(steps, token.id))
    && (forall j: nat :: RevokedBy(steps, j, token.id) ==> RevokedThen(token, steps, j))
  }

  ghost predicate TellsUse(token: Token, steps: seq<Step>) {
    && (token.usedAt.Some? <==> WasUsed(steps, token.hash))
    && (forall j: nat :: UsedBy(steps, j, token.hash) ==> UsedThen(token, steps, j))
  }

  ghost predicate Tells(token: Token, steps: seq<Step>) {
    WasIssued(steps, token) && TellsRevocation(token, steps) && TellsUse(token, steps)
  }

  /** The two tokens are one, before and after it is used or revoked. */
  predicate SameToken(a: Token, b: Token) {
    a.id == b.id && a.partner == b.partner && a.hash == b.hash && a.expiresAt == b.expiresAt
  }

  ghost predicate Listed(tokens: seq<Token>, token: Token) {
    exists t :: 0 <= t < |tokens| && SameToken(tokens[t], token)
  }

  /** Every row tells, and nothing was issued, revoked or used that has no row. */
  ghost predicate TableTells(tokens: seq<Token>, steps: seq<Step>) {
    && (forall t | 0 <= t < |tokens| :: Tells(tokens[t], steps))
    && (forall token: Token :: WasIssued(steps, token) ==> Listed(tokens, token))
    && (forall id: Uuid :: WasRevoked(steps, id) ==> exists t :: 0 <= t < |tokens| && tokens[t].id == id)
    && (forall hash: string :: WasUsed(steps, hash) ==> exists t :: 0 <= t < |tokens| && tokens[t].hash == hash)
  }

  // ----- rows and one more step

  lemma RevokedThenStill(token: Token, steps: seq<Step>, step: Step, j: nat)
    requires RevokedThen(token, steps, j)
    ensures RevokedThen(token, steps + [step], j)
  {
    RevokedByOneMore(steps, step, j, token.id);
    hide Succeeds;
    assert j < |steps| by { SucceedsAreSteps(steps, j); }
  }

  lemma UsedThenStill(token: Token, steps: seq<Step>, step: Step, j: nat)
    requires UsedThen(token, steps, j)
    ensures UsedThen(token, steps + [step], j)
  {
    UsedByOneMore(steps, step, j, token.hash);
    SucceedsOneMore(steps, step, j);
    SucceedsAreSteps(steps, j);
    hide Answer;
  }

  lemma RevocationUnaffected(token: Token, steps: seq<Step>, step: Step)
    requires TellsRevocation(token, steps) && !(AnswerTo(steps, step).Done? && Revokes(step, token.id))
    ensures TellsRevocation(token, steps + [step])
  {
    hide RevokedBy, Revokes, AnswerTo, RevokedThen;
    WasRevokedOneMore(steps, step, token.id);
    forall j: nat | RevokedBy(steps + [step], j, token.id) ensures RevokedThen(token, steps + [step], j) {
      RevokedByOneMore(steps, step, j, token.id);
      RevokedThenStill(token, steps, step, j);
    }
  }

  lemma UseUnaffected(token: Token, steps: seq<Step>, step: Step)
    requires TellsUse(token, steps) && !(AnswerTo(steps, step).Done? && Spends(step, token.hash))
    ensures TellsUse(token, steps + [step])
  {
    hide UsedBy, Spends, AnswerTo, UsedThen;
    WasUsedOneMore(steps, step, token.hash);
    forall j: nat | UsedBy(steps + [step], j, token.hash) ensures UsedThen(token, steps + [step], j) {
      UsedByOneMore(steps, step, j, token.hash);
      UsedThenStill(token, steps, step, j);
    }
  }

  lemma RowUnaffected(token: Token, steps: seq<Step>, step: Step)
    requires Tells(token, steps)
    requires AnswerTo(steps, step).Done? ==> !Revokes(step, token.id) && !Spends(step, token.hash)
    ensures Tells(token, steps + [step])
  {
    hide TellsRevocation, TellsUse, WasIssued, AnswerTo, Revokes, Spends;
    WasIssuedOneMore(steps, step, token);
    RevocationUnaffected(token, steps, step);
    UseUnaffected(token, steps, step);
  }

  lemma RevocationRecorded(token: Token, token': Token, steps: seq<Step>, step: Step)
    requires TellsRevocation(token, steps) && token.revokedAt.None? && token'.id == token.id
    requires AnswerTo(steps, step).Done? && Revokes(step, token.id) && token'.revokedAt == Some(step.clock.db)
    ensures TellsRevocation(token', steps + [step])
  {
    WasRevokedOneMore(steps, step, token.id);
    AnswerOneMore(steps, step, |steps|);
    hide AnswerTo, Answer, RevokedBy;
    forall j: nat | RevokedBy(steps + [step], j, token.id) ensures RevokedThen(token', steps + [step], j) {
      RevokedByOneMore(steps, step, j, token.id);
    }
  }

  lemma UseRecorded(token: Token, token': Token, steps: seq<Step>, step: Step)
    requires TellsUse(token, steps) && token.usedAt.None? && AnswerTo(steps, step).Done? && Spends(step, token.hash)
    requires AnswerTo(steps, step).event.Registered?
    requires token' == Spent(token, step.req.ip, AnswerTo(steps, step).event.nodeId, step.clock.db)
    ensures TellsUse(token', steps + [step])
  {
    WasUsedOneMore(steps, step, token.hash);
    AnswerOneMore(steps, step, |steps|);
    hide UsedBy, AnswerTo, Answer;
    forall j: nat | UsedBy(steps + [step], j, token.hash) ensures UsedThen(token', steps + [step], j) {
      UsedByOneMore(steps, step, j, token.hash);
    }
  }

  lemma IssueRecorded(token: Token, steps: seq<Step>, step: Step)
    requires AnswerTo(steps, step).Done? && Issues(step, token)
    requires token.revokedAt.None? && token.usedAt.None?
    requires !WasRevoked(steps, token.id) && !WasUsed(steps, token.hash)
    ensures Tells(token, steps + [step])
  {
    hide AnswerTo, Succeeds;
    WasIssuedOneMore(steps, step, token);
    assert TellsRevocation(token, steps + [step]) by {
      WasRevokedOneMore(steps, step, token.id);
    }
    assert TellsUse(token, steps + [step]) by {
      WasUsedOneMore(steps, step, token.hash);
    }
  }

  // ----- the table and one more step

  lemma NewlyListed(tokens: seq<Token>, tokens': seq<Token>, steps: seq<Step>, step: Step)
    requires TableTells(tokens, steps)
    requires |tokens| <= |tokens'| && forall t | 0 <= t < |tokens| :: SameToken(tokens[t], tokens'[t])
    requires AnswerTo(steps, step).Done? ==>
      && (forall token: Token :: Issues(step, token) ==> Listed(tokens', token))
      && (forall id: Uuid :: Revokes(step, id) ==> exists t :: 0 <= t < |tokens| && tokens[t].id == id)
      && (forall hash: string :: Spends(step, hash) ==> exists t :: 0 <= t < |tokens| && tokens[t].hash == hash)
    requires forall t | 0 <= t < |tokens'| :: Tells(tokens'[t], steps + [step])
    ensures TableTells(tokens', steps + [step])
  {
    hide AnswerTo, WasIssued, WasRevoked, WasUsed, Issues, Revokes, Spends, Tells;
    var longer := steps + [step];
    forall token: Token | WasIssued(longer, token) ensures Listed(tokens', token) {
      WasIssuedOneMore(steps, step, token);
      if WasIssued(steps, token) {
        var t :| 0 <= t < |tokens| && SameToken(tokens[t], token);
        assert SameToken(tokens'[t], token);
      }
    }
    forall id: Uuid | WasRevoked(longer, id) ensures exists t :: 0 <= t < |tokens'| && tokens'[t].id == id {
      WasRevokedOneMore(steps, step, id);
      var t :| 0 <= t < |tokens| && tokens[t].id == id;
      assert tokens'[t].id == id;
    }
    forall hash: string | WasUsed(longer, hash) ensures exists t :: 0 <= t < |tokens'| && tokens'[t].hash == hash {
      WasUsedOneMore(steps, step, hash);
      var t :| 0 <= t < |tokens| && tokens[t].hash == hash;
      assert tokens'[t].hash == hash;
    }
  }

  /** A step that fails, or that touches no token. */
  lemma QuietTells(tokens: seq<Token>, steps: seq<Step>, step: Step)
    requires TableTells(tokens, steps) && (AnswerTo(steps, step).Refused? || step.DeactivateStep?)
    ensures TableTells(tokens, steps + [step])
  {
    hide Tells, AnswerTo, WasIssued, WasRevoked, WasUsed;
    forall t | 0 <= t < |tokens| ensures Tells(tokens[t], steps + [step]) {
      RowUnaffected(tokens[t], steps, step);
    }
    NewlyListed(tokens, tokens, steps, step);
  }

  lemma IssueTells(tokens: seq<Token>, token: Token, steps: seq<Step>, step: Step)
    requires TableTells(tokens, steps) && AnswerTo(steps, step).Done? && Issues(step, token)
    requires token.revokedAt.None? && token.usedAt.None?
    requires forall t | 0 <= t < |tokens| :: tokens[t].id != token.id && tokens[t].hash != token.hash
    ensures TableTells(tokens + [token], steps + [step])
  {
    hide Tells, AnswerTo, WasIssued, WasRevoked, WasUsed;
    forall t | 0 <= t < |tokens| ensures Tells(tokens[t], steps + [step]) {
      RowUnaffected(tokens[t], steps, step);
    }
    IssueRecorded(token, steps, step);
    forall other: Token | Issues(step, other) ensures Listed(tokens + [token], other) {
      assert SameToken((tokens + [token])[|tokens|], other);
    }
    NewlyListed(tokens, tokens + [token], steps, step);
  }

  lemma RevokeTells(tokens: seq<Token>, t: nat, steps: seq<Step>, step: Step)
    requires TableTells(tokens, steps) && TokensGood(tokens) && t < |tokens| && tokens[t].revokedAt.None?
    requires AnswerTo(steps, step).Done? && Revokes(step, tokens[t].id)
    ensures TableTells(tokens[t := tokens[t].(revokedAt := Some(step.clock.db))], steps + [step])
  {
    var token' := tokens[t].(revokedAt := Some(step.clock.db));
    assert Tells(token', steps + [step]) by {
      hide AnswerTo;
      RevocationRecorded(tokens[t], token', steps, step);
      UseUnaffected(token', steps, step);
      WasIssuedOneMore(steps, step, tokens[t]);
      SameIssue(steps + [step], tokens[t], token');
      hide *;
    }
    hide Tells, AnswerTo, WasIssued, WasRevoked, WasUsed;
    forall k | 0 <= k < |tokens| && k != t ensures Tells(tokens[k], steps + [step]) {
      RowUnaffected(tokens[k], steps, step);
    }
    NewlyListed(tokens, tokens[t := token'], steps, step);
  }

  lemma SameIssue(steps: seq<Step>, a: Token, b: Token)
    requires SameToken(a, b) && WasIssued(steps, a)
    ensures WasIssued(steps, b)
  {
    hide Succeeds;
    var i: nat :| IssuedBy(steps, i, a);
    assert IssuedBy(steps, i, b);
  }

  lemma UseTells(tokens: seq<Token>, t: nat, steps: seq<Step>, step: Step)
    requires TableTells(tokens, steps) && TokensGood(tokens) && t < |tokens| && tokens[t].usedAt.None?
    requires AnswerTo(steps, step).Done? && Spends(step, tokens[t].hash) && AnswerTo(steps, step).event.Registered?
    ensures TableTells(
              tokens[t := Spent(tokens[t], step.req.ip, AnswerTo(steps, step).event.nodeId, step.clock.db)],
              steps + [step])
  {
    var token' := Spent(tokens[t], step.req.ip, AnswerTo(steps, step).event.nodeId, step.clock.db);
    assert Tells(token', steps + [step]) by {
      hide AnswerTo;
      UseRecorded(tokens[t], token', steps, step);
      RevocationUnaffected(token', steps, step);
      WasIssuedOneMore(steps, step, tokens[t]);
      SameIssue(steps + [step], tokens[t], token');
      hide *;
    }
    hide Tells, AnswerTo, WasIssued, WasRevoked, WasUsed;
    forall k | 0 <= k < |tokens| && k != t ensures Tells(tokens[k], steps + [step]) {
      RowUnaffected(tokens[k], steps, step);
    }
    NewlyListed(tokens, tokens[t := token'], steps, step);
  }

  // ----- every run

  lemma IssueWrites(db: Db, step: Step)
    requires step.IssueStep? && Apply(db, step).1.Done?
    ensures step.validFor.Some?
    ensures var expiresAt := step.clock.server + step.validFor.value;
      Apply(db, step).0.tokens ==
        db.tokens + [Token(step.id, step.partner, step.hash, expiresAt, None, None, None, None)]
    ensures forall t | 0 <= t < |db.tokens| :: db.tokens[t].id != step.id && db.tokens[t].hash != step.hash
  {
    assert forall t | 0 <= t < |db.tokens| :: !HasHash(step.hash)(db.tokens[t]) && !HasId(step.id)(db.tokens[t]);
    hide IsPartnerId;
  }

  lemma RegisterWrites(db: Db, step: Step) returns (t: nat)
    requires step.RegisterStep? && Apply(db, step).1.Done?
    ensures t < |db.tokens| && db.tokens[t].hash == step.req.hash && db.tokens[t].usedAt.None?
    ensures Apply(db, step).1.event.Registered?
    ensures Apply(db, step).0.tokens ==
      db.tokens[t := Spent(db.tokens[t], step.req.ip, Apply(db, step).1.event.nodeId, step.clock.db)]
  {
    t := Find(db.tokens, HasHash(step.req.hash));
    hide Misconfigured, Upsert;
  }

  lemma RevokeWrites(db: Db, step: Step) returns (t: nat)
    requires step.RevokeStep? && Apply(db, step).1.Done?
    ensures t < |db.tokens| && step.uuid == Some(db.tokens[t].id) && db.tokens[t].revokedAt.None?
    ensures Apply(db, step).0.tokens == db.tokens[t := db.tokens[t].(revokedAt := Some(step.clock.db))]
  {
    t := Find(db.tokens, HasId(step.uuid.value));
  }

  lemma RestWritesNothing(db: Db, step: Step)
    requires step.DeactivateStep? || Apply(db, step).1.Refused?
    ensures Apply(db, step).0.tokens == db.tokens
  {
    RefusalsKeepTables(db, step);
  }

  lemma RefusalsKeepTables(db: Db, step: Step)
    ensures Apply(db, step).1.Refused? ==> Apply(db, step).0 == db
  {
    hide Misconfigured, Upsert, Rejected;
  }

  lemma StepTells(steps: seq<Step>, step: Step)
    requires TableTells(After(steps).db.tokens, steps) && TokensGood(After(steps).db.tokens)
    ensures TableTells(After(steps + [step]).db.tokens, steps + [step])
  {
    AfterOneMore(steps, step);
    var (db, db') := (After(steps).db, After(steps + [step]).db);
    assert db' == Apply(db, step).0 && AnswerTo(steps, step) == Apply(db, step).1;
    if step.DeactivateStep? || AnswerTo(steps, step).Refused? {
      RestWritesNothing(db, step);
      hide *;
      QuietTells(db.tokens, steps, step);
    } else {
      hide TableTells, TokensGood, AnswerTo, Apply, After, Next;
      match step
      case IssueStep(_, _, _, _, _) =>
        IssueWrites(db, step);
        IssueTells(db.tokens, db'.tokens[|db.tokens|], steps, step);
      case RegisterStep(_, _, _) =>
        var t := RegisterWrites(db, step);
        UseTells(db.tokens, t, steps, step);
      case RevokeStep(_, _) =>
        var t := RevokeWrites(db, step);
        RevokeTells(db.tokens, t, steps, step);
    }
  }

  /** In every reachable state the token table tells exactly what the successful steps did. */
  lemma {:induction false} TablesTell(steps: seq<Step>)
    ensures TableTells(After(steps).db.tokens, steps) && TokensGood(After(steps).db.tokens)
  {
    RunsAreGood(steps);
    if steps == [] {
    } else {
      var n := |steps| - 1;
      assert steps == steps[..n] + [steps[n]];
      TablesTell(steps[..n]);
      hide TableTells, TokensGood, After;
      StepTells(steps[..n], steps[n]);
    }
  }
}
