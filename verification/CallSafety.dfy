/** Rooms and negotiation together: what a call between any two peers that meet in a room comes to. */
module CallSafety {
  import Sessions
  import RoomRoles
  import Negotiation
  import CallAgreement
  import PolitePeers

  /** Sessions `a` and `b` meet in room `id`, which let `a` in at step `j`, before `b` was there; and
      they negotiate with the roles that the room gave them. */
  ghost predicate Meet(
    run: seq<Sessions.World>, events: seq<Sessions.Event>, j: nat, i: nat, m: nat, id: string, a: nat, b: nat,
    talk: seq<Negotiation.System>, actions: seq<Negotiation.Action>)
  {
    && Sessions.IsRun(run, events) && run[0] == Sessions.Init()
    && RoomRoles.FirstLetIn(run, events, j, i, m, id, a, b)
    && Negotiation.IsRun(talk, actions) && Negotiation.Meeting(talk[0])
    && talk[0].left.polite == run[m].sessions[a].polite && talk[0].right.polite == run[m].sessions[b].polite
  }

  lemma MeetingsStart(
    run: seq<Sessions.World>, events: seq<Sessions.Event>, j: nat, i: nat, m: nat, id: string, a: nat, b: nat,
    talk: seq<Negotiation.System>, actions: seq<Negotiation.Action>)
    requires Meet(run, events, j, i, m, id, a, b, talk, actions)
    ensures Negotiation.Start(talk[0])
    ensures talk[0].left.polite <==> Sessions.Occupants(run[j], id) != {}
  {
    RoomRoles.OneImpoliteExactly(run, events, j, i, m, id, a, b);
  }

  /** In every run of the server, any two peers that meet in a room have roles with which every run
      of their negotiation is free of glare deadlock, and comes to rest once no more offers are
      started; this includes the offers that the first peer made before there was anybody to hear, and
      whatever earlier calls have left of its flags. */
  lemma PeersInARoomSettle(
    run: seq<Sessions.World>, events: seq<Sessions.Event>, j: nat, i: nat, m: nat, id: string, a: nat, b: nat,
    talk: seq<Negotiation.System>, actions: seq<Negotiation.Action>, n: nat)
    requires Meet(run, events, j, i, m, id, a, b, talk, actions) && n < |talk|
    ensures Negotiation.Quiescent(talk[n]) ==> talk[n].left.state.Stable? && talk[n].right.state.Stable?
    ensures !Negotiation.Quiescent(talk[n]) ==>
              exists step: Negotiation.Action :: !step.Begin? && Negotiation.Enabled(talk[n], step)
  {
    MeetingsStart(run, events, j, i, m, id, a, b, talk, actions);
    Negotiation.QuiescentIsStable(talk, actions, n);
    Negotiation.StepsUseUpWork(talk[n], Negotiation.Begin(Negotiation.Left));
  }

  /** And exactly when they then agree: if the room was empty when it let the first of them in, if and
      only if nobody replaced an offer that was answered; if somebody was there, if and only if
      neither sent or accepted an offer while awaiting an answer. */
  lemma PeersInARoomAgreeExactly(
    run: seq<Sessions.World>, events: seq<Sessions.Event>, j: nat, i: nat, m: nat, id: string, a: nat, b: nat,
    talk: seq<Negotiation.System>, actions: seq<Negotiation.Action>, n: nat)
    requires Meet(run, events, j, i, m, id, a, b, talk, actions) && n < |talk| && Negotiation.Quiescent(talk[n])
    ensures talk[n].left.agreed == talk[n].right.agreed <==>
              if Sessions.Occupants(run[j], id) == {} then CallAgreement.AllClean(talk, actions, n)
              else PolitePeers.AllOrderly(talk, actions, n)
  {
    MeetingsStart(run, events, j, i, m, id, a, b, talk, actions);
    if talk[0].left.polite {
      PolitePeers.PoliteAgreementIsExact(talk, actions, n);
    } else {
      CallAgreement.AgreementIsExact(talk, actions, n);
    }
  }
}
