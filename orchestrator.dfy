/** The request handler of the daily penalty job: run the penalty calculation, then the two
    notification stages as the result allows, and report. */
module Orchestrator {
  import opened Records
  import opened Store
  import PenaltyNotifications
  import Escalation

  /** The summary returned by the penalty calculation procedure; apart from `success`,
      `date_processed` and `penalties_created` it is passed through unread. */
  datatype CalcResult = CalcResult(
    success: bool,
    dateProcessed: Option<string>,
    usersProcessed: Option<int>,
    penaltiesCreated: Option<int>,
    targetDeeds: Option<int>,
    penaltyPerDeed: Option<int>,
    errors: Option<seq<string>>,
    timestamp: Option<string>,
    error: Option<string>)

  /** The procedure call's answer: its data and its error (as the error's message). */
  datatype CalcReply = CalcReply(data: Option<CalcResult>, error: Option<string>)

  /** The JSON response (without its timestamp). */
  datatype Response = Response(
    success: bool,
    status: int,
    result: Option<CalcResult>,
    error: Option<string>,
    timezone: string)

  const Timezone: string := "EAT (UTC+3)"
  const NoResultMessage: string := "No result returned from penalty calculation"

  /** The calculation neither errored nor returned null. */
  predicate Computed(reply: CalcReply)
  {
    reply.error.None? && reply.data.Some?
  }

  /** `success && penalties_created && penalties_created > 0`. */
  predicate RunsPenaltyStage(r: CalcResult)
  {
    r.success && r.penaltiesCreated.Some? && r.penaltiesCreated.value > 0
  }

  /** `success`, whether or not any penalty was created. */
  predicate RunsEscalationStage(r: CalcResult)
  {
    r.success
  }

  /** The response depends only on the calculation call: a stage's failure is caught and
      never reaches it, and a returned result is reported as success even when its own
      `success` is false. */
  function Respond(reply: CalcReply): (resp: Response)
    ensures resp.success <==> Computed(reply)
    ensures resp.status == if Computed(reply) then 200 else 500
    ensures resp.timezone == Timezone
    ensures Computed(reply) ==> resp.result == reply.data && resp.error.None?
    ensures reply.error.Some? ==> resp.error == reply.error && resp.result.None?
    ensures reply.error.None? && reply.data.None? ==> resp.error == Some(NoResultMessage) && resp.result.None?
  {
    if reply.error.Some? then Response(false, 500, None, reply.error, Timezone)
    else if reply.data.None? then Response(false, 500, None, Some(NoResultMessage), Timezone)
    else Response(true, 200, reply.data, None, Timezone)
  }

  /** The inserts made by the penalty notification stage during a run. */
  function PenaltyPart(reply: CalcReply, fetch: Fetch<PenaltyNotifications.Penalty>, rs: seq<PenaltyNotifications.PenaltyReply>): seq<Attempt>
    requires fetch.Fetched? ==> |rs| == |fetch.rows|
  {
    if Computed(reply) && RunsPenaltyStage(reply.data.value) then PenaltyNotifications.StageAttempts(fetch, rs) else []
  }

  /** The inserts made by the escalation stage during a run. */
  function EscalationPart(reply: CalcReply, scan: Fetch<UserId>, rs: seq<Escalation.UserReply>): seq<Attempt>
    requires scan.Fetched? ==> |rs| == |scan.rows|
  {
    if Computed(reply) && RunsEscalationStage(reply.data.value) then Escalation.StageAttempts(scan, rs) else []
  }

  /** The users deactivated during a run. */
  function DeactivatedPart(reply: CalcReply, scan: Fetch<UserId>, rs: seq<Escalation.UserReply>): set<UserId>
    requires scan.Fetched? ==> |rs| == |scan.rows|
  {
    if Computed(reply) && RunsEscalationStage(reply.data.value) then Escalation.StageDeactivated(scan, rs) else {}
  }

  /** The handler body: a fatal calculation error or a null result ends the run with a
      failure response; otherwise the stages run as gated, each one's failure is caught, and
      the run reports success. */
  method Serve(
    db: Database, reply: CalcReply,
    penaltyFetch: Fetch<PenaltyNotifications.Penalty>, penaltyReplies: seq<PenaltyNotifications.PenaltyReply>,
    userScan: Fetch<UserId>, userReplies: seq<Escalation.UserReply>)
    returns (resp: Response)
    requires penaltyFetch.Fetched? ==> |penaltyReplies| == |penaltyFetch.rows|
    requires userScan.Fetched? ==> |userReplies| == |userScan.rows|
    requires userScan.Fetched? ==> Escalation.ScanSound(db.users, userScan.rows)
    modifies db
    ensures resp == Respond(reply)
    ensures db.users == Deactivate(old(db.users), DeactivatedPart(reply, userScan, userReplies))
    ensures Escalation.OnlyInScopeDeactivated(old(db.users), db.users)
    ensures db.queue == old(db.queue) + Delivered(PenaltyPart(reply, penaltyFetch, penaltyReplies))
                                      + Delivered(EscalationPart(reply, userScan, userReplies))
  {
    assert Deactivate(db.users, {}) == db.users;
    if reply.error.Some? {
      return Response(false, 500, None, reply.error, Timezone);
    }
    if reply.data.None? {
      return Response(false, 500, None, Some(NoResultMessage), Timezone);
    }
    var calculationResult := reply.data.value;
    if calculationResult.success && calculationResult.penaltiesCreated.Some? && calculationResult.penaltiesCreated.value > 0 {
      var _ := PenaltyNotifications.SendPenaltyNotifications(db, penaltyFetch, penaltyReplies);
    }
    ghost var afterPenalties := db.queue;
    assert afterPenalties == old(db.queue) + Delivered(PenaltyPart(reply, penaltyFetch, penaltyReplies));
    if calculationResult.success {
      var _ := Escalation.CheckDeactivationWarnings(db, userScan, userReplies);
    }
    assert db.queue == afterPenalties + Delivered(EscalationPart(reply, userScan, userReplies));
    resp := Response(true, 200, reply.data, None, Timezone);
  }

  /** The penalty stage runs only when the escalation stage runs too; zero or missing
      `penalties_created` skips it. */
  lemma Gating(r: CalcResult)
    ensures RunsPenaltyStage(r) ==> RunsEscalationStage(r)
    ensures r.penaltiesCreated == None || r.penaltiesCreated == Some(0) ==> !RunsPenaltyStage(r)
    ensures !r.success ==> !RunsPenaltyStage(r) && !RunsEscalationStage(r)
  {
  }

  /** A fatal calculation failure touches neither table. */
  lemma FatalRunHasNoEffects(reply: CalcReply, pf: Fetch<PenaltyNotifications.Penalty>, pr: seq<PenaltyNotifications.PenaltyReply>,
                             us: Fetch<UserId>, ur: seq<Escalation.UserReply>)
    requires pf.Fetched? ==> |pr| == |pf.rows|
    requires us.Fetched? ==> |ur| == |us.rows|
    requires !Computed(reply)
    ensures PenaltyPart(reply, pf, pr) == [] && EscalationPart(reply, us, ur) == []
    ensures DeactivatedPart(reply, us, ur) == {}
    ensures !Respond(reply).success && Respond(reply).status == 500
  {
  }

  /** A returned result whose own `success` is false runs no stage and is still reported as a
      successful run. */
  lemma UnsuccessfulResultReportedAsSuccess(r: CalcResult, pf: Fetch<PenaltyNotifications.Penalty>, pr: seq<PenaltyNotifications.PenaltyReply>,
                                            us: Fetch<UserId>, ur: seq<Escalation.UserReply>)
    requires pf.Fetched? ==> |pr| == |pf.rows|
    requires us.Fetched? ==> |ur| == |us.rows|
    requires !r.success
    ensures var reply := CalcReply(Some(r), None);
      Respond(reply).success && Respond(reply).status == 200 && Respond(reply).result == Some(r) &&
      PenaltyPart(reply, pf, pr) == [] && EscalationPart(reply, us, ur) == [] && DeactivatedPart(reply, us, ur) == {}
  {
  }

  /** A consequence of the definitions rather than a property of the handler's code: since
      `EscalationPart` and `DeactivatedPart` take no penalty-stage input, a failed penalty
      query contributes nothing and the escalation stage's effects are those of the stage
      alone. */
  lemma StagesIndependent(reply: CalcReply, pr: seq<PenaltyNotifications.PenaltyReply>,
                          us: Fetch<UserId>, ur: seq<Escalation.UserReply>)
    requires us.Fetched? ==> |ur| == |us.rows|
    requires Computed(reply) && reply.data.value.success
    ensures PenaltyPart(reply, FetchFailed, pr) == []
    ensures EscalationPart(reply, us, ur) == Escalation.StageAttempts(us, ur)
    ensures DeactivatedPart(reply, us, ur) == Escalation.StageDeactivated(us, ur)
    ensures Respond(reply).success
  {
  }
}
