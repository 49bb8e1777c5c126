/**
 * The real-time layer. Every connection is joined to the room named by its
 * uid, and every server emission goes to one room, so a user only ever sees
 * the previews of their own proposals. The room traffic is modelled by the
 * class Hub, whose log is the sequence of notifications sent; the handlers
 * for a chat message, an accept and a decline change the store and append
 * their notifications to that log.
 */
module Sockets {
  import opened Wrappers
  import opened Json
  import opened Errors
  import opened StateStore
  import LatexValidator
  import GroClient
  import ResumeService
  import UserLogger

  /** The events the server emits. */
  datatype Event = PreviewEvent | CommittedEvent | AssignEvent {
    function Name(): string {
      match this
      case PreviewEvent => "resume:updatePreview"
      case CommittedEvent => "resume:committed"
      case AssignEvent => "uid:assign"
    }
  }

  /** The payloads the server emits. Absent fields of the preview are None. */
  datatype Payload =
    | Preview(proposedTex: Option<string>, explanation: Json, valid: bool, errors: Option<seq<string>>, committed: Option<bool>)
    | CommittedTex(currentTex: string)
    | UidAssignment(uid: string)

  /** One emission to the room `room`. */
  datatype Notification = Notification(room: Uid, event: Event, payload: Payload)

  /** The notifications of `sent` that reach room `uid`, in order. */
  function DeliveredTo(sent: seq<Notification>, uid: Uid): (r: seq<Notification>)
    ensures forall k :: 0 <= k < |r| ==> r[k].room == uid && r[k] in sent
    ensures |r| <= |sent|
  {
    if sent == [] then []
    else
      var init := DeliveredTo(sent[..|sent| - 1], uid);
      var last := sent[|sent| - 1];
      init + (if last.room == uid then [last] else [])
  }

  /** An emission to one room changes nothing another room receives and
      appends exactly itself to its own room. */
  lemma EmitIsolated(sent: seq<Notification>, n: Notification, uid: Uid)
    ensures n.room != uid ==> DeliveredTo(sent + [n], uid) == DeliveredTo(sent, uid)
    ensures n.room == uid ==> DeliveredTo(sent + [n], uid) == DeliveredTo(sent, uid) + [n]
  {
    assert (sent + [n])[..|sent|] == sent;
  }

  /** What an emission sequence adds to a room is what it adds to the log, filtered. */
  lemma {:induction false} DeliveredConcat(a: seq<Notification>, b: seq<Notification>, uid: Uid)
    ensures DeliveredTo(a + b, uid) == DeliveredTo(a, uid) + DeliveredTo(b, uid)
    decreases |b|
  {
    if b == [] {
      assert a + b == a;
    } else {
      var init := b[..|b| - 1];
      assert (a + b)[..|a + b| - 1] == a + init;
      assert (a + b)[|a + b| - 1] == b[|b| - 1];
      DeliveredConcat(a, init, uid);
    }
  }

  /** The room broadcaster: `emitToUid` drops emissions for an empty uid. */
  class Hub {
    var sent: seq<Notification>

    constructor()
      ensures sent == []
    {
      sent := [];
    }

    method EmitToUid(uid: Uid, event: Event, payload: Payload)
      modifies this
      ensures sent == old(sent) + (if uid == "" then [] else [Notification(uid, event, payload)])
    {
      if uid == "" {
        return;
      }
      sent := sent + [Notification(uid, event, payload)];
    }
  }

  // --------------------------------------------------------------- payloads

  /** The preview of a generated proposal, with the validator's verdict. */
  function ProposalPreview(g: GroClient.Generated): (p: Payload)
    ensures p.Preview? && p.proposedTex == Some(g.proposedTex) && p.committed.None?
    ensures p.errors == Some(LatexValidator.ValidationErrors(g.proposedTex))
    ensures p.valid <==> p.errors == Some([])
    ensures Truthy(p.explanation) || p.explanation == JString("")
  {
    Preview(Some(g.proposedTex), OrEmpty(g.explanation), LatexValidator.IsValid(g.proposedTex),
      Some(LatexValidator.ValidationErrors(g.proposedTex)), None)
  }

  /** The preview of a failed generation: no document, the error's message. */
  function GenerationFailedPreview(e: Error): (p: Payload)
    ensures p.Preview? && p.proposedTex.None? && !p.valid && p.committed.None?
    ensures p.errors == Some([e.Message()])
  {
    Preview(None, JString("Error from Gro: " + e.Message()), false, Some([e.Message()]), None)
  }

  /** The previews after a commit or a decline: no document, valid, and the
      `committed` flag telling which. */
  function ResolvedPreview(committed: bool): (p: Payload)
    ensures p.Preview? && p.proposedTex.None? && p.valid && p.errors.None? && p.committed == Some(committed)
  {
    Preview(None, JString(if committed then "Committed" else "Declined"), true, None, Some(committed))
  }

  /** The preview of a refused accept or decline: the error's message, and the
      validator's errors when the refusal carries them. */
  function RefusedPreview(e: Error, withList: bool): (p: Payload)
    ensures p.Preview? && p.proposedTex.None? && !p.valid && p.committed.None?
    ensures p.explanation == JString(e.Message())
    ensures withList && e.ValidationFailed? ==> p.errors == Some(e.errors)
    ensures !(withList && e.ValidationFailed?) ==> p.errors == Some([e.Message()])
  {
    Preview(None, JString(e.Message()), false, Some(if withList then e.ErrorList().GetOr([e.Message()]) else [e.Message()]), None)
  }

  // ------------------------------------------------------------ connection

  /** The uid of a new connection: the `uid` cookie, else the `uid` query
      parameter, else a fresh token, which is then announced to the socket with
      `uid:assign`. An absent cookie or parameter is the empty string. */
  method ResolveUid(cookieUid: Uid, queryUid: Uid, token: Uid) returns (uid: Uid, assign: Option<Payload>)
    requires token != ""
    ensures uid != ""
    ensures cookieUid != "" ==> uid == cookieUid
    ensures cookieUid == "" && queryUid != "" ==> uid == queryUid
    ensures cookieUid == "" && queryUid == "" ==> uid == token
    ensures assign.Some? <==> cookieUid == "" && queryUid == ""
    ensures assign.Some? ==> assign.value == UidAssignment(uid)
  {
    uid := cookieUid;
    if uid == "" {
      uid := queryUid;
    }
    assign := None;
    if uid == "" {
      uid := token;
      assign := Some(UidAssignment(uid));
    }
  }

  /** `io.on('connection')`: resolve the uid, then count the connection. */
  method OnConnection(logger: UserLogger.UserLogger, cookieUid: Uid, queryUid: Uid, token: Uid, now: nat)
    returns (uid: Uid, assign: Option<Payload>)
    requires token != "" && logger.Valid()
    modifies logger
    ensures logger.Valid() && uid != ""
    ensures uid == (if cookieUid != "" then cookieUid else if queryUid != "" then queryUid else token)
    ensures assign == (if cookieUid == "" && queryUid == "" then Some(UidAssignment(uid)) else None)
    ensures logger.active == UserLogger.Incremented(old(logger.active), uid)
    ensures logger.log == old(logger.log) + [UserLogger.LogLine(now, uid, UserLogger.Connect)]
    ensures logger.unique == old(logger.unique)
  {
    uid, assign := ResolveUid(cookieUid, queryUid, token);
    logger.IncrementActive(uid, now);
  }

  /** `disconnect`: leave the room and count the connection down. */
  method OnDisconnect(logger: UserLogger.UserLogger, uid: Uid, now: nat)
    requires uid != "" && logger.Valid()
    modifies logger
    ensures logger.Valid()
    ensures logger.active == UserLogger.Decremented(old(logger.active), uid)
    ensures logger.log == old(logger.log) + [UserLogger.LogLine(now, uid, UserLogger.Disconnect)]
    ensures logger.unique == old(logger.unique)
  {
    logger.DecrementActive(uid, now);
  }

  // -------------------------------------------------------------- handlers

  /** The step both message paths share: validate the generated proposal,
      store it as pending whatever the verdict, and build its preview. */
  method StoreProposal(store: StateStore, uid: Uid, g: GroClient.Generated) returns (p: Payload)
    requires store.Valid() && uid != ""
    modifies store
    ensures store.Valid()
    ensures p == ProposalPreview(g)
    ensures store.store == old(store.store)[uid := WithPending(old(store.RecordAt(uid)), g.proposedTex)]
  {
    var valid, errors := LatexValidator.ValidateTex(g.proposedTex);
    var _ := store.SetPending(uid, uid, g.proposedTex);
    p := Preview(Some(g.proposedTex), OrEmpty(g.explanation), valid, Some(errors), None);
  }

  /** `chat:userMessage`: an empty message is ignored. Otherwise the record is
      ensured, the generator asked, and on success the proposal stored as
      pending (valid or not) and previewed; on failure only the error is
      previewed and nothing is stored. `propose` stands for
      `groClient.proposeUpdate`. */
  method OnUserMessage(store: StateStore, hub: Hub, uid: Uid, message: string,
                       propose: (string, string) -> Result<GroClient.Generated, Error>)
    requires store.Valid() && uid != ""
    modifies store, hub
    ensures store.Valid()
    ensures message == "" ==> store.store == old(store.store) && hub.sent == old(hub.sent)
    ensures var before := old(store.RecordAt(uid));
      var generated := propose(message, before.currentTex);
      message != "" && generated.Success? ==>
        && store.store == old(store.store)[uid := WithPending(before, generated.value.proposedTex)]
        && hub.sent == old(hub.sent) + [Notification(uid, PreviewEvent, ProposalPreview(generated.value))]
    ensures var before := old(store.RecordAt(uid));
      var generated := propose(message, before.currentTex);
      message != "" && generated.Failure? ==>
        && store.store == old(store.store)[uid := before]
        && hub.sent == old(hub.sent) + [Notification(uid, PreviewEvent, GenerationFailedPreview(generated.error))]
  {
    if message == "" {
      return;
    }
    var _, state := store.Ensure(uid, uid);
    var result := propose(message, state.currentTex);
    if result.Success? {
      var preview := StoreProposal(store, uid, result.value);
      hub.EmitToUid(uid, PreviewEvent, preview);
    } else {
      hub.EmitToUid(uid, PreviewEvent, GenerationFailedPreview(result.error));
    }
  }

  /** Why an accept is refused: nothing pending, or the pending document's errors. */
  function AcceptRefusal(store: map<Uid, Record>, uid: Uid): (e: Error)
    ensures e.Status() == Some(400)
  {
    if uid in store && HasPending(store[uid]) then ValidationFailed(LatexValidator.ValidationErrors(store[uid].pendingTex.value))
    else NoPendingProposal("accept")
  }

  /** `resume:accept`: on success a "Committed" preview and then the committed
      document; on refusal a preview with the error (and the validator's list). */
  method OnAccept(store: StateStore, hub: Hub, uid: Uid, now: int)
    requires store.Valid() && uid != ""
    modifies store, hub
    ensures store.Valid()
    ensures ResumeService.CanAccept(old(store.store), uid) ==>
      var pending := old(store.store[uid]).pendingTex.value;
      && store.store == old(store.store)[uid := Accepted(old(store.store[uid]), now)]
      && hub.sent == old(hub.sent) + [Notification(uid, PreviewEvent, ResolvedPreview(true)), Notification(uid, CommittedEvent, CommittedTex(pending))]
    ensures !ResumeService.CanAccept(old(store.store), uid) ==>
      && store.store == old(store.store)
      && hub.sent == old(hub.sent) + [Notification(uid, PreviewEvent, RefusedPreview(AcceptRefusal(old(store.store), uid), true))]
  {
    var res := ResumeService.AcceptPending(store, uid, now);
    match res
    case Success(c) =>
      hub.EmitToUid(uid, PreviewEvent, Preview(None, JString("Committed"), true, None, Some(true)));
      hub.EmitToUid(uid, CommittedEvent, CommittedTex(c.currentTex));
    case Failure(e) =>
      hub.EmitToUid(uid, PreviewEvent, Preview(None, JString(e.Message()), false, Some(e.ErrorList().GetOr([e.Message()])), None));
  }

  /** `resume:decline`: on success a "Declined" preview; on refusal the error. */
  method OnDecline(store: StateStore, hub: Hub, uid: Uid, now: int)
    requires store.Valid() && uid != ""
    modifies store, hub
    ensures store.Valid()
    ensures uid in old(store.store) && HasPending(old(store.store[uid])) ==>
      && store.store == old(store.store)[uid := Declined(old(store.store[uid]), now)]
      && hub.sent == old(hub.sent) + [Notification(uid, PreviewEvent, ResolvedPreview(false))]
    ensures !(uid in old(store.store) && HasPending(old(store.store[uid]))) ==>
      && store.store == old(store.store)
      && hub.sent == old(hub.sent) + [Notification(uid, PreviewEvent, RefusedPreview(NoPendingProposal("decline"), false))]
  {
    var res := ResumeService.DeclinePending(store, uid, now);
    match res
    case Success(_) =>
      hub.EmitToUid(uid, PreviewEvent, Preview(None, JString("Declined"), true, None, Some(false)));
    case Failure(e) =>
      hub.EmitToUid(uid, PreviewEvent, Preview(None, JString(e.Message()), false, Some([e.Message()]), None));
  }
}
