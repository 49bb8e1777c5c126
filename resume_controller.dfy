/**
 * The resume routes: loading a template into the user's document, and
 * accepting or declining the pending proposal. Accept and decline notify the
 * user's sockets only when they succeed; refusals go to the error middleware
 * with their status.
 */
module ResumeController {
  import opened Wrappers
  import opened Errors
  import opened StateStore
  import TemplateService
  import ResumeService
  import Sockets
  import opened ChatController
  import Json

  /** `GET /api/resume/template/:id`: a rejected id or an unreadable file
      goes to the error middleware and changes nothing; otherwise the
      template is seeded as the user's document and returned. `read` stands
      for reading `<id>.tex` from the template folder. */
  method GetTemplate(store: StateStore, uid: Uid, id: string, read: string -> Result<string, Error>, now: int)
    returns (resp: Response)
    requires store.Valid() && uid != ""
    modifies store
    ensures store.Valid()
    ensures TemplateService.LoadTemplate(id, read).Failure? ==>
      resp == Next(TemplateService.LoadTemplate(id, read).error) && store.store == old(store.store)
    ensures TemplateService.SanitizeId(id).None? ==> resp == Next(InvalidTemplateId)
    ensures TemplateService.LoadTemplate(id, read).Success? ==>
      var tex := TemplateService.LoadTemplate(id, read).value;
      && resp == Respond(200, TexBody(tex))
      && store.store == old(store.store)[uid := Seeded(old(store.RecordAt(uid)), tex, now)]
  {
    var loaded := TemplateService.LoadTemplate(id, read);
    if loaded.Failure? {
      return Next(loaded.error);
    }
    var currentTex := ResumeService.SeedTemplateForUser(store, uid, uid, loaded.value, now);
    resp := Respond(200, TexBody(currentTex));
  }

  /** `POST /api/resume/accept`: commits the pending proposal, previews
      "Committed" and answers with the new document; a refusal (nothing
      pending, or an invalid proposal) is a 400 error, with nothing changed
      and nothing emitted. */
  method Accept(store: StateStore, sockets: Sockets.Hub?, uid: Uid, now: int) returns (resp: Response)
    requires store.Valid() && uid != ""
    modifies store, sockets
    ensures store.Valid()
    ensures ResumeService.CanAccept(old(store.store), uid) ==>
      && resp == Respond(200, TexBody(old(store.store[uid]).pendingTex.value))
      && store.store == old(store.store)[uid := Accepted(old(store.store[uid]), now)]
      && (sockets != null ==> sockets.sent == old(sockets.sent) + [Sockets.Notification(uid, Sockets.PreviewEvent, Sockets.ResolvedPreview(true))])
    ensures !ResumeService.CanAccept(old(store.store), uid) ==>
      && resp == Next(Sockets.AcceptRefusal(old(store.store), uid))
      && resp.error.Status() == Some(400)
      && store.store == old(store.store)
      && (sockets != null ==> sockets.sent == old(sockets.sent))
  {
    var result := ResumeService.AcceptPending(store, uid, now);
    if result.Failure? {
      return Next(result.error);
    }
    if sockets != null {
      sockets.EmitToUid(uid, Sockets.PreviewEvent, Sockets.Preview(None, Json.JString("Committed"), true, None, Some(true)));
    }
    resp := Respond(200, TexBody(result.value.currentTex));
  }

  /** `POST /api/resume/decline`: drops the pending proposal, previews
      "Declined" and answers `{ ok: true }`; with nothing pending it is a 400
      error with nothing changed and nothing emitted. */
  method Decline(store: StateStore, sockets: Sockets.Hub?, uid: Uid, now: int) returns (resp: Response)
    requires store.Valid() && uid != ""
    modifies store, sockets
    ensures store.Valid()
    ensures uid in old(store.store) && HasPending(old(store.store[uid])) ==>
      && resp == Respond(200, OkBody)
      && store.store == old(store.store)[uid := Declined(old(store.store[uid]), now)]
      && (sockets != null ==> sockets.sent == old(sockets.sent) + [Sockets.Notification(uid, Sockets.PreviewEvent, Sockets.ResolvedPreview(false))])
    ensures !(uid in old(store.store) && HasPending(old(store.store[uid]))) ==>
      && resp == Next(NoPendingProposal("decline"))
      && store.store == old(store.store)
      && (sockets != null ==> sockets.sent == old(sockets.sent))
  {
    var result := ResumeService.DeclinePending(store, uid, now);
    if result.Failure? {
      return Next(result.error);
    }
    if sockets != null {
      sockets.EmitToUid(uid, Sockets.PreviewEvent, Sockets.Preview(None, Json.JString("Declined"), true, None, Some(false)));
    }
    resp := Respond(200, OkBody);
  }
}
