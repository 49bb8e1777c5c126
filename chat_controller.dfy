/**
 * `POST /api/chat/send`: the HTTP route that asks the generator for a
 * proposal, validates it, stores it as pending and previews it to the
 * user's sockets, answering with the same preview.
 */
module ChatController {
  import opened Wrappers
  import opened Json
  import opened Errors
  import opened StateStore
  import Text
  import LatexValidator
  import GroClient
  import Sockets

  /** A JSON response body. */
  datatype Body =
    | ErrorBody(error: string)
    | PreviewBody(payload: Sockets.Payload)
    | TexBody(currentTex: string)
    | OkBody

  /** What a handler does with the request: answer it, or pass the error to
      the error middleware (`next(err)`). */
  datatype Response = Respond(status: nat, body: Body) | Next(error: Error)

  /** `sendMessage`: the message is trimmed; an empty one is answered 400 before
      anything is touched. Otherwise the record is ensured and the generator
      asked; its failure goes to the error middleware with only the record
      ensured; its proposal is validated, stored as pending, emitted when the
      socket layer is attached, and returned with status 200. `rawMessage` is
      `String(body.message || '')`; `propose` stands for `groClient.proposeUpdate`. */
  method SendMessage(store: StateStore, sockets: Sockets.Hub?, uid: Uid, rawMessage: string,
                     propose: (string, string) -> Result<GroClient.Generated, Error>) returns (resp: Response)
    requires store.Valid() && uid != ""
    modifies store, sockets
    ensures store.Valid()
    ensures Text.Trim(rawMessage) == "" ==>
      && resp == Respond(400, ErrorBody("message required"))
      && store.store == old(store.store)
      && (sockets != null ==> sockets.sent == old(sockets.sent))
    ensures var before := old(store.RecordAt(uid));
      var generated := propose(Text.Trim(rawMessage), before.currentTex);
      Text.Trim(rawMessage) != "" && generated.Success? ==>
        && resp == Respond(200, PreviewBody(Sockets.ProposalPreview(generated.value)))
        && store.store == old(store.store)[uid := WithPending(before, generated.value.proposedTex)]
        && (sockets != null ==> sockets.sent == old(sockets.sent) + [Sockets.Notification(uid, Sockets.PreviewEvent, Sockets.ProposalPreview(generated.value))])
    ensures var before := old(store.RecordAt(uid));
      var generated := propose(Text.Trim(rawMessage), before.currentTex);
      Text.Trim(rawMessage) != "" && generated.Failure? ==>
        && resp == Next(generated.error)
        && store.store == old(store.store)[uid := before]
        && (sockets != null ==> sockets.sent == old(sockets.sent))
  {
    var message := Text.Trim(rawMessage);
    if message == "" {
      return Respond(400, ErrorBody("message required"));
    }
    resp := SendTrimmed(store, sockets, uid, message, propose);
  }

  /** `sendMessage` after the empty-message check. */
  method SendTrimmed(store: StateStore, sockets: Sockets.Hub?, uid: Uid, message: string,
                     propose: (string, string) -> Result<GroClient.Generated, Error>) returns (resp: Response)
    requires store.Valid() && uid != ""
    modifies store, sockets
    ensures store.Valid()
    ensures var before := old(store.RecordAt(uid));
      var generated := propose(message, before.currentTex);
      generated.Success? ==>
        && resp == Respond(200, PreviewBody(Sockets.ProposalPreview(generated.value)))
        && store.store == old(store.store)[uid := WithPending(before, generated.value.proposedTex)]
        && (sockets != null ==> sockets.sent == old(sockets.sent) + [Sockets.Notification(uid, Sockets.PreviewEvent, Sockets.ProposalPreview(generated.value))])
    ensures var before := old(store.RecordAt(uid));
      var generated := propose(message, before.currentTex);
      generated.Failure? ==>
        && resp == Next(generated.error)
        && store.store == old(store.store)[uid := before]
        && (sockets != null ==> sockets.sent == old(sockets.sent))
  {
    var result := ProposeForUser(store, uid, message, propose);
    if result.Failure? {
      return Next(result.error);
    }
    if sockets != null {
      sockets.EmitToUid(uid, Sockets.PreviewEvent, result.value);
    }
    resp := Respond(200, PreviewBody(result.value));
  }

  /** The middle of `sendMessage`: ensure the record, ask the generator,
      validate its proposal and store it as pending, and build the preview. */
  method ProposeForUser(store: StateStore, uid: Uid, message: string,
                        propose: (string, string) -> Result<GroClient.Generated, Error>) returns (result: Result<Sockets.Payload, Error>)
    requires store.Valid() && uid != ""
    modifies store
    ensures store.Valid()
    ensures var before := old(store.RecordAt(uid));
      var generated := propose(message, before.currentTex);
      && (generated.Success? ==>
            result == Success(Sockets.ProposalPreview(generated.value))
            && store.store == old(store.store)[uid := WithPending(before, generated.value.proposedTex)])
      && (generated.Failure? ==> result == Failure(generated.error) && store.store == old(store.store)[uid := before])
  {
    var _, state := store.Ensure(uid, uid);
    var generated := propose(message, state.currentTex);
    if generated.Failure? {
      return Failure(generated.error);
    }
    var preview := Sockets.StoreProposal(store, uid, generated.value);
    result := Success(preview);
  }
}
