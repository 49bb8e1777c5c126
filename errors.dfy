/**
 * The errors the server throws, as tagged variants. Each carries what the
 * JavaScript error object carries: a message, and where the source attaches
 * them, a `status` and an `errors` list.
 */
module Errors {
  import opened Wrappers
  import Text

  datatype Error =
      /** `stateStore.acceptPending` / `declinePending` with nothing pending; `verb` is "accept" or "decline". */
    | StoreNoPending(verb: string)
      /** `resumeService.acceptPending` / `declinePending` with nothing pending (status 400). */
    | NoPendingProposal(verb: string)
      /** `resumeService.acceptPending` when the pending document fails validation (status 400). */
    | ValidationFailed(errors: seq<string>)
      /** The generation service answered with a non-ok HTTP status. */
    | UpstreamStatus(status: nat, statusText: string, body: string)
      /** The generation service's body was not JSON, or was a falsy JSON value. */
    | InvalidJson
      /** No candidate document could be found in the service's response. */
    | MissingProposal(snapshot: string)
      /** `templateService.loadTemplate` with an id that `sanitizeId` rejects. */
    | InvalidTemplateId
      /** An error raised by code outside the model (the network, the file system). */
    | Foreign(message: string)
  {
    function Message(): string {
      match this
      case StoreNoPending(verb) => "No pendingTex to " + verb
      case NoPendingProposal(verb) => "No pending proposal to " + verb
      case ValidationFailed(_) => "Pending LaTeX failed validation"
      case UpstreamStatus(status, statusText, body) =>
        "Gro API returned " + Text.NatToString(status) + " " + statusText + " - " + body
      case InvalidJson => "Gro API returned invalid JSON"
      case MissingProposal(snapshot) => "Gro API response missing proposedTex. Response snapshot: " + snapshot
      case InvalidTemplateId => "Invalid template id"
      case Foreign(message) => message
    }

    /** `err.status`, where the source sets one. */
    function Status(): Option<nat> {
      match this
      case NoPendingProposal(_) => Some(400)
      case ValidationFailed(_) => Some(400)
      case UpstreamStatus(status, _, _) => Some(status)
      case _ => None
    }

    /** `err.errors`, where the source sets one. */
    function ErrorList(): Option<seq<string>> {
      match this
      case ValidationFailed(errors) => Some(errors)
      case _ => None
    }
  }
}
