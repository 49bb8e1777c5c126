/**
 * The service layer over the store: seeding a template, recording a proposal
 * together with the validator's verdict, and accepting or declining the
 * pending proposal. Accepting re-validates the proposal first, so an invalid
 * document is never committed, whatever path stored it.
 */
module ResumeService {
  import opened Wrappers
  import opened Errors
  import opened StateStore
  import LatexValidator

  /** `{ proposedTex, valid, errors }`. */
  datatype Proposal = Proposal(proposedTex: string, valid: bool, errors: seq<string>)

  /** `{ currentTex, historyEntry }`. */
  datatype Committed = Committed(currentTex: string, historyEntry: HistoryEntry)

  method SeedTemplateForUser(store: StateStore, uid: Uid, token: Uid, tex: string, now: int) returns (currentTex: string)
    requires store.Valid() && token != ""
    modifies store
    ensures store.Valid()
    ensures currentTex == tex
    ensures var key := Resolve(uid, token);
      store.store == old(store.store)[key := Seeded(old(store.RecordAt(key)), tex, now)]
    ensures !HasPending(store.RecordAt(Resolve(uid, token)))
  {
    var state := store.SeedCurrent(uid, token, tex, now);
    currentTex := state.currentTex;
  }

  /** The proposal is stored whether or not it validates; the verdict is returned. */
  method CreatePendingFromProposed(store: StateStore, uid: Uid, token: Uid, proposedTex: string) returns (p: Proposal)
    requires store.Valid() && token != ""
    modifies store
    ensures store.Valid()
    ensures p.proposedTex == proposedTex && p.errors == LatexValidator.ValidationErrors(proposedTex)
    ensures p.valid <==> p.errors == []
    ensures var key := Resolve(uid, token);
      store.store == old(store.store)[key := WithPending(old(store.RecordAt(key)), proposedTex)]
  {
    var valid, errors := LatexValidator.ValidateTex(proposedTex);
    var _ := store.SetPending(uid, token, proposedTex);
    p := Proposal(proposedTex, valid, errors);
  }

  /** The commit guard: a record exists, has a non-empty proposal, and the
      proposal validates. */
  predicate CanAccept(store: map<Uid, Record>, uid: Uid) {
    uid in store && HasPending(store[uid]) && LatexValidator.IsValid(store[uid].pendingTex.value)
  }

  /** `acceptPending(uid)`: 400 when nothing is pending (no record is created),
      400 with the validator's errors when the proposal is invalid (nothing
      changes), otherwise the store commits it. */
  method AcceptPending(store: StateStore, uid: Uid, now: int) returns (res: Result<Committed, Error>)
    requires store.Valid()
    modifies store
    ensures store.Valid()
    ensures uid !in old(store.store) || !HasPending(old(store.store[uid])) ==>
      res == Failure(NoPendingProposal("accept")) && store.store == old(store.store)
    ensures uid in old(store.store) && HasPending(old(store.store[uid])) && !LatexValidator.IsValid(old(store.store[uid]).pendingTex.value) ==>
      && res == Failure(ValidationFailed(LatexValidator.ValidationErrors(old(store.store[uid]).pendingTex.value)))
      && store.store == old(store.store)
    ensures CanAccept(old(store.store), uid) ==>
      && store.store == old(store.store)[uid := Accepted(old(store.store[uid]), now)]
      && res == Success(Committed(old(store.store[uid]).pendingTex.value, HistoryEntry(now, Accept, None)))
    ensures res.Success? <==> CanAccept(old(store.store), uid)
  {
    var s := store.Get(uid);
    if s.None? || !HasPending(s.value) {
      return Failure(NoPendingProposal("accept"));
    }
    var valid, errors := LatexValidator.ValidateTex(s.value.pendingTex.value);
    if !valid {
      return Failure(ValidationFailed(errors));
    }
    var result := store.AcceptPending(uid, uid, now);
    assert result.Success?;
    res := Success(Committed(result.value.currentTex, result.value.entry));
  }

  /** `declinePending(uid)`: the same 400 guard; on success `{ ok: true }`
      with the history entry. */
  method DeclinePending(store: StateStore, uid: Uid, now: int) returns (res: Result<HistoryEntry, Error>)
    requires store.Valid()
    modifies store
    ensures store.Valid()
    ensures uid !in old(store.store) || !HasPending(old(store.store[uid])) ==>
      res == Failure(NoPendingProposal("decline")) && store.store == old(store.store)
    ensures uid in old(store.store) && HasPending(old(store.store[uid])) ==>
      && store.store == old(store.store)[uid := Declined(old(store.store[uid]), now)]
      && res == Success(HistoryEntry(now, Decline, None))
  {
    var s := store.Get(uid);
    if s.None? || !HasPending(s.value) {
      return Failure(NoPendingProposal("decline"));
    }
    res := store.DeclinePending(uid, uid, now);
    assert res.Success?;
  }
}
