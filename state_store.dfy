/**
 * The in-memory per-user store: a map from uid to a record holding the
 * committed document, the pending proposal and an append-only history.
 * A record is either clean (no pending proposal) or pending; seeding,
 * accepting and declining return it to clean, proposing makes it pending.
 *
 * The transitions of one record are pure functions (Seeded, WithPending,
 * Accepted, Declined); the class StateStore applies them to its map in
 * place, creating the record first as `ensure` does.
 */
module StateStore {
  import opened Wrappers
  import opened Errors
  import Text

  type Uid = string

  datatype Kind = Seed | Accept | Decline

  /** A history entry: its timestamp, its type and, for a seed, `details.length`. */
  datatype HistoryEntry = HistoryEntry(ts: int, kind: Kind, seedLength: Option<nat>)

  /** `pendingTex` is null (None) or a string, which may be empty. */
  datatype Record = Record(currentTex: string, pendingTex: Option<string>, history: seq<HistoryEntry>)

  /** The record `ensure` creates for an unknown uid. */
  const Blank := Record("", None, [])

  /** `if (!uid) uid = uuidv4()`: the uid itself, or the fresh token when it is empty. */
  function Resolve(uid: Uid, token: Uid): Uid {
    if uid == "" then token else uid
  }

  /** JavaScript truthiness of `pendingTex`: null and the empty string both mean "nothing pending". */
  predicate HasPending(r: Record) {
    r.pendingTex.Some? && r.pendingTex.value != ""
  }

  // ------------------------------------------------------- record transitions

  function Seeded(r: Record, tex: string, now: int): Record {
    Record(tex, None, r.history + [HistoryEntry(now, Seed, Some(Text.Utf16Length(tex)))])
  }

  function WithPending(r: Record, tex: string): Record {
    r.(pendingTex := Some(tex))
  }

  function Accepted(r: Record, now: int): Record
    requires HasPending(r)
  {
    Record(r.pendingTex.value, None, r.history + [HistoryEntry(now, Accept, None)])
  }

  function Declined(r: Record, now: int): Record
    requires HasPending(r)
  {
    r.(pendingTex := None, history := r.history + [HistoryEntry(now, Decline, None)])
  }

  /** The operations a record goes through; an accept or decline with nothing
      pending throws and leaves the record as it was. */
  datatype Op = SeedOp(tex: string) | ProposeOp(proposal: string) | AcceptOp | DeclineOp

  function Step(r: Record, op: Op, now: int): Record {
    match op
    case SeedOp(tex) => Seeded(r, tex, now)
    case ProposeOp(tex) => WithPending(r, tex)
    case AcceptOp => if HasPending(r) then Accepted(r, now) else r
    case DeclineOp => if HasPending(r) then Declined(r, now) else r
  }

  /** The operation leaves a history entry: every seed, and an accept or decline that succeeds. */
  predicate Records(r: Record, op: Op) {
    op.SeedOp? || ((op.AcceptOp? || op.DeclineOp?) && HasPending(r))
  }

  datatype Timed = Timed(op: Op, now: int)

  function Run(r: Record, ops: seq<Timed>): Record
    decreases |ops|
  {
    if ops == [] then r else Step(Run(r, ops[..|ops| - 1]), ops[|ops| - 1].op, ops[|ops| - 1].now)
  }

  /** How many operations of the trace leave a history entry. */
  function RecordedCount(r: Record, ops: seq<Timed>): nat
    decreases |ops|
  {
    if ops == [] then 0
    else
      var before := Run(r, ops[..|ops| - 1]);
      RecordedCount(r, ops[..|ops| - 1]) + (if Records(before, ops[|ops| - 1].op) then 1 else 0)
  }

  // ----------------------------------------------------------------- lemmas

  /** A record is pending after an operation exactly when the operation was a
      non-empty proposal: seeding, accepting and declining all leave it clean. */
  lemma PendingAfterStep(r: Record, op: Op, now: int)
    ensures HasPending(Step(r, op, now)) <==> op.ProposeOp? && op.proposal != ""
  {
  }

  /** One step appends at most one entry, never touching the earlier ones, and
      appends exactly when the operation records. */
  lemma StepHistory(r: Record, op: Op, now: int)
    ensures r.history <= Step(r, op, now).history
    ensures |Step(r, op, now).history| == |r.history| + (if Records(r, op) then 1 else 0)
    ensures Records(r, op) ==> Step(r, op, now).history[|r.history|] == HistoryEntry(now, EntryKind(op), if op.SeedOp? then Some(Text.Utf16Length(op.tex)) else None)
  {
  }

  function EntryKind(op: Op): Kind {
    match op
    case SeedOp(_) => Seed
    case AcceptOp => Accept
    case _ => Decline
  }

  /** Over any trace the history only grows: the old history is a prefix of the
      new one, which is longer by the number of recording operations. */
  lemma {:induction false} HistoryAppendOnly(r: Record, ops: seq<Timed>)
    ensures r.history <= Run(r, ops).history
    ensures |Run(r, ops).history| == |r.history| + RecordedCount(r, ops)
    decreases |ops|
  {
    if ops != [] {
      var init := ops[..|ops| - 1];
      HistoryAppendOnly(r, init);
      StepHistory(Run(r, init), ops[|ops| - 1].op, ops[|ops| - 1].now);
    }
  }

  /** Of two proposals in a row only the last one is kept. */
  lemma LastProposalWins(r: Record, a: string, b: string, t: int, u: int)
    ensures Step(Step(r, ProposeOp(a), t), ProposeOp(b), u) == Step(r, ProposeOp(b), u)
    ensures Step(r, ProposeOp(b), u).currentTex == r.currentTex && Step(r, ProposeOp(b), u).history == r.history
  {
  }

  /** Accepting right after a non-empty proposal commits exactly that proposal. */
  lemma AcceptCommitsProposal(r: Record, tex: string, t: int, u: int)
    requires tex != ""
    ensures Step(Step(r, ProposeOp(tex), t), AcceptOp, u) == Record(tex, None, r.history + [HistoryEntry(u, Accept, None)])
  {
  }

  /** Declining right after a proposal restores the committed document and drops the proposal. */
  lemma DeclineKeepsDocument(r: Record, tex: string, t: int, u: int)
    requires tex != ""
    ensures Step(Step(r, ProposeOp(tex), t), DeclineOp, u) == Record(r.currentTex, None, r.history + [HistoryEntry(u, Decline, None)])
  {
  }

  /** After seeding nothing is pending, so an accept or decline fails and changes nothing. */
  lemma NothingToAcceptAfterSeed(r: Record, tex: string, t: int, u: int)
    ensures var s := Step(r, SeedOp(tex), t); Step(s, AcceptOp, u) == s && Step(s, DeclineOp, u) == s
  {
  }

  /** Every committed document was the starting one, the proposal pending at
      the start, or a template seeded or a proposal made in the trace: nothing
      else ever becomes `currentTex`. */
  lemma {:induction false} CurrentOrigin(r: Record, ops: seq<Timed>)
    ensures var c := Run(r, ops).currentTex;
      || c == r.currentTex || r.pendingTex == Some(c)
      || exists k :: 0 <= k < |ops| && (ops[k].op == SeedOp(c) || ops[k].op == ProposeOp(c))
    decreases |ops|
  {
    if ops != [] {
      var init := ops[..|ops| - 1];
      var last := ops[|ops| - 1];
      var before := Run(r, init);
      var c := Run(r, ops).currentTex;
      CurrentOrigin(r, init);
      PendingOrigin(r, init);
      assert forall k :: 0 <= k < |init| ==> init[k] == ops[k];
      if last.op.SeedOp? {
        assert ops[|ops| - 1].op == SeedOp(c);
      } else if last.op.AcceptOp? && HasPending(before) {
        assert before.pendingTex == Some(c);
      } else {
        assert c == before.currentTex;
      }
    }
  }

  /** Likewise every pending proposal was proposed somewhere in the trace (or was there at the start). */
  lemma {:induction false} PendingOrigin(r: Record, ops: seq<Timed>)
    ensures var p := Run(r, ops).pendingTex;
      p.None? || p == r.pendingTex || exists k :: 0 <= k < |ops| && ops[k].op == ProposeOp(p.value)
    decreases |ops|
  {
    if ops != [] {
      var init := ops[..|ops| - 1];
      PendingOrigin(r, init);
      assert forall k :: 0 <= k < |init| ==> init[k] == ops[k];
    }
  }

  // ------------------------------------------------------------------ store

  datatype AcceptResult = AcceptResult(currentTex: string, entry: HistoryEntry)

  class StateStore {
    var store: map<Uid, Record>

    /** `ensure` replaces an empty uid by a fresh one, so the empty uid is never a key. */
    ghost predicate Valid()
      reads this
    {
      "" !in store
    }

    /** The record under `key`, or the one `ensure` would create. */
    function RecordAt(key: Uid): Record
      reads this
    {
      if key in store then store[key] else Blank
    }

    constructor()
      ensures Valid() && store == map[]
    {
      store := map[];
    }

    /** `ensure(uid)`: creates the blank record when the key is unknown and
        returns the record under the key. */
    method Ensure(uid: Uid, token: Uid) returns (key: Uid, r: Record)
      requires Valid() && token != ""
      modifies this
      ensures Valid()
      ensures key == Resolve(uid, token) && r == old(RecordAt(key))
      ensures store == old(store)[key := r]
    {
      key := Resolve(uid, token);
      if key !in store {
        store := store[key := Blank];
      }
      r := store[key];
    }

    /** `get(uid)`: the record, or null for an unknown uid; never creates one. */
    function Get(uid: Uid): (r: Option<Record>)
      reads this
      ensures r.Some? <==> uid in store
      ensures r.Some? ==> r.value == store[uid]
    {
      if uid in store then Some(store[uid]) else None
    }

    method SeedCurrent(uid: Uid, token: Uid, tex: string, now: int) returns (r: Record)
      requires Valid() && token != ""
      modifies this
      ensures Valid()
      ensures var key := Resolve(uid, token);
        r == Seeded(old(RecordAt(key)), tex, now) && store == old(store)[key := r]
    {
      var key, s := Ensure(uid, token);
      r := Seeded(s, tex, now);
      store := store[key := r];
    }

    method SetPending(uid: Uid, token: Uid, proposedTex: string) returns (r: Record)
      requires Valid() && token != ""
      modifies this
      ensures Valid()
      ensures var key := Resolve(uid, token);
        r == WithPending(old(RecordAt(key)), proposedTex) && store == old(store)[key := r]
    {
      var key, s := Ensure(uid, token);
      r := WithPending(s, proposedTex);
      store := store[key := r];
    }

    /** `acceptPending(uid)`: throws when nothing is pending (after `ensure` has
        run, so the record may have been created); otherwise commits the proposal. */
    method AcceptPending(uid: Uid, token: Uid, now: int) returns (res: Result<AcceptResult, Error>)
      requires Valid() && token != ""
      modifies this
      ensures Valid()
      ensures var key := Resolve(uid, token); var before := old(RecordAt(key));
        if HasPending(before) then
          && store == old(store)[key := Accepted(before, now)]
          && res == Success(AcceptResult(before.pendingTex.value, HistoryEntry(now, Accept, None)))
        else
          store == old(store)[key := before] && res == Failure(StoreNoPending("accept"))
    {
      var key, s := Ensure(uid, token);
      if !HasPending(s) {
        return Failure(StoreNoPending("accept"));
      }
      var entry := HistoryEntry(now, Accept, None);
      var r := s.(currentTex := s.pendingTex.value);
      r := r.(pendingTex := None);
      r := r.(history := r.history + [entry]);
      store := store[key := r];
      res := Success(AcceptResult(r.currentTex, entry));
    }

    /** `declinePending(uid)`: the same guard; on success the proposal is dropped
        and the committed document kept. */
    method DeclinePending(uid: Uid, token: Uid, now: int) returns (res: Result<HistoryEntry, Error>)
      requires Valid() && token != ""
      modifies this
      ensures Valid()
      ensures var key := Resolve(uid, token); var before := old(RecordAt(key));
        if HasPending(before) then
          store == old(store)[key := Declined(before, now)] && res == Success(HistoryEntry(now, Decline, None))
        else
          store == old(store)[key := before] && res == Failure(StoreNoPending("decline"))
    {
      var key, s := Ensure(uid, token);
      if !HasPending(s) {
        return Failure(StoreNoPending("decline"));
      }
      var entry := HistoryEntry(now, Decline, None);
      var r := s.(pendingTex := None);
      r := r.(history := r.history + [entry]);
      store := store[key := r];
      res := Success(entry);
    }
  }
}
