/** The play-time ledger invariant of reeds/models.py: which writes preserve it, which break it, and
    that any run of preserving writes from an empty store keeps every counter equal to its sessions' sum. */
module Ledger {
  import opened Common
  import opened Arith
  import opened Tables
  import opened Models
  import opened Text

  /** One write request against the store. */
  datatype Op =
    | CreateReedOp(input: ReedInput, now: int)
    | UpdateReedOp(reed: nat, patch: ReedPatch)
    | DeleteReedOp(reed: nat)
    | SaveSessionOp(session: Option<nat>, sessionInput: SessionInput)
    | DeleteSessionOp(sessionId: nat)
    | CreateSnapshotOp(snapshot: QualitySnapshot)
    | CreateModificationOp(modification: Modification)

  /** The store after `op`, or None when `op` fails. */
  function Outcome(st: Store, op: Op): Option<Store> {
    match op
    case CreateReedOp(input, now) =>
      var r := CreateReed(st, input, now); if r.Success? then Some(r.value.0) else None
    case UpdateReedOp(id, patch) =>
      var r := UpdateReed(st, id, patch); if r.Success? then Some(r.value) else None
    case DeleteReedOp(id) =>
      var r := DeleteReed(st, id); if r.Success? then Some(r.value) else None
    case SaveSessionOp(id, input) =>
      var r := SaveSession(st, id, input); if r.Success? then Some(r.value.0) else None
    case DeleteSessionOp(id) =>
      var r := DeleteSession(st, id); if r.Success? then Some(r.value) else None
    case CreateSnapshotOp(s) =>
      var r := CreateSnapshot(st, s); if r.Success? then Some(r.value.0) else None
    case CreateModificationOp(m) =>
      var r := CreateModification(st, m); if r.Success? then Some(r.value.0) else None
  }

  /** A failed request leaves the store as it was. */
  function Step(st: Store, op: Op): Store {
    Outcome(st, op).GetOr(st)
  }

  function Run(st: Store, ops: seq<Op>): Store
    decreases |ops|
  {
    if ops == [] then st else Run(Step(st, ops[0]), ops[1..])
  }

  /** The writes that keep the ledger: all but deleting a session whose stored duration is not 0 and
      moving such a session to another reed (the old duration is then taken from the new reed's counter
      and never from the old one's). */
  predicate KeepsLedger(st: Store, op: Op) {
    match op
    case SaveSessionOp(Some(k), input) =>
      k in st.sessions ==> st.sessions[k].reed == input.reed || StoredDuration(st.sessions[k]) == 0
    case DeleteSessionOp(k) =>
      k in st.sessions ==> StoredDuration(st.sessions[k]) == 0
    case _ => true
  }

  /** Every write of `ops`, applied in turn, keeps the ledger. */
  ghost predicate KeepsLedgerThroughout(st: Store, ops: seq<Op>)
    decreases |ops|
  {
    ops == [] || (KeepsLedger(st, ops[0]) && KeepsLedgerThroughout(Step(st, ops[0]), ops[1..]))
  }

  // ---------------------------------------------------------------------------------------------
  // Durations

  /** A span of a whole number of minutes, in either direction, gives exactly that many minutes. */
  lemma WholeMinutes(start: int, m: int)
    ensures DurationMinutes(start, start + m * SecondsPerMinute) == m
  {
    TruncDivUnique(m * SecondsPerMinute, SecondsPerMinute, m);
  }

  /** Truncation toward zero: a span of -30 s is 0 minutes and one of -90 s is -1 minute, where
      floor or Euclidean division would give -1 and -2. */
  lemma NegativeSpanTruncates()
    ensures DurationMinutes(30, 0) == 0
    ensures DurationMinutes(90, 0) == -1
  {
  }

  // ---------------------------------------------------------------------------------------------
  // How one write moves a reed's sum of stored durations

  /** What session `k` contributes to reed `r`'s stored minutes. */
  function SessionWeight(sessions: map<nat, UsageSession>, r: nat, k: nat): int {
    Weight(sessions, SessionReed, StoredDuration, r, k)
  }

  /** Saving a session moves every reed's stored minutes by what that session contributed before and after. */
  lemma SaveSessionStored(st: Store, id: Option<nat>, input: SessionInput)
    requires KeysBelowNext(st)
    requires SaveSession(st, id, input).Success?
    ensures var (st', k) := SaveSession(st, id, input).value;
      && (id.None? ==> k !in st.sessions)
      && forall r :: StoredMinutes(st', r)
           == StoredMinutes(st, r) - SessionWeight(st.sessions, r, k) + SessionWeight(st'.sessions, r, k)
  {
    var (st', k) := SaveSession(st, id, input).value;
    forall r
      ensures StoredMinutes(st', r)
           == StoredMinutes(st, r) - SessionWeight(st.sessions, r, k) + SessionWeight(st'.sessions, r, k)
    {
      SaveSessionStoredAt(st, id, input, r);
    }
  }

  lemma SaveSessionStoredAt(st: Store, id: Option<nat>, input: SessionInput, r: nat)
    requires KeysBelowNext(st)
    requires SaveSession(st, id, input).Success?
    ensures var (st', k) := SaveSession(st, id, input).value;
      StoredMinutes(st', r)
      == StoredMinutes(st, r) - SessionWeight(st.sessions, r, k) + SessionWeight(st'.sessions, r, k)
  {
    var (st', k) := SaveSession(st, id, input).value;
    var n, n' := st.nextSession, st'.nextSession;
    assert AgreeExcept(st.sessions, st'.sessions, k, n');
    SumOwnedExcept(st.sessions, st'.sessions, SessionReed, StoredDuration, r, n', k);
    if id.None? {
      assert Owned(st.sessions, SessionReed, r, n + 1) == Owned(st.sessions, SessionReed, r, n);
    }
  }

  /** Deleting a session takes its stored duration out of its reed's stored minutes and of no other. */
  lemma DeleteSessionStored(st: Store, id: nat)
    requires KeysBelowNext(st)
    requires DeleteSession(st, id).Success?
    ensures forall r :: StoredMinutes(DeleteSession(st, id).value, r)
                        == StoredMinutes(st, r) - SessionWeight(st.sessions, r, id)
  {
    var st' := DeleteSession(st, id).value;
    assert AgreeExcept(st.sessions, st'.sessions, id, st.nextSession);
    forall r
      ensures StoredMinutes(st', r) == StoredMinutes(st, r) - SessionWeight(st.sessions, r, id)
    {
      SumOwnedExcept(st.sessions, st'.sessions, SessionReed, StoredDuration, r, st.nextSession, id);
    }
  }

  // ---------------------------------------------------------------------------------------------
  // Validity, write by write: every write keeps a valid store valid, whatever its counters say

  /** A new reed gets a fresh id, a stripped non-blank name and a status from the closed set. */
  lemma CreateReedKeepsValid(st: Store, input: ReedInput, now: int)
    requires Valid(st)
    requires CreateReed(st, input, now).Success?
    ensures var (st', id) := CreateReed(st, input, now).value;
      id !in st.reeds && Valid(st')
  {
    var (st', id) := CreateReed(st, input, now).value;
    assert ValidName(st'.reeds[id].name);
  }

  /** A reed update keeps every key, and what it writes passed validation. */
  lemma UpdateReedKeepsValid(st: Store, id: nat, patch: ReedPatch)
    requires Valid(st)
    requires UpdateReed(st, id, patch).Success?
    ensures Valid(UpdateReed(st, id, patch).value)
  {
    var st' := UpdateReed(st, id, patch).value;
    assert ValidName(st'.reeds[id].name);
  }

  /** The cascade leaves no child row pointing at the deleted reed. */
  lemma DeleteReedKeepsValid(st: Store, id: nat)
    requires Valid(st)
    requires DeleteReed(st, id).Success?
    ensures Valid(DeleteReed(st, id).value)
  {
  }

  /** Saving a session keeps every stored field and foreign key valid. */
  lemma SaveSessionKeepsValid(st: Store, id: Option<nat>, input: SessionInput)
    requires Valid(st)
    requires SaveSession(st, id, input).Success?
    ensures Valid(SaveSession(st, id, input).value.0)
  {
    var (st', k) := SaveSession(st, id, input).value;
    forall j | j in st'.reeds ensures st'.reeds[j].status in StatusChoices && ValidName(st'.reeds[j].name) {
      if j == input.reed {
        assert st'.reeds[j].(totalPlayTimeMinutes := 0) == st.reeds[j].(totalPlayTimeMinutes := 0);
      }
    }
  }

  lemma DeleteSessionKeepsValid(st: Store, id: nat)
    requires Valid(st)
    requires DeleteSession(st, id).Success?
    ensures Valid(DeleteSession(st, id).value)
  {
  }

  /** A stored snapshot has valid ratings, a fresh id and an existing reed. */
  lemma CreateSnapshotKeepsValid(st: Store, s: QualitySnapshot)
    requires Valid(st)
    requires CreateSnapshot(st, s).Success?
    ensures Valid(CreateSnapshot(st, s).value.0)
  {
  }

  /** A stored modification has a known type, a non-blank description, a valid rating and a fresh id. */
  lemma CreateModificationKeepsValid(st: Store, m: Modification)
    requires Valid(st)
    requires m.reed in st.reeds && ModificationFieldsValid(StripModification(m))
    ensures CreateModification(st, m).Success?
    ensures Valid(CreateModification(st, m).value.0)
  {
    var (st', id) := CreateModification(st, m).value;
    var row := StripModification(m);
    assert st'.modifications == st.modifications[id := row];
    assert ModificationFieldsValid(row) && row.reed in st.reeds;
    forall k | k in st'.modifications
      ensures ModificationFieldsValid(st'.modifications[k]) && st'.modifications[k].reed in st'.reeds
    {
      if k != id {
        assert st'.modifications[k] == st.modifications[k];
      }
    }
  }

  /** Every request, successful or not, leaves a valid store valid, whether or not the ledger holds. */
  lemma StepKeepsValid(st: Store, op: Op)
    requires Valid(st)
    ensures Valid(Step(st, op))
  {
    if Outcome(st, op).Some? {
      match op
      case CreateReedOp(input, now) => CreateReedKeepsValid(st, input, now);
      case UpdateReedOp(id, patch) => UpdateReedKeepsValid(st, id, patch);
      case DeleteReedOp(id) => DeleteReedKeepsValid(st, id);
      case SaveSessionOp(id, input) => SaveSessionKeepsValid(st, id, input);
      case DeleteSessionOp(id) => DeleteSessionKeepsValid(st, id);
      case CreateSnapshotOp(s) => CreateSnapshotKeepsValid(st, s);
      case CreateModificationOp(m) => CreateModificationKeepsValid(st, m);
    }
  }

  /** Any run of requests keeps a valid store valid, including runs that break the ledger. */
  lemma {:induction false} RunKeepsValid(st: Store, ops: seq<Op>)
    requires Valid(st)
    ensures Valid(Run(st, ops))
    decreases |ops|
  {
    if ops != [] {
      StepKeepsValid(st, ops[0]);
      RunKeepsValid(Step(st, ops[0]), ops[1..]);
    }
  }

  /** Every store the requests can build from the empty one is valid, so the aggregate laws apply to it. */
  lemma FromEmptyStaysValid(ops: seq<Op>)
    ensures Valid(Run(EmptyStore, ops))
  {
    RunKeepsValid(EmptyStore, ops);
  }

  // ---------------------------------------------------------------------------------------------
  // The ledger, write by write

  /** A new reed has no session and a zero counter, so the ledger holds for it; no other counter moves. */
  lemma CreateReedKeepsLedger(st: Store, input: ReedInput, now: int)
    requires Valid(st) && LedgerHolds(st)
    requires CreateReed(st, input, now).Success?
    ensures LedgerHolds(CreateReed(st, input, now).value.0)
  {
    var (st', id) := CreateReed(st, input, now).value;
    CreateReedKeepsValid(st, input, now);
    OwnedNone(st.sessions, SessionReed, id, st.nextSession);
    assert StoredMinutes(st', id) == 0;
  }

  /** Changing a reed's name, created date or status touches no counter and no session. */
  lemma UpdateReedKeepsLedger(st: Store, id: nat, patch: ReedPatch)
    requires Valid(st) && LedgerHolds(st)
    requires id in st.reeds && ReedErrors(patch.name, patch.status) == []
    ensures UpdateReed(st, id, patch).Success?
    ensures LedgerHolds(UpdateReed(st, id, patch).value)
  {
    var st' := UpdateReed(st, id, patch).value;
    forall r | r in st'.reeds ensures st'.reeds[r].totalPlayTimeMinutes == StoredMinutes(st', r) {
      assert StoredMinutes(st', r) == StoredMinutes(st, r);
    }
  }

  /** Deleting a reed removes its sessions with it, so every remaining reed keeps its ledger. */
  lemma DeleteReedKeepsLedger(st: Store, id: nat)
    requires Valid(st) && LedgerHolds(st)
    requires DeleteReed(st, id).Success?
    ensures LedgerHolds(DeleteReed(st, id).value)
  {
    var st' := DeleteReed(st, id).value;
    forall r | r in st'.reeds ensures st'.reeds[r].totalPlayTimeMinutes == StoredMinutes(st', r) {
      assert AgreeBelow(st.sessions, st'.sessions, SessionReed, r, st.nextSession);
      OwnedFrame(st.sessions, st'.sessions, SessionReed, r, st.nextSession);
    }
  }

  /** Saving a session keeps the ledger exactly when it does not move a session with a non-zero stored
      duration to another reed. */
  lemma SaveSessionLedger(st: Store, id: Option<nat>, input: SessionInput)
    requires Valid(st) && LedgerHolds(st)
    requires SaveSession(st, id, input).Success?
    ensures LedgerHolds(SaveSession(st, id, input).value.0) <==> KeepsLedger(st, SaveSessionOp(id, input))
  {
    if KeepsLedger(st, SaveSessionOp(id, input)) {
      SaveSessionKeeps(st, id, input);
    } else {
      SaveSessionBreaks(st, id, input);
    }
  }

  lemma SaveSessionKeeps(st: Store, id: Option<nat>, input: SessionInput)
    requires Valid(st) && LedgerHolds(st)
    requires SaveSession(st, id, input).Success?
    requires KeepsLedger(st, SaveSessionOp(id, input))
    ensures LedgerHolds(SaveSession(st, id, input).value.0)
  {
    var (st', k) := SaveSession(st, id, input).value;
    SaveSessionStored(st, id, input);
    forall r | r in st'.reeds ensures st'.reeds[r].totalPlayTimeMinutes == StoredMinutes(st', r) {
      assert StoredMinutes(st', r)
          == StoredMinutes(st, r) - SessionWeight(st.sessions, r, k) + SessionWeight(st'.sessions, r, k);
    }
  }

  /** Moving a session with stored duration d to another reed leaves the old reed's counter d above the
      sum of its remaining sessions. */
  lemma SaveSessionBreaks(st: Store, id: Option<nat>, input: SessionInput)
    requires Valid(st)
    requires SaveSession(st, id, input).Success?
    requires !KeepsLedger(st, SaveSessionOp(id, input))
    ensures var st', moved := SaveSession(st, id, input).value.0, st.sessions[id.value].reed;
      && moved in st'.reeds
      && st'.reeds[moved] == st.reeds[moved]
      && StoredMinutes(st', moved) == StoredMinutes(st, moved) - StoredDuration(st.sessions[id.value])
    ensures !LedgerHolds(SaveSession(st, id, input).value.0) || !LedgerHolds(st)
  {
    var (st', k) := SaveSession(st, id, input).value;
    var moved := st.sessions[k].reed;
    SaveSessionStored(st, id, input);
    assert StoredMinutes(st', moved)
        == StoredMinutes(st, moved) - SessionWeight(st.sessions, moved, k) + SessionWeight(st'.sessions, moved, k);
  }

  /** Deleting a session never changes a counter, so the ledger survives exactly when the session's
      stored duration is 0. */
  lemma DeleteSessionLedger(st: Store, id: nat)
    requires Valid(st) && LedgerHolds(st)
    requires DeleteSession(st, id).Success?
    ensures LedgerHolds(DeleteSession(st, id).value) <==> StoredDuration(st.sessions[id]) == 0
  {
    var st' := DeleteSession(st, id).value;
    DeleteSessionStored(st, id);
    var owner := st.sessions[id].reed;
    if StoredDuration(st.sessions[id]) == 0 {
      forall r | r in st'.reeds ensures st'.reeds[r].totalPlayTimeMinutes == StoredMinutes(st', r) {
        assert StoredMinutes(st', r) == StoredMinutes(st, r) - SessionWeight(st.sessions, r, id);
      }
    } else {
      assert StoredMinutes(st', owner) == StoredMinutes(st, owner) - SessionWeight(st.sessions, owner, id);
      assert owner in st'.reeds;
    }
  }

  /** Snapshots and modifications touch neither counters nor sessions: a valid one is stored and the
      ledger holds as before. */
  lemma CreateSnapshotKeepsLedger(st: Store, s: QualitySnapshot)
    requires Valid(st) && LedgerHolds(st)
    requires s.reed in st.reeds && RatingsValid(s)
    ensures CreateSnapshot(st, s).Success?
    ensures LedgerHolds(CreateSnapshot(st, s).value.0)
  {
  }

  lemma CreateModificationKeepsLedger(st: Store, m: Modification)
    requires Valid(st) && LedgerHolds(st)
    requires m.reed in st.reeds && ModificationFieldsValid(StripModification(m))
    ensures CreateModification(st, m).Success?
    ensures LedgerHolds(CreateModification(st, m).value.0)
  {
  }

  /** One request: the ledger survives exactly when the request fails or keeps it. */
  lemma StepLedger(st: Store, op: Op)
    requires Valid(st) && LedgerHolds(st)
    ensures LedgerHolds(Step(st, op)) <==> Outcome(st, op).None? || KeepsLedger(st, op)
  {
    if Outcome(st, op).Some? {
      match op
      case CreateReedOp(input, now) => CreateReedKeepsLedger(st, input, now);
      case UpdateReedOp(id, patch) => UpdateReedKeepsLedger(st, id, patch);
      case DeleteReedOp(id) => DeleteReedKeepsLedger(st, id);
      case SaveSessionOp(id, input) => SaveSessionLedger(st, id, input);
      case DeleteSessionOp(id) => DeleteSessionLedger(st, id);
      case CreateSnapshotOp(s) => CreateSnapshotKeepsLedger(st, s);
      case CreateModificationOp(m) => CreateModificationKeepsLedger(st, m);
    }
  }

  /** Along any run of ledger-keeping requests, every reed's counter stays the sum of its sessions'
      stored durations. */
  lemma {:induction false} RunKeepsLedger(st: Store, ops: seq<Op>)
    requires Valid(st) && LedgerHolds(st)
    requires KeepsLedgerThroughout(st, ops)
    ensures Valid(Run(st, ops)) && LedgerHolds(Run(st, ops))
    decreases |ops|
  {
    if ops != [] {
      StepKeepsValid(st, ops[0]);
      StepLedger(st, ops[0]);
      RunKeepsLedger(Step(st, ops[0]), ops[1..]);
    }
  }

  /** From an empty store, the ledger holds after every run of ledger-keeping requests. */
  lemma FromEmptyKeepsLedger(ops: seq<Op>)
    requires KeepsLedgerThroughout(EmptyStore, ops)
    ensures Valid(Run(EmptyStore, ops)) && LedgerHolds(Run(EmptyStore, ops))
  {
    RunKeepsLedger(EmptyStore, ops);
  }

  // ---------------------------------------------------------------------------------------------
  // Where the ledger falls apart

  /** Clearing the end time of a completed session keeps its stored duration and its reed's counter, so
      the counter then exceeds the sum over the reed's sessions that have an end time by that duration. */
  lemma ClearingEndTimeKeepsDuration(st: Store, k: nat, input: SessionInput)
    requires Valid(st) && CompletedLedgerHolds(st)
    requires k in st.sessions && st.sessions[k].endTime.Some?
    requires input.reed == st.sessions[k].reed && input.endTime.None?
    requires ValidOptionalText(Trim(input.context), MaxContextLength)
    ensures SaveSession(st, Some(k), input).Success?
    ensures var st' := SaveSession(st, Some(k), input).value.0;
      && st'.sessions[k].durationMinutes == st.sessions[k].durationMinutes
      && st'.reeds == st.reeds
      && st'.reeds[input.reed].totalPlayTimeMinutes
         == CompletedMinutes(st', input.reed) + StoredDuration(st.sessions[k])
  {
    var st' := SaveSession(st, Some(k), input).value.0;
    assert AgreeExcept(st.sessions, st'.sessions, k, st.nextSession);
    SumOwnedExcept(st.sessions, st'.sessions, SessionReed, CompletedDuration, input.reed, st.nextSession, k);
  }

  // ---------------------------------------------------------------------------------------------
  // The repository's test scenarios

  /** A reed created with status 'new' has that status and a zero counter. */
  lemma NewReedExample(now: int)
    ensures var r := CreateReed(EmptyStore, ReedInput("Test Reed #1", None, Some("new")), now);
      && r.Success?
      && r.value.0.reeds[r.value.1].status == "new"
      && r.value.0.reeds[r.value.1].totalPlayTimeMinutes == 0
  {
  }

  /** A completed 45-minute session is stored with 45 minutes; a new 30-minute session on a reed raises
      its counter by 30, from 0 to 30 for a fresh reed. */
  lemma SessionExamples(st: Store, r: nat, start: int)
    requires Valid(st) && r in st.reeds
    ensures var res := SaveSession(st, None, SessionInput(r, start, Some(start + 45 * 60), "Practice"));
      res.Success? && res.value.0.sessions[res.value.1].durationMinutes == Some(45)
    ensures var res := SaveSession(st, None, SessionInput(r, start, Some(start + 30 * 60), ""));
      res.Success?
      && res.value.0.reeds[r].totalPlayTimeMinutes == st.reeds[r].totalPlayTimeMinutes + 30
  {
    WholeMinutes(start, 45);
    WholeMinutes(start, 30);
    NullSurvivesTrim();
    assert NoNullCharacter("Practice");
  }

  /** Editing a 45-minute session down to 30 minutes takes 45 off the counter and adds 30. */
  lemma EditSessionExample(st: Store, k: nat, start: int)
    requires Valid(st) && LedgerHolds(st)
    requires k in st.sessions && st.sessions[k].durationMinutes == Some(45)
    ensures var input := SessionInput(st.sessions[k].reed, start, Some(start + 30 * 60), "");
      var res := SaveSession(st, Some(k), input);
      && res.Success?
      && res.value.0.reeds[input.reed].totalPlayTimeMinutes == st.reeds[input.reed].totalPlayTimeMinutes - 15
      && LedgerHolds(res.value.0)
  {
    var input := SessionInput(st.sessions[k].reed, start, Some(start + 30 * 60), "");
    WholeMinutes(start, 30);
    SaveSessionLedger(st, Some(k), input);
  }
}
