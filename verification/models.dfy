/** The record types of reeds/models.py, the store that holds them, and the writes on it,
    in particular the play-time ledger kept by `UsageSession.save`. */
module Models {
  import opened Common
  import opened Arith
  import opened Tables
  import opened Text

  /** `Reed.STATUS_CHOICES`, in declaration order. */
  const StatusChoices: seq<string> := ["new", "breaking_in", "prime", "declining", "retired"]
  const DefaultStatus: string := "new"

  /** `Modification.MODIFICATION_TYPES`, in declaration order. */
  const ModificationTypes: seq<string> :=
    ["clip", "scrape_tip", "scrape_heart", "scrape_back", "scrape_rails",
     "adjust_wire", "trim_corners", "balance", "other"]

  const MaxNameLength: nat := 100
  const MaxContextLength: nat := 100
  const MaxGoalLength: nat := 200
  const MinRating: int := 1
  const MaxRating: int := 10
  const SecondsPerMinute: int := 60

  /** A reed. Timestamps are whole seconds. `status` is the stored string: the column does not itself
      reject values outside `StatusChoices`; the request boundary does. */
  datatype Reed = Reed(name: string, createdDate: int, status: string, totalPlayTimeMinutes: int)

  /** One interval of playing a reed; `durationMinutes` is derived and never set by a client. */
  datatype UsageSession = UsageSession(
    reed: nat, startTime: int, endTime: Option<int>, durationMinutes: Option<int>, context: string)

  /** A point-in-time rating of a reed; every rating is optional. */
  datatype QualitySnapshot = QualitySnapshot(
    reed: nat, timestamp: int,
    toneQuality: Option<int>, response: Option<int>, intonation: Option<int>,
    stability: Option<int>, easeOfPlaying: Option<int>, overallRating: Option<int>)

  /** A logged change to a reed. */
  datatype Modification = Modification(
    reed: nat, timestamp: int, modificationType: string, description: string, goal: string,
    successRating: Option<int>)

  /** The persisted tables, each keyed by an auto-increment id with the next id to hand out. */
  datatype Store = Store(
    reeds: map<nat, Reed>, nextReed: nat,
    sessions: map<nat, UsageSession>, nextSession: nat,
    snapshots: map<nat, QualitySnapshot>, nextSnapshot: nat,
    modifications: map<nat, Modification>, nextModification: nat)

  const EmptyStore: Store := Store(map[], 0, map[], 0, map[], 0, map[], 0)

  // ---------------------------------------------------------------------------------------------
  // Foreign keys and the rows of one reed

  function SessionReed(s: UsageSession): nat { s.reed }
  function SnapshotReed(s: QualitySnapshot): nat { s.reed }
  function ModificationReed(m: Modification): nat { m.reed }
  function ReedStatus(r: Reed): string { r.status }
  function ModificationType(m: Modification): string { m.modificationType }
  function PlayTime(r: Reed): int { r.totalPlayTimeMinutes }

  /** `reed.usage_sessions`, in id order. */
  function SessionsOf(st: Store, r: nat): seq<UsageSession> {
    Owned(st.sessions, SessionReed, r, st.nextSession)
  }

  /** `reed.quality_snapshots`, in id order. */
  function SnapshotsOf(st: Store, r: nat): seq<QualitySnapshot> {
    Owned(st.snapshots, SnapshotReed, r, st.nextSnapshot)
  }

  /** `reed.modifications`, in id order. */
  function ModificationsOf(st: Store, r: nat): seq<Modification> {
    Owned(st.modifications, ModificationReed, r, st.nextModification)
  }

  /** The ids of reed `r`'s sessions, snapshots and modifications. */
  ghost function SessionIds(st: Store, r: nat): set<nat> {
    KeysWhere(st.sessions, SessionReed, r)
  }

  ghost function SnapshotIds(st: Store, r: nat): set<nat> {
    KeysWhere(st.snapshots, SnapshotReed, r)
  }

  ghost function ModificationIds(st: Store, r: nat): set<nat> {
    KeysWhere(st.modifications, ModificationReed, r)
  }

  // ---------------------------------------------------------------------------------------------
  // The play-time ledger

  /** A session's stored duration with null read as 0 (`duration_minutes or 0`). */
  function StoredDuration(s: UsageSession): int { s.durationMinutes.GetOr(0) }

  /** The stored duration of a session that has an end time, else 0. */
  function CompletedDuration(s: UsageSession): int {
    if s.endTime.Some? then s.durationMinutes.GetOr(0) else 0
  }

  /** The sum of the stored durations of reed `r`'s sessions. */
  function StoredMinutes(st: Store, r: nat): int {
    SumBy(SessionsOf(st, r), StoredDuration)
  }

  /** The sum of the stored durations of reed `r`'s sessions that have an end time. */
  function CompletedMinutes(st: Store, r: nat): int {
    SumBy(SessionsOf(st, r), CompletedDuration)
  }

  /** The ledger invariant: every reed's counter is the sum of its sessions' stored durations. */
  ghost predicate LedgerHolds(st: Store) {
    forall r :: r in st.reeds ==> st.reeds[r].totalPlayTimeMinutes == StoredMinutes(st, r)
  }

  /** The stronger invariant that counts only sessions with an end time. */
  ghost predicate CompletedLedgerHolds(st: Store) {
    forall r :: r in st.reeds ==> st.reeds[r].totalPlayTimeMinutes == CompletedMinutes(st, r)
  }

  /** `int(delta.total_seconds() / 60)`: whole minutes from start to end, truncated toward zero,
      so an end before the start gives at most 0, and 0 for a span shorter than a minute. */
  function DurationMinutes(start: int, end: int): (d: int)
    ensures start <= end ==> 0 <= d && d * SecondsPerMinute <= end - start < d * SecondsPerMinute + SecondsPerMinute
    ensures end < start ==> d <= 0 && d * SecondsPerMinute - SecondsPerMinute < end - start <= d * SecondsPerMinute
  {
    TruncDiv(end - start, SecondsPerMinute)
  }

  // ---------------------------------------------------------------------------------------------
  // Field validation at the request boundary

  /** The 1..10 validators of every rating column; an absent rating is always valid. */
  predicate ValidRating(x: Option<int>) {
    x.None? || MinRating <= x.value <= MaxRating
  }

  /** The null-character validator every serializer character field carries. */
  predicate NoNullCharacter(s: string) {
    '\0' !in s
  }

  /** A NUL is not whitespace, so stripping neither removes nor adds one. */
  lemma NullSurvivesTrim()
    ensures forall s :: NoNullCharacter(Trim(s)) <==> NoNullCharacter(s)
  {
    forall s ensures NoNullCharacter(Trim(s)) <==> NoNullCharacter(s) {
      TrimKeeps(s, '\0');
    }
  }

  /** A stored name: not blank, within `max_length` and without a NUL. The request value is stripped
      first. */
  predicate ValidName(name: string) {
    name != [] && |name| <= MaxNameLength && NoNullCharacter(name)
  }

  /** A stored optional (`blank=True`) character field: within `maxLength` and without a NUL. */
  predicate ValidOptionalText(s: string, maxLength: nat) {
    |s| <= maxLength && NoNullCharacter(s)
  }

  predicate RatingsValid(s: QualitySnapshot) {
    && ValidRating(s.toneQuality) && ValidRating(s.response) && ValidRating(s.intonation)
    && ValidRating(s.stability) && ValidRating(s.easeOfPlaying) && ValidRating(s.overallRating)
  }

  predicate ModificationFieldsValid(m: Modification) {
    && m.modificationType in ModificationTypes
    && m.description != [] && NoNullCharacter(m.description)
    && ValidOptionalText(m.goal, MaxGoalLength)
    && ValidRating(m.successRating)
  }

  /** The row a modification request stores: its character fields stripped of surrounding whitespace
      (the type is a choice and is taken as given). */
  function StripModification(m: Modification): Modification {
    m.(description := Trim(m.description), goal := Trim(m.goal))
  }

  /** The rating columns of `QualitySnapshot`, in declaration order, with their field names. */
  datatype RatingField = ToneQuality | Response | Intonation | Stability | EaseOfPlaying | OverallRating

  const RatingFields: seq<RatingField> :=
    [ToneQuality, Response, Intonation, Stability, EaseOfPlaying, OverallRating]

  function FieldName(f: RatingField): string {
    match f
    case ToneQuality => "tone_quality"
    case Response => "response"
    case Intonation => "intonation"
    case Stability => "stability"
    case EaseOfPlaying => "ease_of_playing"
    case OverallRating => "overall_rating"
  }

  function Rating(s: QualitySnapshot, f: RatingField): Option<int> {
    match f
    case ToneQuality => s.toneQuality
    case Response => s.response
    case Intonation => s.intonation
    case Stability => s.stability
    case EaseOfPlaying => s.easeOfPlaying
    case OverallRating => s.overallRating
  }

  /** No two rating columns share a field name (their names even differ in length). */
  lemma FieldNamesDistinct()
    ensures forall f, g :: FieldName(f) == FieldName(g) ==> f == g
  {
    forall f, g | FieldName(f) == FieldName(g) ensures f == g {
      assert |FieldName(f)| == |FieldName(g)|;
    }
  }

  /** `RatingFields` lists every rating column. */
  lemma AllRatingFields()
    ensures forall f :: f in RatingFields
  {
    forall f ensures f in RatingFields {
      match f
      case ToneQuality => assert RatingFields[0] == f;
      case Response => assert RatingFields[1] == f;
      case Intonation => assert RatingFields[2] == f;
      case Stability => assert RatingFields[3] == f;
      case EaseOfPlaying => assert RatingFields[4] == f;
      case OverallRating => assert RatingFields[5] == f;
    }
  }

  lemma RatingsValidByField(s: QualitySnapshot)
    ensures RatingsValid(s) <==> forall i :: 0 <= i < |RatingFields| ==> ValidRating(Rating(s, RatingFields[i]))
  {
    if !RatingsValid(s) {
      if !ValidRating(s.toneQuality) { assert !ValidRating(Rating(s, RatingFields[0])); }
      else if !ValidRating(s.response) { assert !ValidRating(Rating(s, RatingFields[1])); }
      else if !ValidRating(s.intonation) { assert !ValidRating(Rating(s, RatingFields[2])); }
      else if !ValidRating(s.stability) { assert !ValidRating(Rating(s, RatingFields[3])); }
      else if !ValidRating(s.easeOfPlaying) { assert !ValidRating(Rating(s, RatingFields[4])); }
      else { assert !ValidRating(Rating(s, RatingFields[5])); }
    }
  }

  /** The names of the failing fields among `fs`, in the order of `fs`. */
  function RatingErrorsOver(s: QualitySnapshot, fs: seq<RatingField>): (names: seq<string>)
    ensures forall f :: FieldName(f) in names <==> f in fs && !ValidRating(Rating(s, f))
    ensures names == [] <==> forall i :: 0 <= i < |fs| ==> ValidRating(Rating(s, fs[i]))
  {
    if fs == [] then []
    else
      var rest := RatingErrorsOver(s, fs[1..]);
      var head := if ValidRating(Rating(s, fs[0])) then [] else [FieldName(fs[0])];
      FieldNamesDistinct();
      assert forall f :: f in fs <==> f == fs[0] || f in fs[1..];
      head + rest
  }

  /** The names of the snapshot's rating fields that fail validation, in declaration order: every
      field outside 1..10 is named and no other. */
  function RatingErrors(s: QualitySnapshot): (fields: seq<string>)
    ensures fields == [] <==> RatingsValid(s)
    ensures forall f :: FieldName(f) in fields <==> !ValidRating(Rating(s, f))
  {
    AllRatingFields();
    RatingsValidByField(s);
    RatingErrorsOver(s, RatingFields)
  }

  /** The names of the request's modification fields that fail validation, in declaration order. The
      character fields are judged stripped: a description that is only whitespace is blank, and
      surrounding whitespace does not count towards the goal's length. */
  function ModificationErrors(m: Modification): (fields: seq<string>)
    ensures fields == [] <==> ModificationFieldsValid(StripModification(m))
    ensures "modification_type" in fields <==> m.modificationType !in ModificationTypes
    ensures "description" in fields <==> AllSpace(m.description) || '\0' in m.description
    ensures "goal" in fields <==> |Trim(m.goal)| > MaxGoalLength || '\0' in m.goal
    ensures "success_rating" in fields <==> !ValidRating(m.successRating)
  {
    var typeErrors := if m.modificationType in ModificationTypes then [] else ["modification_type"];
    var descriptionErrors :=
      if Trim(m.description) != [] && NoNullCharacter(m.description) then [] else ["description"];
    var goalErrors := if |Trim(m.goal)| <= MaxGoalLength && NoNullCharacter(m.goal) then [] else ["goal"];
    var ratingErrors := if ValidRating(m.successRating) then [] else ["success_rating"];
    ModificationNamesDistinct();
    NullSurvivesTrim();
    var fields := typeErrors + descriptionErrors + goalErrors + ratingErrors;
    assert "modification_type" in fields <==> typeErrors != [];
    assert "description" in fields <==> descriptionErrors != [];
    assert "goal" in fields <==> goalErrors != [];
    assert "success_rating" in fields <==> ratingErrors != [];
    fields
  }

  /** The modification field names differ pairwise (they even differ in length). */
  lemma ModificationNamesDistinct()
    ensures "modification_type" != "description" && "modification_type" != "goal"
    ensures "modification_type" != "success_rating" && "description" != "goal"
    ensures "description" != "success_rating" && "goal" != "success_rating"
  {
    assert |"modification_type"| == 17 && |"description"| == 11 && |"goal"| == 4 && |"success_rating"| == 14;
  }

  /** The names of the reed fields that fail validation; an omitted field is not validated. The name
      is checked after stripping, so a name that is only whitespace is blank and surrounding whitespace
      does not count towards its length; a name holding a NUL is rejected; the status is a choice and
      is not stripped. */
  function ReedErrors(name: Option<string>, status: Option<string>): (fields: seq<string>)
    ensures fields == [] <==>
      (name.Some? ==> ValidName(Trim(name.value))) && (status.Some? ==> status.value in StatusChoices)
    ensures "name" in fields <==>
      name.Some? && (AllSpace(name.value) || |Trim(name.value)| > MaxNameLength || '\0' in name.value)
    ensures "status" in fields <==> status.Some? && status.value !in StatusChoices
  {
    NullSurvivesTrim();
    (if name.None? || ValidName(Trim(name.value)) then [] else ["name"])
    + (if status.None? || status.value in StatusChoices then [] else ["status"])
  }

  /** A name of spaces is blank, and a name that fits only once stripped is accepted and stored
      stripped. */
  lemma NameStripping()
    ensures ReedErrors(Some("   "), None) == ["name"]
    ensures var hundred := seq(MaxNameLength, _ => 'a');
      && ReedErrors(Some(hundred + " "), None) == []
      && Trim(hundred + " ") == hundred
  {
    assert AllSpace("   ");
    var hundred := seq(MaxNameLength, _ => 'a');
    assert [] + hundred + " " == hundred + " ";
    TrimExact([], hundred, " ");
  }

  /** A NUL anywhere in a name or a description is rejected, naming that field. */
  lemma NullCharacterRejected()
    ensures ReedErrors(Some("a\0b"), None) == ["name"]
    ensures ModificationErrors(Modification(0, 0, "clip", "x\0", "", None)) == ["description"]
  {
    assert "a\0b"[1] == '\0';
    assert "x\0"[1] == '\0';
  }

  // ---------------------------------------------------------------------------------------------
  // Well-formed stores

  ghost predicate KeysBelowNext(st: Store) {
    && (forall k :: k in st.reeds ==> k < st.nextReed)
    && (forall k :: k in st.sessions ==> k < st.nextSession)
    && (forall k :: k in st.snapshots ==> k < st.nextSnapshot)
    && (forall k :: k in st.modifications ==> k < st.nextModification)
  }

  /** Every child row references an existing reed (the foreign keys with CASCADE). */
  ghost predicate ReferencesResolve(st: Store) {
    && (forall k :: k in st.sessions ==> st.sessions[k].reed in st.reeds)
    && (forall k :: k in st.snapshots ==> st.snapshots[k].reed in st.reeds)
    && (forall k :: k in st.modifications ==> st.modifications[k].reed in st.reeds)
  }

  /** Every stored field passed the validation it is written through. */
  ghost predicate FieldsValid(st: Store) {
    && (forall k :: k in st.reeds ==> st.reeds[k].status in StatusChoices && ValidName(st.reeds[k].name))
    && (forall k :: k in st.sessions ==> ValidOptionalText(st.sessions[k].context, MaxContextLength))
    && (forall k :: k in st.snapshots ==> RatingsValid(st.snapshots[k]))
    && (forall k :: k in st.modifications ==> ModificationFieldsValid(st.modifications[k]))
  }

  ghost predicate Valid(st: Store) {
    KeysBelowNext(st) && ReferencesResolve(st) && FieldsValid(st)
  }

  // ---------------------------------------------------------------------------------------------
  // Writes. Each returns the new store; a failure persists nothing. No write takes a play-time
  // counter or a duration from the client: those columns are read-only in the serializers.

  /** A reed-creation request; an omitted status or created date takes its default. */
  datatype ReedInput = ReedInput(name: string, createdDate: Option<int>, status: Option<string>)

  /** A partial reed update; omitted fields keep their values. */
  datatype ReedPatch = ReedPatch(name: Option<string>, createdDate: Option<int>, status: Option<string>)

  /** A usage-session write; there is no duration field. */
  datatype SessionInput = SessionInput(reed: nat, startTime: int, endTime: Option<int>, context: string)

  /** Creates a reed. Its counter starts at 0, its status defaults to 'new' and its created date to `now`. */
  function CreateReed(st: Store, input: ReedInput, now: int): (r: Result<(Store, nat)>)
    ensures r.Failure? <==> ReedErrors(Some(input.name), input.status) != []
    ensures r.Failure? ==> r.error == ValidationError(ReedErrors(Some(input.name), input.status))
    ensures r.Success? ==>
      var (st', id) := r.value;
      && id == st.nextReed && st'.nextReed == id + 1
      && (KeysBelowNext(st) ==> id !in st.reeds)
      && id in st'.reeds
      && st'.reeds == st.reeds[id := st'.reeds[id]]
      && st'.reeds[id].totalPlayTimeMinutes == 0
      && st'.reeds[id].status == input.status.GetOr(DefaultStatus)
      && st'.reeds[id].name == Trim(input.name)
      && st'.reeds[id].createdDate == input.createdDate.GetOr(now)
      && st'.sessions == st.sessions && st'.snapshots == st.snapshots && st'.modifications == st.modifications
      && st'.nextSession == st.nextSession && st'.nextSnapshot == st.nextSnapshot
      && st'.nextModification == st.nextModification
  {
    var errors := ReedErrors(Some(input.name), input.status);
    if errors != [] then Failure(ValidationError(errors))
    else
      var id := st.nextReed;
      var reed := Reed(Trim(input.name), input.createdDate.GetOr(now), input.status.GetOr(DefaultStatus), 0);
      Success((st.(reeds := st.reeds[id := reed], nextReed := id + 1), id))
  }

  /** Updates a reed's name, created date or status. The play-time counter cannot be written. */
  function UpdateReed(st: Store, id: nat, patch: ReedPatch): (r: Result<Store>)
    ensures id !in st.reeds ==> r == Failure(NotFound)
    ensures id in st.reeds ==> (r.Failure? <==> ReedErrors(patch.name, patch.status) != [])
    ensures r.Failure? && id in st.reeds ==> r.error == ValidationError(ReedErrors(patch.name, patch.status))
    ensures r.Success? ==>
      && r.value.reeds.Keys == st.reeds.Keys
      && r.value.reeds[id].totalPlayTimeMinutes == st.reeds[id].totalPlayTimeMinutes
      && r.value.reeds[id].status == patch.status.GetOr(st.reeds[id].status)
      && r.value.reeds[id].name == (if patch.name.Some? then Trim(patch.name.value) else st.reeds[id].name)
      && r.value.reeds[id].createdDate == patch.createdDate.GetOr(st.reeds[id].createdDate)
      && (forall k :: k in st.reeds && k != id ==> r.value.reeds[k] == st.reeds[k])
      && r.value.nextReed == st.nextReed
      && r.value.sessions == st.sessions && r.value.nextSession == st.nextSession
      && r.value.snapshots == st.snapshots && r.value.nextSnapshot == st.nextSnapshot
      && r.value.modifications == st.modifications && r.value.nextModification == st.nextModification
  {
    if id !in st.reeds then Failure(NotFound)
    else
      var errors := ReedErrors(patch.name, patch.status);
      if errors != [] then Failure(ValidationError(errors))
      else
        var current := st.reeds[id];
        var name := if patch.name.Some? then Trim(patch.name.value) else current.name;
        var reed := current.(
          name := name,
          createdDate := patch.createdDate.GetOr(current.createdDate),
          status := patch.status.GetOr(current.status));
        Success(st.(reeds := st.reeds[id := reed]))
  }

  /** Deletes a reed and, by cascade, its sessions, snapshots and modifications. */
  function DeleteReed(st: Store, id: nat): (r: Result<Store>)
    ensures r.Failure? <==> id !in st.reeds
    ensures r.Failure? ==> r.error == NotFound
    ensures r.Success? ==>
      && r.value.reeds == st.reeds - {id}
      && (forall k :: k in r.value.sessions ==> r.value.sessions[k].reed != id)
      && (forall k :: k in r.value.snapshots ==> r.value.snapshots[k].reed != id)
      && (forall k :: k in r.value.modifications ==> r.value.modifications[k].reed != id)
      && (forall k :: k in st.sessions && st.sessions[k].reed != id ==>
            k in r.value.sessions && r.value.sessions[k] == st.sessions[k])
      && (forall k :: k in st.snapshots && st.snapshots[k].reed != id ==>
            k in r.value.snapshots && r.value.snapshots[k] == st.snapshots[k])
      && (forall k :: k in st.modifications && st.modifications[k].reed != id ==>
            k in r.value.modifications && r.value.modifications[k] == st.modifications[k])
      && (forall k :: k in r.value.sessions ==> k in st.sessions)
      && (forall k :: k in r.value.snapshots ==> k in st.snapshots)
      && (forall k :: k in r.value.modifications ==> k in st.modifications)
      && r.value.nextReed == st.nextReed && r.value.nextSession == st.nextSession
      && r.value.nextSnapshot == st.nextSnapshot && r.value.nextModification == st.nextModification
  {
    if id !in st.reeds then Failure(NotFound)
    else
      Success(st.(
        reeds := st.reeds - {id},
        sessions := map k | k in st.sessions && st.sessions[k].reed != id :: st.sessions[k],
        snapshots := map k | k in st.snapshots && st.snapshots[k].reed != id :: st.snapshots[k],
        modifications := map k | k in st.modifications && st.modifications[k].reed != id :: st.modifications[k]))
  }

  /** The names of the session fields that fail validation, in declaration order: a reed that does not
      exist, or a context that, once stripped, is longer than `max_length` or holds a NUL. */
  function SessionErrors(st: Store, input: SessionInput): (fields: seq<string>)
    ensures fields == [] <==> input.reed in st.reeds && ValidOptionalText(Trim(input.context), MaxContextLength)
    ensures "reed" in fields <==> input.reed !in st.reeds
    ensures "context" in fields <==> |Trim(input.context)| > MaxContextLength || '\0' in input.context
  {
    var reedErrors := if input.reed in st.reeds then [] else ["reed"];
    var contextErrors :=
      if |Trim(input.context)| <= MaxContextLength && NoNullCharacter(input.context) then [] else ["context"];
    NullSurvivesTrim();
    assert |"reed"| != |"context"|;
    var fields := reedErrors + contextErrors;
    assert "reed" in fields <==> reedErrors != [];
    assert "context" in fields <==> contextErrors != [];
    fields
  }

  /** `UsageSession.save`. `id` is the session's primary key: absent for a new session, present for an
      update. When an end time is given the duration is recomputed and the counter of `input.reed` first
      loses the session's previously stored duration (read from the store, null as 0) and then gains the
      new one. Without an end time the duration keeps its stored value and no counter changes. */
  function SaveSession(st: Store, id: Option<nat>, input: SessionInput): (r: Result<(Store, nat)>)
    ensures id.Some? && id.value !in st.sessions ==> r == Failure(NotFound)
    ensures (id.None? || id.value in st.sessions) ==> (r.Failure? <==> SessionErrors(st, input) != [])
    ensures (id.None? || id.value in st.sessions) && r.Failure? ==>
      r.error == ValidationError(SessionErrors(st, input))
    ensures r.Success? ==>
      var (st', k) := r.value;
      var prior := if id.Some? && id.value in st.sessions then st.sessions[id.value].durationMinutes else None;
      && (id.Some? ==> k == id.value && st'.nextSession == st.nextSession)
      && (id.None? ==> k == st.nextSession && st'.nextSession == k + 1)
      && (id.None? && KeysBelowNext(st) ==> k !in st.sessions)
      && st'.nextReed == st.nextReed && st'.nextSnapshot == st.nextSnapshot
      && st'.nextModification == st.nextModification
      && input.reed in st.reeds && input.reed in st'.reeds
      && k in st'.sessions
      && st'.sessions[k].reed == input.reed
      && st'.sessions[k].startTime == input.startTime
      && st'.sessions[k].endTime == input.endTime
      && st'.sessions[k].context == Trim(input.context)
      && ValidOptionalText(st'.sessions[k].context, MaxContextLength)
      && (input.endTime.Some? ==>
            && st'.sessions[k].durationMinutes == Some(DurationMinutes(input.startTime, input.endTime.value))
            && st'.reeds[input.reed].totalPlayTimeMinutes
               == st.reeds[input.reed].totalPlayTimeMinutes - prior.GetOr(0)
                  + DurationMinutes(input.startTime, input.endTime.value))
      && (input.endTime.None? ==>
            && st'.sessions[k].durationMinutes == prior
            && st'.reeds == st.reeds)
      && st'.reeds.Keys == st.reeds.Keys
      && (forall j :: j in st.reeds && j != input.reed ==> st'.reeds[j] == st.reeds[j])
      && st'.reeds[input.reed].(totalPlayTimeMinutes := 0) == st.reeds[input.reed].(totalPlayTimeMinutes := 0)
      && (forall j :: j != k ==> (j in st'.sessions <==> j in st.sessions))
      && (forall j :: j != k && j in st.sessions ==> st'.sessions[j] == st.sessions[j])
      && st'.snapshots == st.snapshots && st'.modifications == st.modifications
  {
    if id.Some? && id.value !in st.sessions then Failure(NotFound)
    else
      var errors := SessionErrors(st, input);
      if errors != [] then Failure(ValidationError(errors))
      else
        var k := if id.Some? then id.value else st.nextSession;
        var prior := if id.Some? then st.sessions[k].durationMinutes else None;
        var duration :=
          if input.endTime.Some? then Some(DurationMinutes(input.startTime, input.endTime.value)) else prior;
        var reeds :=
          if input.endTime.Some? then
            var reed := st.reeds[input.reed];
            var total := reed.totalPlayTimeMinutes - prior.GetOr(0) + duration.value;
            st.reeds[input.reed := reed.(totalPlayTimeMinutes := total)]
          else st.reeds;
        var session := UsageSession(input.reed, input.startTime, input.endTime, duration, Trim(input.context));
        var next := if id.Some? then st.nextSession else st.nextSession + 1;
        Success((st.(reeds := reeds, sessions := st.sessions[k := session], nextSession := next), k))
  }

  /** Deletes a session. There is no delete override: no counter changes. */
  function DeleteSession(st: Store, id: nat): (r: Result<Store>)
    ensures r.Failure? <==> id !in st.sessions
    ensures r.Failure? ==> r.error == NotFound
    ensures r.Success? ==>
      && r.value.sessions == st.sessions - {id}
      && r.value.reeds == st.reeds
      && r.value.snapshots == st.snapshots && r.value.modifications == st.modifications
      && r.value.nextReed == st.nextReed && r.value.nextSession == st.nextSession
      && r.value.nextSnapshot == st.nextSnapshot && r.value.nextModification == st.nextModification
  {
    if id !in st.sessions then Failure(NotFound)
    else Success(st.(sessions := st.sessions - {id}))
  }

  /** Creates a quality snapshot; every out-of-range rating is reported and nothing is stored. */
  function CreateSnapshot(st: Store, s: QualitySnapshot): (r: Result<(Store, nat)>)
    ensures r.Failure? <==> s.reed !in st.reeds || !RatingsValid(s)
    ensures r.Failure? ==>
      r.error == ValidationError((if s.reed in st.reeds then [] else ["reed"]) + RatingErrors(s))
    ensures r.Success? ==>
      var (st', id) := r.value;
      && id == st.nextSnapshot && st'.nextSnapshot == id + 1
      && (KeysBelowNext(st) ==> id !in st.snapshots)
      && st'.snapshots == st.snapshots[id := s] && RatingsValid(st'.snapshots[id])
      && st'.reeds == st.reeds && st'.sessions == st.sessions && st'.modifications == st.modifications
      && st'.nextReed == st.nextReed && st'.nextSession == st.nextSession
      && st'.nextModification == st.nextModification
  {
    var errors := (if s.reed in st.reeds then [] else ["reed"]) + RatingErrors(s);
    if errors != [] then Failure(ValidationError(errors))
    else
      var id := st.nextSnapshot;
      Success((st.(snapshots := st.snapshots[id := s], nextSnapshot := id + 1), id))
  }

  /** Creates a modification from a request; an unknown type, a blank description or an out-of-range
      success rating is reported and nothing is stored. The stored row has its text fields stripped. */
  function CreateModification(st: Store, m: Modification): (r: Result<(Store, nat)>)
    ensures r.Failure? <==> m.reed !in st.reeds || !ModificationFieldsValid(StripModification(m))
    ensures r.Failure? ==>
      r.error == ValidationError((if m.reed in st.reeds then [] else ["reed"]) + ModificationErrors(m))
    ensures r.Success? ==>
      var (st', id) := r.value;
      && id == st.nextModification && st'.nextModification == id + 1
      && (KeysBelowNext(st) ==> id !in st.modifications)
      && st'.modifications == st.modifications[id := StripModification(m)]
      && st'.modifications[id].modificationType in ModificationTypes
      && st'.modifications[id].description == Trim(m.description) != []
      && ValidRating(st'.modifications[id].successRating)
      && st'.reeds == st.reeds && st'.sessions == st.sessions && st'.snapshots == st.snapshots
      && st'.nextReed == st.nextReed && st'.nextSession == st.nextSession
      && st'.nextSnapshot == st.nextSnapshot
  {
    var errors := (if m.reed in st.reeds then [] else ["reed"]) + ModificationErrors(m);
    if errors != [] then Failure(ValidationError(errors))
    else
      var id := st.nextModification;
      Success((st.(modifications := st.modifications[id := StripModification(m)], nextModification := id + 1), id))
  }
}
