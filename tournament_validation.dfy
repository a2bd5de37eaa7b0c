/**
 * The request schemas of the admin tournament endpoints: creation, room update,
 * kill reward and partial edit. Each schema is a predicate on the decoded request;
 * the two that transform their input (a default or a fallback room id) are
 * functions returning the parsed object, or None when the schema rejects it.
 *
 * Dates are integers compared with the caller's clock `now`.
 */
module TournamentValidation {
  import opened Results

  const MaxNameLength: nat := 50
  const MaxTextLength: nat := 255
  const MaxKills: int := 100

  /** `z.enum(["BGMI", "FREEFIRE"])`. */
  predicate IsGame(s: string) {
    s == "BGMI" || s == "FREEFIRE"
  }

  /** The room id is a numeric string: here, a string of decimal digits. */
  predicate IsNumericString(s: string) {
    forall i :: 0 <= i < |s| ==> '0' <= s[i] <= '9'
  }

  /** An optional string of at most `n` characters. */
  predicate AtMost(o: Option<string>, n: nat) {
    o.None? || |o.value| <= n
  }

  // ---------------------------------------------------------------------------
  // tournamentsValidation

  datatype TournamentInput = TournamentInput(
    game: string,
    name: string,
    description: Option<string>,
    roomId: Option<string>,
    roomPassword: Option<string>,
    entryFee: int,
    prize: int,
    perKillPrize: int,
    maxParticipants: int,
    scheduledAt: int)

  /** What `tournamentsValidation` yields: the room id has taken its default. */
  datatype TournamentData = TournamentData(
    game: string,
    name: string,
    description: Option<string>,
    roomId: string,
    roomPassword: Option<string>,
    entryFee: int,
    prize: int,
    perKillPrize: int,
    maxParticipants: int,
    scheduledAt: int)

  predicate TournamentInputValid(raw: TournamentInput, now: int) {
    && IsGame(raw.game)
    && 1 <= |raw.name| <= MaxNameLength
    && AtMost(raw.description, MaxTextLength)
    && (raw.roomId.None? || IsNumericString(raw.roomId.value))
    && AtMost(raw.roomPassword, MaxTextLength)
    && raw.entryFee >= 0
    && raw.prize >= 0
    && raw.perKillPrize >= 0
    && raw.maxParticipants > 0
    && raw.scheduledAt > now
  }

  function ParseTournament(raw: TournamentInput, now: int): (r: Option<TournamentData>)
    ensures r.Some? <==> TournamentInputValid(raw, now)
    ensures r.Some? ==>
              && r.value.entryFee >= 0 && r.value.prize >= 0 && r.value.perKillPrize >= 0
              && r.value.maxParticipants > 0
              && r.value.scheduledAt > now
              && 1 <= |r.value.name| <= MaxNameLength
              && IsNumericString(r.value.roomId)
              && r.value.roomId == (if raw.roomId.Some? then raw.roomId.value else "0")
    // the accepted request's own values, unchanged apart from the room id default
    ensures r.Some? ==>
              && r.value.game == raw.game && r.value.name == raw.name
              && r.value.description == raw.description && r.value.roomPassword == raw.roomPassword
              && r.value.entryFee == raw.entryFee && r.value.prize == raw.prize
              && r.value.perKillPrize == raw.perKillPrize
              && r.value.maxParticipants == raw.maxParticipants && r.value.scheduledAt == raw.scheduledAt
  {
    if TournamentInputValid(raw, now) then
      Some(TournamentData(raw.game, raw.name, raw.description,
                          if raw.roomId.Some? then raw.roomId.value else "0",
                          raw.roomPassword, raw.entryFee, raw.prize, raw.perKillPrize,
                          raw.maxParticipants, raw.scheduledAt))
    else None
  }

  // ---------------------------------------------------------------------------
  // tournamentUpdateValidation

  datatype RoomUpdateInput = RoomUpdateInput(roomId: string, roomPassword: Option<string>)

  predicate RoomUpdateValid(d: RoomUpdateInput) {
    IsNumericString(d.roomId) && AtMost(d.roomPassword, MaxTextLength)
  }

  // ---------------------------------------------------------------------------
  // killMoneyValidation

  datatype KillInput = KillInput(userId: int, kills: int)

  predicate KillInputValid(d: KillInput) {
    d.userId > 0 && 0 <= d.kills <= MaxKills
  }

  // ---------------------------------------------------------------------------
  // tournamentEditValidation

  /** A partial edit: every field may be absent. */
  datatype EditInput = EditInput(
    game: Option<string>,
    name: Option<string>,
    description: Option<string>,
    roomId: Option<string>,
    roomPassword: Option<string>,
    entryFee: Option<int>,
    prize: Option<int>,
    perKillPrize: Option<int>,
    maxParticipants: Option<int>,
    scheduledAt: Option<int>)

  /** What `tournamentEditValidation` yields: an absent or empty room id became "0". */
  datatype EditData = EditData(
    game: Option<string>,
    name: Option<string>,
    description: Option<string>,
    roomId: string,
    roomPassword: Option<string>,
    entryFee: Option<int>,
    prize: Option<int>,
    perKillPrize: Option<int>,
    maxParticipants: Option<int>,
    scheduledAt: Option<int>)

  const EmptyEdit: EditInput :=
    EditInput(None, None, None, None, None, None, None, None, None, None)

  /** `val || "0"` on the optional room id. */
  function EditRoomId(roomId: Option<string>): (s: string)
    ensures s != ""
    ensures roomId.Some? && roomId.value != "" ==> s == roomId.value
    ensures roomId.None? || roomId.value == "" ==> s == "0"
  {
    if roomId.Some? && roomId.value != "" then roomId.value else "0"
  }

  predicate OptionalNonNegative(o: Option<int>) {
    o.None? || o.value >= 0
  }

  predicate EditInputValid(raw: EditInput, now: int) {
    && (raw.game.None? || IsGame(raw.game.value))
    && (raw.name.None? || 1 <= |raw.name.value| <= MaxNameLength)
    && AtMost(raw.description, MaxTextLength)
    && IsNumericString(EditRoomId(raw.roomId))
    && AtMost(raw.roomPassword, MaxTextLength)
    && OptionalNonNegative(raw.entryFee)
    && OptionalNonNegative(raw.prize)
    && OptionalNonNegative(raw.perKillPrize)
    && (raw.maxParticipants.None? || raw.maxParticipants.value > 0)
    // the date is compared with the clock only when one is supplied
    && (raw.scheduledAt.None? || raw.scheduledAt.value > now)
  }

  function ParseEdit(raw: EditInput, now: int): (r: Option<EditData>)
    ensures r.Some? <==> EditInputValid(raw, now)
    // every field is optional: the empty edit is accepted
    ensures raw == EmptyEdit ==> r.Some?
    ensures r.Some? ==>
              && r.value.roomId == (if raw.roomId.None? || raw.roomId.value == "" then "0" else raw.roomId.value)
              && IsNumericString(r.value.roomId)
              && (r.value.scheduledAt.Some? ==> r.value.scheduledAt.value > now)
              && (r.value.maxParticipants.Some? ==> r.value.maxParticipants.value > 0)
              && OptionalNonNegative(r.value.entryFee) && OptionalNonNegative(r.value.prize)
              && OptionalNonNegative(r.value.perKillPrize)
    // the accepted edit's own values, unchanged apart from the room id fallback
    ensures r.Some? ==>
              && r.value.game == raw.game && r.value.name == raw.name
              && r.value.description == raw.description && r.value.roomPassword == raw.roomPassword
              && r.value.entryFee == raw.entryFee && r.value.prize == raw.prize
              && r.value.perKillPrize == raw.perKillPrize
              && r.value.maxParticipants == raw.maxParticipants && r.value.scheduledAt == raw.scheduledAt
  {
    if EditInputValid(raw, now) then
      Some(EditData(raw.game, raw.name, raw.description, EditRoomId(raw.roomId),
                    raw.roomPassword, raw.entryFee, raw.prize, raw.perKillPrize,
                    raw.maxParticipants, raw.scheduledAt))
    else None
  }
}
