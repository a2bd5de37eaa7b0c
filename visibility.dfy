/**
 * Hiding a tournament's room credentials from users who neither joined nor won it
 * (`sanitizeTournamentData`). The helper works on untyped JavaScript data, so it is
 * modelled over a small model of JavaScript values.
 */
module Visibility {
  import opened Results
  import opened Schema

  /** A JavaScript value; an object maps each of its own keys to a value. */
  datatype Value =
    | Null
    | Bool(b: bool)
    | Num(n: int)
    | Str(s: string)
    | Obj(fields: map<string, Value>)

  /** JavaScript truthiness. */
  predicate Truthy(v: Value) {
    match v
    case Null => false
    case Bool(b) => b
    case Num(n) => n != 0
    case Str(s) => s != ""
    case Obj(_) => true
  }

  /** The keys that carry the room credentials. */
  const RoomKeys: set<string> := {"roomId", "roomPassword"}

  /** `const { roomId, roomPassword, ...rest } = v; rest`, for an object `v`. */
  function WithoutRoom(v: Value): Value {
    if v.Obj? then Obj(v.fields - RoomKeys) else v
  }

  /** `r` is the object `v` with the room keys removed and every other key kept. */
  ghost predicate StrippedOf(r: Value, v: Value) {
    && r.Obj? && v.Obj?
    && r.fields.Keys == v.fields.Keys - RoomKeys
    && forall k :: k in r.fields ==> r.fields[k] == v.fields[k]
  }

  /** The value holds a truthy `tournament` property. */
  predicate HasNestedTournament(v: Value) {
    v.Obj? && "tournament" in v.fields && Truthy(v.fields["tournament"])
  }

  function Sanitize(data: Value, hasParticipated: bool, isWinner: bool): (r: Value)
    // a falsy value, or a viewer who joined or won, sees the data as it is
    ensures !Truthy(data) || hasParticipated || isWinner ==> r == data
    // otherwise a nested tournament object loses its room keys, and nothing else changes
    ensures Truthy(data) && !hasParticipated && !isWinner && HasNestedTournament(data) ==>
              && r.Obj? && r.fields.Keys == data.fields.Keys
              && (forall k :: k in r.fields && k != "tournament" ==> r.fields[k] == data.fields[k])
              && (data.fields["tournament"].Obj? ==> StrippedOf(r.fields["tournament"], data.fields["tournament"]))
    // or a top-level object loses its room keys, and nothing else changes
    ensures Truthy(data) && !hasParticipated && !isWinner && !HasNestedTournament(data) ==>
              if data.Obj? then StrippedOf(r, data) else r == data
  {
    if !Truthy(data) then data
    else if hasParticipated || isWinner then data
    else if HasNestedTournament(data) then
      Obj(data.fields["tournament" := WithoutRoom(data.fields["tournament"])])
    else if data.Obj? && ("roomId" in data.fields || "roomPassword" in data.fields) then
      Obj(data.fields - RoomKeys)
    else data
  }

  /** Sanitizing what is already sanitized changes nothing. */
  lemma SanitizeIdempotent(data: Value, hasParticipated: bool, isWinner: bool)
    ensures Sanitize(Sanitize(data, hasParticipated, isWinner), hasParticipated, isWinner)
            == Sanitize(data, hasParticipated, isWinner)
  {
    var once := Sanitize(data, hasParticipated, isWinner);
    if Truthy(data) && !hasParticipated && !isWinner {
      if HasNestedTournament(data) {
        var inner := data.fields["tournament"];
        assert WithoutRoom(WithoutRoom(inner)) == WithoutRoom(inner);
        assert once.fields["tournament"] == WithoutRoom(inner);
        assert HasNestedTournament(once);
        assert once.fields["tournament" := WithoutRoom(once.fields["tournament"])] == once.fields;
      } else if data.Obj? {
        assert once.fields - RoomKeys == once.fields;
      }
    }
  }

  function OptionalText(o: Option<string>): Value {
    match o
    case None => Null
    case Some(s) => Str(s)
  }

  /** The object a `select()` on the tournaments table yields for a row. */
  function RowValue(t: Tournament): (v: Value)
    ensures v.Obj? && RoomKeys <= v.fields.Keys && "tournament" !in v.fields
  {
    Obj(map[
      "id" := Num(t.id),
      "adminId" := Num(t.adminId),
      "game" := Str(t.game),
      "name" := Str(t.name),
      "description" := OptionalText(t.description),
      "roomId" := OptionalText(t.roomId),
      "roomPassword" := OptionalText(t.roomPassword),
      "entryFee" := Num(t.entryFee),
      "prize" := Num(t.prize),
      "perKillPrize" := Num(t.perKillPrize),
      "maxParticipants" := Num(t.maxParticipants),
      "currentParticipants" := Num(t.currentParticipants),
      "scheduledAt" := Num(t.scheduledAt),
      "isEnded" := Bool(t.isEnded)])
  }

  /**
   * A stored row shown to a user who neither joined nor won has no room keys,
   * and shows every other column; to a participant or winner it shows all of them.
   */
  lemma RowVisibility(t: Tournament, hasParticipated: bool, isWinner: bool)
    ensures var r := Sanitize(RowValue(t), hasParticipated, isWinner);
            if hasParticipated || isWinner then r == RowValue(t)
            else r.Obj? && "roomId" !in r.fields && "roomPassword" !in r.fields
                 && r.fields.Keys == RowValue(t).fields.Keys - RoomKeys
                 && (forall k :: k in r.fields ==> r.fields[k] == RowValue(t).fields[k])
                 && r.fields["name"] == Str(t.name) && r.fields["entryFee"] == Num(t.entryFee)
  {
  }
}
