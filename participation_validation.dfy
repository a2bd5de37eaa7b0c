/** The request schema of the join endpoint (`participationValidator`). */
module ParticipationValidation {

  const MinPlayerLevel: int := 30

  datatype ParticipationInput = ParticipationInput(
    playerUsername: string,
    playerUserId: string,
    playerLevel: int)

  /** Both names are non-empty and the level is at least 30. */
  predicate ParticipationValid(d: ParticipationInput) {
    && |d.playerUsername| >= 1
    && |d.playerUserId| >= 1
    && d.playerLevel >= MinPlayerLevel
  }
}
