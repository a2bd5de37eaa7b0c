/** Outcomes of the tournament operations: a value, or the error the helper throws. */
module Results {

  datatype Option<+T> = None | Some(value: T)

  /** One constructor per `throw new Error(...)` of the tournament helpers. */
  datatype Error =
    | InvalidTournamentId      // "Invalid tournament ID"
    | InvalidUserId            // "Invalid user ID"
    | InvalidKillCount         // "Invalid kill count"
    | TournamentNotFound       // "Tournament does not exist"
    | AlreadyParticipated      // "Already participated in tournament"
    | TournamentFull           // "Tournament has reached its maximum participants"
    | UserNotFound             // "User does not exist"
    | InsufficientBalance      // "Don't have enough balance ..."
    | LevelTooLow              // "Player level must be at least 30"
    | NotFoundForAdmin         // "Tournament with ID .. not found for this admin"
    | KillAfterEnd             // "Cannot add kill reward ... has already ended"
    | NotAParticipant          // "User with ID .. is not a participant in this tournament"
    | KillRewardExists         // "Kill reward already exists ..."
    | NotFoundOrEnded          // "Tournament with ID .. not found or already ended"
    | CannotEditEnded          // "Cannot edit tournament that has already ended"
    | MaxBelowCurrent          // "Cannot reduce max participants below current participant count"
    | HasParticipants(count: nat) // "Cannot delete tournament with N participants"
    | CheckViolation           // the database rejects a row that breaks a check constraint
    | NoValuesToSet            // the query builder refuses an update that sets no column

  datatype Result<+T> = Success(value: T) | Failure(error: Error)
}
