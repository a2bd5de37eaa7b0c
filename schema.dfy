/**
 * Record shapes of the tables the tournament ledger touches (users, tournaments,
 * tournament_participants, winnings, history), the enums stored in them, and the
 * check constraints the database enforces on each row.
 *
 * Timestamps are integers (a point on a clock supplied by the caller). Columns that
 * only serve sign-up and e-mail verification (email, password, verification code,
 * timestamps of updates) are not part of the model.
 */
module Schema {
  import opened Results

  // ---------------------------------------------------------------------------
  // users

  datatype User = User(id: int, name: string, balance: int)

  /** Check constraint `balance_non_negative`. */
  predicate UserChecks(u: User) {
    u.balance >= 0
  }

  // ---------------------------------------------------------------------------
  // tournaments

  datatype Tournament = Tournament(
    id: int,
    adminId: int,
    game: string,
    name: string,
    description: Option<string>,
    roomId: Option<string>,
    roomPassword: Option<string>,
    entryFee: int,
    prize: int,
    perKillPrize: int,
    maxParticipants: int,
    currentParticipants: int,
    scheduledAt: int,
    isEnded: bool)

  /** The five check constraints of the tournaments table. */
  predicate TournamentChecks(t: Tournament) {
    && t.entryFee >= 0
    && t.prize >= 0
    && t.perKillPrize >= 0
    && t.currentParticipants >= 0
    && t.currentParticipants <= t.maxParticipants
  }

  /** Default of the room_id column. */
  const DefaultRoomId: string := "0"

  /**
   * The row the database stores for an insert that supplies everything except
   * current_participants and is_ended, which take their column defaults.
   */
  function NewTournamentRow(id: int, adminId: int, game: string, name: string,
                            description: Option<string>, roomId: Option<string>,
                            roomPassword: Option<string>, entryFee: int, prize: int,
                            perKillPrize: int, maxParticipants: int, scheduledAt: int): (t: Tournament)
    ensures t.currentParticipants == 0 && !t.isEnded
    ensures t.id == id && t.adminId == adminId && t.name == name && t.roomId == roomId
    ensures TournamentChecks(t) <==>
              entryFee >= 0 && prize >= 0 && perKillPrize >= 0 && maxParticipants >= 0
  {
    Tournament(id, adminId, game, name, description, roomId, roomPassword,
               entryFee, prize, perKillPrize, maxParticipants, 0, scheduledAt, false)
  }

  // ---------------------------------------------------------------------------
  // tournament_participants

  datatype Participant = Participant(
    tournamentId: int,
    userId: int,
    playerUsername: string,
    playerUserId: string,
    playerLevel: int,
    joinedAt: int)

  // ---------------------------------------------------------------------------
  // winnings

  /** pgEnum `winnings_type`. */
  datatype WinningsType = Winnings | Kill

  function WinningsTypeLabel(k: WinningsType): string {
    match k
    case Winnings => "winnings"
    case Kill => "kill"
  }

  /** The labels the `winnings_type` enum accepts, and nothing else. */
  function ParseWinningsType(s: string): (r: Option<WinningsType>)
    ensures r.Some? ==> WinningsTypeLabel(r.value) == s
  {
    if s == "winnings" then Some(Winnings)
    else if s == "kill" then Some(Kill)
    else None
  }

  lemma WinningsTypeLabelRoundTrip(k: WinningsType)
    ensures ParseWinningsType(WinningsTypeLabel(k)) == Some(k)
  {
  }

  datatype WinningsRow = WinningsRow(
    id: int,
    userId: int,
    tournamentId: int,
    amount: int,
    kind: WinningsType,
    createdAt: int)

  // ---------------------------------------------------------------------------
  // history

  /** pgEnum `transaction_type`. */
  datatype TransactionType =
    | Deposit
    | Withdrawal
    | TournamentEntry
    | TournamentWinnings
    | KillReward
    | BalanceAdjustment
    | DepositRejected
    | WithdrawalRejected

  function TransactionTypeLabel(k: TransactionType): string {
    match k
    case Deposit => "deposit"
    case Withdrawal => "withdrawal"
    case TournamentEntry => "tournament_entry"
    case TournamentWinnings => "tournament_winnings"
    case KillReward => "kill_reward"
    case BalanceAdjustment => "balance_adjustment"
    case DepositRejected => "deposit_rejected"
    case WithdrawalRejected => "withdrawal_rejected"
  }

  /** The eight labels the `transaction_type` enum accepts, and nothing else. */
  function ParseTransactionType(s: string): (r: Option<TransactionType>)
    ensures r.Some? ==> TransactionTypeLabel(r.value) == s
  {
    if s == "deposit" then Some(Deposit)
    else if s == "withdrawal" then Some(Withdrawal)
    else if s == "tournament_entry" then Some(TournamentEntry)
    else if s == "tournament_winnings" then Some(TournamentWinnings)
    else if s == "kill_reward" then Some(KillReward)
    else if s == "balance_adjustment" then Some(BalanceAdjustment)
    else if s == "deposit_rejected" then Some(DepositRejected)
    else if s == "withdrawal_rejected" then Some(WithdrawalRejected)
    else None
  }

  lemma TransactionTypeLabelRoundTrip(k: TransactionType)
    ensures ParseTransactionType(TransactionTypeLabel(k)) == Some(k)
  {
  }

  /** pgEnum `balance_effect`. */
  datatype BalanceEffect = Increase | Decrease | NoEffect

  function BalanceEffectLabel(e: BalanceEffect): string {
    match e
    case Increase => "increase"
    case Decrease => "decrease"
    case NoEffect => "none"
  }

  /** The three labels the `balance_effect` enum accepts, and nothing else. */
  function ParseBalanceEffect(s: string): (r: Option<BalanceEffect>)
    ensures r.Some? ==> BalanceEffectLabel(r.value) == s
  {
    if s == "increase" then Some(Increase)
    else if s == "decrease" then Some(Decrease)
    else if s == "none" then Some(NoEffect)
    else None
  }

  lemma BalanceEffectLabelRoundTrip(e: BalanceEffect)
    ensures ParseBalanceEffect(BalanceEffectLabel(e)) == Some(e)
  {
  }

  datatype HistoryEntry = HistoryEntry(
    userId: int,
    transactionType: TransactionType,
    amount: int,
    balanceEffect: BalanceEffect,
    status: string,
    message: string,
    referenceId: Option<int>,
    createdAt: int)

  /** The signed change to the balance that a history row records. */
  function SignedAmount(e: HistoryEntry): (d: int)
    ensures e.balanceEffect == NoEffect ==> d == 0
    ensures e.amount >= 0 ==> (d > 0 ==> e.balanceEffect == Increase) && (d < 0 ==> e.balanceEffect == Decrease)
  {
    match e.balanceEffect
    case Increase => e.amount
    case Decrease => -e.amount
    case NoEffect => 0
  }
}
