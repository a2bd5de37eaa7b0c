/**
 * The in-memory store that stands for the Postgres database: the users, tournaments,
 * tournament_participants, winnings and history tables, the identity counters of the
 * tables whose ids the helpers use, and the invariants the schema's constraints and
 * the helpers together maintain.
 */
module Database {
  import opened Schema
  import opened Queries

  /** Every user row is stored under its id and meets `balance_non_negative`. */
  ghost predicate UsersOk(users: map<int, User>) {
    forall u :: u in users ==> users[u].id == u && UserChecks(users[u])
  }

  /**
   * Every tournament is stored under its id, which the identity column issued,
   * meets its check constraints, counts exactly its roster rows, and was ended
   * only with a winner on its roster.
   */
  ghost predicate TournamentsOk(ts: map<int, Tournament>, nextId: int, roster: seq<Participant>) {
    forall t :: t in ts ==>
      && ts[t].id == t
      && 1 <= t < nextId
      && TournamentChecks(ts[t])
      && ts[t].currentParticipants == RosterCount(roster, t)
      && (ts[t].isEnded ==> ts[t].currentParticipants >= 1)
  }

  /** One roster row per (tournamentId, userId) pair. */
  ghost predicate RosterUnique(roster: seq<Participant>) {
    forall i, j :: 0 <= i < j < |roster| ==>
      roster[i].tournamentId != roster[j].tournamentId || roster[i].userId != roster[j].userId
  }

  /** The foreign keys of tournament_participants. */
  ghost predicate RosterRefs(roster: seq<Participant>, ts: map<int, Tournament>, users: map<int, User>) {
    forall i :: 0 <= i < |roster| ==> roster[i].tournamentId in ts && roster[i].userId in users
  }

  /** At most one `kill` winnings row per (tournamentId, userId) pair. */
  ghost predicate AtMostOneKill(ws: seq<WinningsRow>) {
    forall i, j :: 0 <= i < j < |ws| && ws[i].kind == Kill && ws[j].kind == Kill ==>
      ws[i].tournamentId != ws[j].tournamentId || ws[i].userId != ws[j].userId
  }

  /**
   * Every winnings row belongs to a participant of its tournament (so its foreign
   * keys hold), and its id was issued by the identity column in increasing order.
   */
  ghost predicate WinningsOk(ws: seq<WinningsRow>, roster: seq<Participant>, nextId: int) {
    && (forall i :: 0 <= i < |ws| ==> HasRosterRow(roster, ws[i].tournamentId, ws[i].userId))
    && (forall i :: 0 <= i < |ws| ==> ws[i].id < nextId)
    && (forall i, j :: 0 <= i < j < |ws| ==> ws[i].id < ws[j].id)
    && AtMostOneKill(ws)
  }

  /** The foreign key of history. */
  ghost predicate HistoryRefs(h: seq<HistoryEntry>, users: map<int, User>) {
    forall i :: 0 <= i < |h| ==> h[i].userId in users
  }

  /** Every balance is its opening balance plus the signed amounts of the user's history. */
  ghost predicate Balanced(users: map<int, User>, h: seq<HistoryEntry>, opening: map<int, int>) {
    opening.Keys == users.Keys &&
    forall u :: u in users ==> users[u].balance == opening[u] + NetEffect(h, u)
  }

  /** An ended tournament that is still stored is still ended. */
  ghost predicate EndedKept(before: map<int, Tournament>, after: map<int, Tournament>) {
    forall t :: t in before && t in after && before[t].isEnded ==> after[t].isEnded
  }

  /** All the invariants of the store, over the tables' values. */
  ghost predicate Consistent(users: map<int, User>, ts: map<int, Tournament>, roster: seq<Participant>,
                             ws: seq<WinningsRow>, h: seq<HistoryEntry>, nextTournamentId: int,
                             nextWinningsId: int, opening: map<int, int>) {
    && UsersOk(users)
    && nextTournamentId >= 1
    && TournamentsOk(ts, nextTournamentId, roster)
    && RosterUnique(roster)
    && RosterRefs(roster, ts, users)
    && WinningsOk(ws, roster, nextWinningsId)
    && HistoryRefs(h, users)
    && Balanced(users, h, opening)
  }

  /**
   * Appending a history row while moving its user's balance by the row's signed amount
   * keeps the ledger balanced and the history's foreign key intact.
   */
  lemma LedgerEntryKeepsBalanced(users: map<int, User>, h: seq<HistoryEntry>, opening: map<int, int>,
                                 entry: HistoryEntry, balance: int)
    requires HistoryRefs(h, users) && Balanced(users, h, opening)
    requires entry.userId in users && balance == users[entry.userId].balance + SignedAmount(entry)
    ensures var users' := users[entry.userId := users[entry.userId].(balance := balance)];
            HistoryRefs(h + [entry], users') && Balanced(users', h + [entry], opening)
  {
    var users' := users[entry.userId := users[entry.userId].(balance := balance)];
    var h' := h + [entry];
    forall i | 0 <= i < |h'|
      ensures h'[i].userId in users'
    {
      if i < |h| {
        assert h'[i] == h[i];
      }
    }
    forall x | x in users'
      ensures users'[x].balance == opening[x] + NetEffect(h', x)
    {
      NetEffectAppend(h, entry, x);
    }
  }

  /**
   * Rewriting one stored tournament keeps every invariant when the row keeps its
   * id and participant count, meets the check constraints, and is ended only with
   * participants.
   */
  lemma ReplaceTournamentKeepsConsistent(users: map<int, User>, ts: map<int, Tournament>,
                                         roster: seq<Participant>, ws: seq<WinningsRow>,
                                         h: seq<HistoryEntry>, nextT: int, nextW: int,
                                         opening: map<int, int>, id: int, t': Tournament)
    requires Consistent(users, ts, roster, ws, h, nextT, nextW, opening)
    requires id in ts && t'.id == id && t'.currentParticipants == ts[id].currentParticipants
    requires TournamentChecks(t') && (t'.isEnded ==> t'.currentParticipants >= 1)
    ensures Consistent(users, ts[id := t'], roster, ws, h, nextT, nextW, opening)
  {
    assert RosterRefs(roster, ts[id := t'], users) by {
      forall i | 0 <= i < |roster|
        ensures roster[i].tournamentId in ts[id := t']
      {
      }
    }
  }

  class Db {
    var users: map<int, User>
    var tournaments: map<int, Tournament>
    var participants: seq<Participant>
    var winnings: seq<WinningsRow>
    var history: seq<HistoryEntry>
    /** Next value of the tournaments identity column. */
    var nextTournamentId: int
    /** Next value of the winnings identity column. */
    var nextWinningsId: int
    /** The balance each account had when the store was opened. */
    ghost var openingBalance: map<int, int>

    ghost predicate Valid()
      reads this
    {
      Consistent(users, tournaments, participants, winnings, history,
                 nextTournamentId, nextWinningsId, openingBalance)
    }

    /** A store over an existing account table, with no tournaments yet. */
    constructor (accounts: map<int, User>)
      requires UsersOk(accounts)
      ensures Valid()
      ensures users == accounts && tournaments == map[]
      ensures participants == [] && winnings == [] && history == []
      ensures nextTournamentId == 1 && nextWinningsId == 1
    {
      users := accounts;
      tournaments := map[];
      participants := [];
      winnings := [];
      history := [];
      nextTournamentId := 1;
      nextWinningsId := 1;
      openingBalance := map u | u in accounts :: accounts[u].balance;
    }
  }
}
