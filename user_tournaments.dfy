/**
 * The user side of the tournament ledger: joining a tournament (which debits the
 * entry fee), checking participation, and reading one tournament with the room
 * credentials hidden from users who neither joined nor won it.
 */
module UserTournaments {
  import opened Results
  import opened Schema
  import opened Queries
  import opened Database
  import opened Visibility
  import opened ParticipationValidation

  /** The level the join helper demands, independently of the request schema. */
  const JoinMinLevel: int := 30

  /** The tournament is stored, not ended, and scheduled strictly after `now`. */
  predicate OpenForJoining(ts: map<int, Tournament>, tid: int, now: int) {
    tid in ts && !ts[tid].isEnded && ts[tid].scheduledAt > now
  }

  /**
   * The error a join reports, checks taken in the helper's order, or None when
   * every check passes.
   */
  function JoinCheck(ts: map<int, Tournament>, roster: seq<Participant>, users: map<int, User>,
                     tid: int, uid: int, playerLevel: int, now: int): Option<Error>
  {
    if !OpenForJoining(ts, tid, now) then Some(TournamentNotFound)
    else if HasRosterRow(roster, tid, uid) then Some(AlreadyParticipated)
    else if RosterCount(roster, tid) >= ts[tid].maxParticipants then Some(TournamentFull)
    else if uid !in users then Some(UserNotFound)
    else if users[uid].balance < ts[tid].entryFee then Some(InsufficientBalance)
    else if playerLevel < JoinMinLevel then Some(LevelTooLow)
    else None
  }

  /** The history row a join appends. */
  function EntryFeeRow(tid: int, uid: int, t: Tournament, now: int): (e: HistoryEntry)
    ensures e.userId == uid && e.referenceId == Some(tid)
    ensures e.transactionType == TournamentEntry && e.balanceEffect == Decrease
    ensures e.amount == t.entryFee && e.status == "completed"
    ensures SignedAmount(e) == -t.entryFee
  {
    HistoryEntry(uid, TournamentEntry, t.entryFee, Decrease, "completed",
                 "Entry fee paid for tournament: " + t.name, Some(tid), now)
  }

  /** `participateInTournament`. */
  method ParticipateInTournament(db: Db, tournamentId: int, userId: int, playerUsername: string,
                                 playerUserId: string, playerLevel: int, now: int)
    returns (r: Result<Tournament>)
    requires db.Valid()
    modifies db
    ensures db.Valid()
    ensures EndedKept(old(db.tournaments), db.tournaments)
    // on any failure the error is the first failing check, and nothing changes
    ensures var e := JoinCheck(old(db.tournaments), old(db.participants), old(db.users),
                               tournamentId, userId, playerLevel, now);
            (e.Some? ==> r == Failure(e.value) && unchanged(db)) && (e.None? ==> r.Success?)
    ensures r.Success? ==>
              var t := old(db.tournaments[tournamentId]);
              var u := old(db.users[userId]);
              // the joiner pays exactly the entry fee, and keeps a non-negative balance
              && db.users == old(db.users)[userId := u.(balance := u.balance - t.entryFee)]
              && 0 <= db.users[userId].balance == u.balance - t.entryFee
              // one history row, one roster row, one more participant
              && db.history == old(db.history) + [EntryFeeRow(tournamentId, userId, t, now)]
              && db.participants == old(db.participants) +
                   [Participant(tournamentId, userId, playerUsername, playerUserId, playerLevel, now)]
              && db.tournaments == old(db.tournaments)[tournamentId := t.(currentParticipants := t.currentParticipants + 1)]
              && db.tournaments[tournamentId].currentParticipants == RosterCount(db.participants, tournamentId)
              && db.tournaments[tournamentId].currentParticipants <= t.maxParticipants
              && db.winnings == old(db.winnings)
              && db.nextTournamentId == old(db.nextTournamentId)
              && db.nextWinningsId == old(db.nextWinningsId)
              && r.value == db.tournaments[tournamentId]
  {
    // 1.-4. the eligibility checks, in the helper's order
    var err := JoinCheck(db.tournaments, db.participants, db.users, tournamentId, userId, playerLevel, now);
    if err.Some? {
      return Failure(err.value);
    }
    var t := db.tournaments[tournamentId];
    var count := RosterCount(db.participants, tournamentId);
    var user := db.users[userId];

    ghost var users0, ts0, roster0, history0 := db.users, db.tournaments, db.participants, db.history;
    // 5. debit the entry fee
    db.users := db.users[userId := user.(balance := user.balance - t.entryFee)];
    // 6. record it
    var entry := EntryFeeRow(tournamentId, userId, t, now);
    db.history := db.history + [entry];
    // 7. add the roster row
    var row := Participant(tournamentId, userId, playerUsername, playerUserId, playerLevel, now);
    db.participants := db.participants + [row];
    // 8. count the new participant
    db.tournaments := db.tournaments[tournamentId := t.(currentParticipants := count + 1)];
    r := Success(db.tournaments[tournamentId]);

    JoinKeepsConsistent(users0, ts0, roster0, db.winnings, history0, db.nextTournamentId,
                        db.nextWinningsId, db.openingBalance, tournamentId, userId, row, now);
  }

  /** A join that passes every check keeps every invariant. */
  lemma JoinKeepsConsistent(users: map<int, User>, ts: map<int, Tournament>, roster: seq<Participant>,
                            ws: seq<WinningsRow>, h: seq<HistoryEntry>, nextT: int, nextW: int,
                            opening: map<int, int>, tid: int, uid: int, row: Participant, now: int)
    requires Consistent(users, ts, roster, ws, h, nextT, nextW, opening)
    requires JoinCheck(ts, roster, users, tid, uid, row.playerLevel, now) == None
    requires row.tournamentId == tid && row.userId == uid
    ensures var t := ts[tid];
            var u := users[uid];
            Consistent(users[uid := u.(balance := u.balance - t.entryFee)],
                       ts[tid := t.(currentParticipants := RosterCount(roster, tid) + 1)],
                       roster + [row], ws, h + [EntryFeeRow(tid, uid, t, now)], nextT, nextW, opening)
  {
    var t := ts[tid];
    var u := users[uid];
    var users' := users[uid := u.(balance := u.balance - t.entryFee)];
    var ts' := ts[tid := t.(currentParticipants := RosterCount(roster, tid) + 1)];
    var roster' := roster + [row];
    var entry := EntryFeeRow(tid, uid, t, now);
    var h' := h + [entry];

    assert UsersOk(users');
    forall x | x in ts'
      ensures ts'[x].currentParticipants == RosterCount(roster', x)
    {
      RosterCountAppend(roster, row, x);
    }
    assert TournamentsOk(ts', nextT, roster');
    assert RosterUnique(roster') by {
      forall i, j | 0 <= i < j < |roster'|
        ensures roster'[i].tournamentId != roster'[j].tournamentId || roster'[i].userId != roster'[j].userId
      {
        if j == |roster| {
          assert roster'[i] == roster[i];
        } else {
          assert roster'[i] == roster[i] && roster'[j] == roster[j];
        }
      }
    }
    assert RosterRefs(roster', ts', users') by {
      forall i | 0 <= i < |roster'|
        ensures roster'[i].tournamentId in ts' && roster'[i].userId in users'
      {
        if i < |roster| {
          assert roster'[i] == roster[i];
        }
      }
    }
    assert WinningsOk(ws, roster', nextW) by {
      forall i | 0 <= i < |ws|
        ensures HasRosterRow(roster', ws[i].tournamentId, ws[i].userId)
      {
        HasRosterRowAppend(roster, row, ws[i].tournamentId, ws[i].userId);
      }
    }
    LedgerEntryKeepsBalanced(users, h, opening, entry, u.balance - t.entryFee);
  }

  /** A join request the schema accepted never fails on the player level. */
  lemma ValidatedJoinPassesLevelCheck(input: ParticipationInput, ts: map<int, Tournament>,
                                      roster: seq<Participant>, users: map<int, User>,
                                      tid: int, uid: int, now: int)
    requires ParticipationValid(input)
    ensures JoinCheck(ts, roster, users, tid, uid, input.playerLevel, now) != Some(LevelTooLow)
  {
  }

  /** `isUserParticipatedInTournament`. */
  function IsUserParticipatedInTournament(db: Db, tournamentId: int, userId: int): (b: bool)
    reads db
    // the answer is whether the roster holds a row for the pair
    ensures b <==> HasRosterRow(db.participants, tournamentId, userId)
    // a participant is a stored user of a stored tournament whose count is positive
    ensures db.Valid() && b ==>
              && tournamentId in db.tournaments && userId in db.users
              && db.tournaments[tournamentId].currentParticipants >= 1
    // an empty tournament has no participant
    ensures (db.Valid() && tournamentId in db.tournaments &&
             db.tournaments[tournamentId].currentParticipants == 0) ==> !b
  {
    var b := HasRosterRow(db.participants, tournamentId, userId);
    if b then RosterRowCounts(db.participants, tournamentId, userId); b else b
  }

  /** The object `getTournamentById` returns. */
  datatype TournamentDetails = TournamentDetails(
    tournament: Value,
    winners: Option<seq<WinningsRow>>,
    hasParticipated: bool,
    isWinner: bool,
    message: Option<string>)

  /** `getTournamentById`: one tournament as `userId` may see it. */
  method GetTournamentById(db: Db, userId: int, id: int) returns (r: Result<TournamentDetails>)
    ensures id <= 0 ==> r == Failure(InvalidTournamentId)
    ensures id > 0 && id !in db.tournaments ==> r == Failure(TournamentNotFound)
    ensures id > 0 && id in db.tournaments ==>
              && r.Success?
              && r.value.hasParticipated == HasRosterRow(db.participants, id, userId)
              // any winnings row, a kill reward included, makes the user a winner here
              && r.value.isWinner == HasWinningsRow(db.winnings, id, userId)
              && r.value.tournament == Sanitize(RowValue(db.tournaments[id]), r.value.hasParticipated, r.value.isWinner)
              && (db.tournaments[id].isEnded ==>
                    r.value.winners == Some(WinningsOf(db.winnings, id)) && r.value.message.None?)
              && (!db.tournaments[id].isEnded ==>
                    r.value.winners.None? && r.value.message == Some("Tournament is still ongoing"))
    // room credentials reach only participants and winners
    ensures r.Success? && !r.value.hasParticipated && !r.value.isWinner ==>
              r.value.tournament.Obj? && "roomId" !in r.value.tournament.fields &&
              "roomPassword" !in r.value.tournament.fields
    ensures r.Success? && (r.value.hasParticipated || r.value.isWinner) ==>
              r.value.tournament == RowValue(db.tournaments[id])
  {
    if id <= 0 {
      return Failure(InvalidTournamentId);
    }
    if id !in db.tournaments {
      return Failure(TournamentNotFound);
    }
    var t := db.tournaments[id];
    var hasParticipated := HasRosterRow(db.participants, id, userId);
    var isWinner := HasWinningsRow(db.winnings, id, userId);
    RowVisibility(t, hasParticipated, isWinner);
    var shown := Sanitize(RowValue(t), hasParticipated, isWinner);
    if t.isEnded {
      var winners := WinningsOf(db.winnings, id);
      r := Success(TournamentDetails(shown, Some(winners), hasParticipated, isWinner, None));
    } else {
      r := Success(TournamentDetails(shown, None, hasParticipated, isWinner, Some("Tournament is still ongoing")));
    }
  }
}
