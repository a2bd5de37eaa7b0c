/**
 * Sequences of ledger operations and what they add up to: a full tournament turns
 * the next joiner away, a kill reward is paid once, ending is one-way, and a kill
 * reward that becomes tournament winnings is not paid a second time.
 */
module Scenarios {
  import opened Results
  import opened Schema
  import opened Queries
  import opened Database
  import opened TournamentValidation
  import opened UserTournaments
  import opened AdminTournaments

  /**
   * Two users with 100 each; admin 9 creates a one-seat tournament with entry fee
   * 20. The first join takes the seat and 20 from the joiner; the second is refused.
   */
  method OneSeatTournament() returns (first: Result<Tournament>, second: Result<Tournament>,
                                      firstBalance: int, secondBalance: int)
    ensures first.Success? && first.value.currentParticipants == 1
    ensures second == Failure(TournamentFull)
    ensures firstBalance == 80 && secondBalance == 100
  {
    var db := new Db(map[1 := User(1, "ana", 100), 2 := User(2, "ben", 100)]);
    var created := CreateTournament(db, 9, TournamentData("BGMI", "Cup", None, "0", None, 20, 50, 5, 1, 100));
    assert created == Success(1);
    assert JoinCheck(db.tournaments, db.participants, db.users, 1, 1, 40, 0) == None;
    first := ParticipateInTournament(db, 1, 1, "ana", "ana-1", 40, 0);
    assert RosterCount(db.participants, 1) == 1 && !HasRosterRow(db.participants, 1, 2);
    second := ParticipateInTournament(db, 1, 2, "ben", "ben-1", 40, 0);
    firstBalance, secondBalance := db.users[1].balance, db.users[2].balance;
  }

  /** Awarding the same participant twice pays once: the second call is refused. */
  method AwardTwice(db: Db, adminId: int, tid: int, uid: int, kills: int, moreKills: int, now: int)
    returns (first: Result<int>, second: Result<int>)
    requires db.Valid() && moreKills >= 0
    modifies db
    ensures db.Valid()
    ensures first.Success? ==> second == Failure(KillRewardExists)
    ensures first.Success? ==>
              uid in old(db.users) && uid in db.users &&
              db.users[uid].balance == old(db.users[uid].balance) + first.value
  {
    first := AwardKillMoney(db, adminId, tid, uid, kills, now);
    second := AwardKillMoney(db, adminId, tid, uid, moreKills, now);
  }

  /** Ending a tournament a second time is refused, whoever is named winner. */
  method EndTwice(db: Db, adminId: int, id: int, uid: int, otherUid: int)
    returns (first: Result<Tournament>, second: Result<Tournament>)
    requires db.Valid() && otherUid > 0
    modifies db
    ensures db.Valid()
    ensures first.Success? ==> second == Failure(NotFoundOrEnded)
    ensures first.Success? ==> id in db.tournaments && db.tournaments[id].isEnded
  {
    first := EndTournament(db, adminId, id, uid);
    second := EndTournament(db, adminId, id, otherUid);
  }

  /** Once ended, a tournament takes no kill reward. */
  method EndThenAward(db: Db, adminId: int, id: int, uid: int, kills: int, now: int)
    returns (ended: Result<Tournament>, award: Result<int>)
    requires db.Valid() && kills >= 0
    modifies db
    ensures db.Valid()
    ensures ended.Success? ==> award == Failure(KillAfterEnd)
  {
    ended := EndTournament(db, adminId, id, uid);
    award := AwardKillMoney(db, adminId, id, uid, kills, now);
  }

  /** Once ended, a tournament takes no edit, whatever the edit sets. */
  method EndThenEdit(db: Db, adminId: int, id: int, uid: int, edit: EditInput)
    returns (ended: Result<Tournament>, edited: Result<Tournament>)
    requires db.Valid()
    modifies db
    ensures db.Valid()
    ensures ended.Success? ==> edited == Failure(CannotEditEnded)
  {
    ended := EndTournament(db, adminId, id, uid);
    edited := EditTournament(db, adminId, id, edit);
  }

  /**
   * A kill reward followed by naming the same participant winner: the reward is
   * paid once, and afterwards it is recorded as tournament winnings, not as a kill.
   */
  method KillRewardThenWin(db: Db, adminId: int, tid: int, uid: int, kills: int, now: int)
    returns (award: Result<int>, ended: Result<Tournament>)
    requires db.Valid()
    modifies db
    ensures db.Valid()
    ensures award.Success? ==> ended.Success?
    ensures award.Success? ==>
              && uid in old(db.users) && uid in db.users
              && db.users[uid].balance == old(db.users[uid].balance) + award.value
              && !KillRowExists(db.winnings, tid, uid)
              && |db.winnings| == |old(db.winnings)| + 1
              && db.winnings[|db.winnings| - 1].kind == Winnings
              && db.winnings[|db.winnings| - 1].amount == award.value
              // and its history row is now recorded as tournament winnings
              && |db.history| == |old(db.history)| + 1
              && db.history[|db.history| - 1].transactionType == TournamentWinnings
              && db.history[|db.history| - 1].amount == award.value
  {
    award := AwardKillMoney(db, adminId, tid, uid, kills, now);
    ghost var ws, h := db.winnings, db.history;
    ended := EndTournament(db, adminId, tid, uid);
    if award.Success? {
      assert IsKillOf(ws[|ws| - 1], tid, uid);
      assert IsKillRewardOf(h[|h| - 1], tid, uid);
    }
  }
}
