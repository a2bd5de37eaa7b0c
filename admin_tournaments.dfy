/**
 * The admin side of the tournament ledger: creating a tournament, setting its room,
 * crediting kill rewards, ending it with a winner, editing and deleting it, and the
 * listings of an admin's own tournaments.
 *
 * Every method takes the caller's admin id; a tournament another admin created is
 * treated as absent, as the helpers' `where adminId = ...` clauses do.
 */
module AdminTournaments {
  import opened Results
  import opened Schema
  import opened Queries
  import opened Database
  import opened TournamentValidation

  /** The tournament is stored and belongs to the admin. */
  predicate Owned(ts: map<int, Tournament>, adminId: int, id: int) {
    id in ts && ts[id].adminId == adminId
  }

  /** JavaScript truthiness of an optional string: present and non-empty. */
  predicate Supplied(o: Option<string>) {
    o.Some? && |o.value| > 0
  }

  // ---------------------------------------------------------------------------
  // createTournament

  /** `s || null`. */
  function OrNull(o: Option<string>): Option<string> {
    if Supplied(o) then o else None
  }

  /** The row the insert of `createTournament` stores under identity value `id`. */
  function CreatedRow(id: int, adminId: int, d: TournamentData): (t: Tournament)
    ensures t.id == id && t.adminId == adminId && t.currentParticipants == 0 && !t.isEnded
    ensures t.game == d.game && t.name == d.name && t.roomId == Some(d.roomId)
    ensures t.description == OrNull(d.description) && t.roomPassword == OrNull(d.roomPassword)
    ensures t.entryFee == d.entryFee && t.prize == d.prize && t.perKillPrize == d.perKillPrize
    ensures t.maxParticipants == d.maxParticipants && t.scheduledAt == d.scheduledAt
    ensures TournamentChecks(t) <==>
              d.entryFee >= 0 && d.prize >= 0 && d.perKillPrize >= 0 && d.maxParticipants >= 0
  {
    NewTournamentRow(id, adminId, d.game, d.name, OrNull(d.description), Some(d.roomId),
                     OrNull(d.roomPassword), d.entryFee, d.prize, d.perKillPrize,
                     d.maxParticipants, d.scheduledAt)
  }

  /** `createTournament`: insert the row and return the id the identity column gave it. */
  method CreateTournament(db: Db, adminId: int, data: TournamentData) returns (r: Result<int>)
    requires db.Valid()
    modifies db
    ensures db.Valid()
    ensures EndedKept(old(db.tournaments), db.tournaments)
    ensures var row := CreatedRow(old(db.nextTournamentId), adminId, data);
            // a refused insert stores nothing but still consumes the identity value
            && (!TournamentChecks(row) ==>
                  && r == Failure(CheckViolation)
                  && db.nextTournamentId == old(db.nextTournamentId) + 1
                  && db.tournaments == old(db.tournaments)
                  && db.users == old(db.users) && db.participants == old(db.participants)
                  && db.winnings == old(db.winnings) && db.history == old(db.history)
                  && db.nextWinningsId == old(db.nextWinningsId))
            && (TournamentChecks(row) ==>
                  && r == Success(old(db.nextTournamentId))
                  && old(db.nextTournamentId) !in old(db.tournaments)
                  && db.tournaments == old(db.tournaments)[old(db.nextTournamentId) := row]
                  && db.nextTournamentId == old(db.nextTournamentId) + 1
                  && db.users == old(db.users) && db.participants == old(db.participants)
                  && db.winnings == old(db.winnings) && db.history == old(db.history)
                  && db.nextWinningsId == old(db.nextWinningsId))
  {
    var id := db.nextTournamentId;
    var row := CreatedRow(id, adminId, data);
    if !TournamentChecks(row) {
      db.nextTournamentId := id + 1;
      return Failure(CheckViolation);
    }
    CreateKeepsConsistent(db.users, db.tournaments, db.participants, db.winnings, db.history,
                          db.nextTournamentId, db.nextWinningsId, db.openingBalance, row);
    db.tournaments := db.tournaments[id := row];
    db.nextTournamentId := id + 1;
    r := Success(id);
  }

  lemma CreateKeepsConsistent(users: map<int, User>, ts: map<int, Tournament>, roster: seq<Participant>,
                              ws: seq<WinningsRow>, h: seq<HistoryEntry>, nextT: int, nextW: int,
                              opening: map<int, int>, row: Tournament)
    requires Consistent(users, ts, roster, ws, h, nextT, nextW, opening)
    requires row.id == nextT && row.currentParticipants == 0 && !row.isEnded && TournamentChecks(row)
    ensures nextT !in ts
    ensures Consistent(users, ts[nextT := row], roster, ws, h, nextT + 1, nextW, opening)
  {
    assert !InRoster(roster, nextT) by {
      forall i | 0 <= i < |roster|
        ensures roster[i].tournamentId != nextT
      {
        assert roster[i].tournamentId in ts;
      }
    }
    assert RosterRefs(roster, ts[nextT := row], users) by {
      forall i | 0 <= i < |roster|
        ensures roster[i].tournamentId in ts[nextT := row]
      {
      }
    }
  }

  /** A creation request the schema accepted is stored: no check constraint rejects it. */
  lemma ValidatedCreationIsStored(raw: TournamentInput, now: int, id: int, adminId: int)
    requires ParseTournament(raw, now).Some?
    ensures var row := CreatedRow(id, adminId, ParseTournament(raw, now).value);
            && TournamentChecks(row)
            && row.maxParticipants > 0 && row.scheduledAt > now
            && row.roomId.Some? && IsNumericString(row.roomId.value)
            && (raw.roomId.None? ==> row.roomId == Some(DefaultRoomId))
  {
  }

  // ---------------------------------------------------------------------------
  // updateTournamentRoomId

  /** The row with the new room id, and the new password when one is supplied. */
  function WithRoom(t: Tournament, data: RoomUpdateInput): Tournament {
    t.(roomId := Some(data.roomId), roomPassword := if Supplied(data.roomPassword) then data.roomPassword else t.roomPassword)
  }

  /**
   * `updateTournamentRoomId`. A tournament that is absent or owned by another admin
   * is left alone and the helper returns nothing (`tournament[0]` of an empty select).
   */
  method UpdateTournamentRoomId(db: Db, adminId: int, id: int, data: RoomUpdateInput)
    returns (r: Result<Option<Tournament>>)
    requires db.Valid()
    modifies db
    ensures db.Valid()
    ensures EndedKept(old(db.tournaments), db.tournaments)
    ensures id <= 0 ==> r == Failure(InvalidTournamentId) && unchanged(db)
    ensures id > 0 && !Owned(old(db.tournaments), adminId, id) ==> r == Success(None) && unchanged(db)
    ensures id > 0 && Owned(old(db.tournaments), adminId, id) ==>
              && db.tournaments == old(db.tournaments)[id := WithRoom(old(db.tournaments[id]), data)]
              // the room id is replaced, the password only when a non-empty one is given
              && db.tournaments[id].roomId == Some(data.roomId)
              && db.tournaments[id].roomPassword ==
                   (if Supplied(data.roomPassword) then data.roomPassword else old(db.tournaments[id].roomPassword))
              && db.tournaments[id] == old(db.tournaments[id]).(roomId := Some(data.roomId),
                                                                 roomPassword := db.tournaments[id].roomPassword)
              && r == Success(Some(db.tournaments[id]))
              && db.users == old(db.users) && db.participants == old(db.participants)
              && db.winnings == old(db.winnings) && db.history == old(db.history)
              && db.nextTournamentId == old(db.nextTournamentId)
              && db.nextWinningsId == old(db.nextWinningsId)
  {
    if id <= 0 {
      return Failure(InvalidTournamentId);
    }
    if !Owned(db.tournaments, adminId, id) {
      return Success(None);
    }
    var t := WithRoom(db.tournaments[id], data);
    ReplaceTournamentKeepsConsistent(db.users, db.tournaments, db.participants, db.winnings, db.history,
                                     db.nextTournamentId, db.nextWinningsId, db.openingBalance, id, t);
    db.tournaments := db.tournaments[id := t];
    r := Success(Some(t));
  }

  /**
   * A room update the request schema accepted stores a numeric room id and a bounded
   * password, and keeps the row within its check constraints.
   */
  lemma ValidatedRoomUpdateIsStored(t: Tournament, data: RoomUpdateInput)
    requires RoomUpdateValid(data) && TournamentChecks(t)
    requires t.roomPassword.Some? ==> |t.roomPassword.value| <= MaxTextLength
    ensures var u := WithRoom(t, data);
            && u.roomId.Some? && IsNumericString(u.roomId.value)
            && (u.roomPassword.Some? ==> |u.roomPassword.value| <= MaxTextLength)
            && TournamentChecks(u)
  {
  }

  // ---------------------------------------------------------------------------
  // awardKillMoney

  /** The error `awardKillMoney` reports, checks taken in the helper's order, or None. */
  function AwardCheck(ts: map<int, Tournament>, roster: seq<Participant>, users: map<int, User>,
                      ws: seq<WinningsRow>, adminId: int, tid: int, uid: int, kills: int): Option<Error>
  {
    if tid <= 0 then Some(InvalidTournamentId)
    else if uid <= 0 then Some(InvalidUserId)
    else if kills < 0 then Some(InvalidKillCount)
    else if !Owned(ts, adminId, tid) then Some(NotFoundForAdmin)
    else if ts[tid].isEnded then Some(KillAfterEnd)
    else if !(HasRosterRow(roster, tid, uid) && uid in users) then Some(NotAParticipant)
    else if KillRowExists(ws, tid, uid) then Some(KillRewardExists)
    else None
  }

  /** The history row a kill reward appends. */
  function KillRewardEntry(tid: int, uid: int, kills: nat, t: Tournament, now: int): (e: HistoryEntry)
    requires t.perKillPrize >= 0
    ensures e.userId == uid && e.referenceId == Some(tid)
    ensures e.transactionType == KillReward && e.balanceEffect == Increase && e.status == "completed"
    ensures e.amount == t.perKillPrize * kills >= 0 && SignedAmount(e) == e.amount
  {
    var reward := t.perKillPrize * kills;
    HistoryEntry(uid, KillReward, reward, Increase, "completed",
                 "Kill reward: " + DecimalString(kills) + " kills in " + t.name +
                 " - Reward: " + DecimalString(reward), Some(tid), now)
  }

  /** `awardKillMoney`: credit `perKillPrize * kills` once per participant and tournament. */
  method AwardKillMoney(db: Db, adminId: int, tournamentId: int, userId: int, kills: int, now: int)
    returns (r: Result<int>)
    requires db.Valid()
    modifies db
    ensures db.Valid()
    ensures EndedKept(old(db.tournaments), db.tournaments)
    // on any failure the error is the first failing check, and nothing changes
    ensures var e := AwardCheck(old(db.tournaments), old(db.participants), old(db.users), old(db.winnings),
                                adminId, tournamentId, userId, kills);
            (e.Some? ==> r == Failure(e.value) && unchanged(db)) && (e.None? ==> r.Success?)
    ensures r.Success? ==>
              var t := old(db.tournaments[tournamentId]);
              var u := old(db.users[userId]);
              var reward := t.perKillPrize * kills;
              && r.value == reward >= 0
              // one kill row of the reward, one history row, the balance raised by the reward
              && db.winnings == old(db.winnings) +
                   [WinningsRow(old(db.nextWinningsId), userId, tournamentId, reward, Kill, now)]
              && db.nextWinningsId == old(db.nextWinningsId) + 1
              && db.history == old(db.history) + [KillRewardEntry(tournamentId, userId, kills, t, now)]
              && db.users == old(db.users)[userId := u.(balance := u.balance + reward)]
              && db.tournaments == old(db.tournaments) && db.participants == old(db.participants)
              && db.nextTournamentId == old(db.nextTournamentId)
              // so the same pair now has its kill reward
              && KillRowExists(db.winnings, tournamentId, userId)
  {
    if tournamentId <= 0 {
      return Failure(InvalidTournamentId);
    }
    if userId <= 0 {
      return Failure(InvalidUserId);
    }
    if kills < 0 {
      return Failure(InvalidKillCount);
    }
    if !Owned(db.tournaments, adminId, tournamentId) {
      return Failure(NotFoundForAdmin);
    }
    var t := db.tournaments[tournamentId];
    if t.isEnded {
      return Failure(KillAfterEnd);
    }
    var killReward := t.perKillPrize * kills;
    if !(HasRosterRow(db.participants, tournamentId, userId) && userId in db.users) {
      return Failure(NotAParticipant);
    }
    var user := db.users[userId];
    if KillRowExists(db.winnings, tournamentId, userId) {
      return Failure(KillRewardExists);
    }

    var row := WinningsRow(db.nextWinningsId, userId, tournamentId, killReward, Kill, now);
    var entry := KillRewardEntry(tournamentId, userId, kills, t, now);
    AwardKeepsConsistent(db.users, db.tournaments, db.participants, db.winnings, db.history,
                         db.nextTournamentId, db.nextWinningsId, db.openingBalance, row, entry);
    db.winnings := db.winnings + [row];
    db.nextWinningsId := db.nextWinningsId + 1;
    db.history := db.history + [entry];
    db.users := db.users[userId := user.(balance := user.balance + killReward)];
    assert db.winnings[|db.winnings| - 1] == row;
    r := Success(killReward);
  }

  /** A kill reward that passed every check keeps every invariant. */
  lemma AwardKeepsConsistent(users: map<int, User>, ts: map<int, Tournament>, roster: seq<Participant>,
                             ws: seq<WinningsRow>, h: seq<HistoryEntry>, nextT: int, nextW: int,
                             opening: map<int, int>, row: WinningsRow, entry: HistoryEntry)
    requires Consistent(users, ts, roster, ws, h, nextT, nextW, opening)
    requires row.id == nextW && row.kind == Kill && row.amount >= 0
    requires HasRosterRow(roster, row.tournamentId, row.userId) && row.userId in users
    requires !KillRowExists(ws, row.tournamentId, row.userId)
    requires entry.userId == row.userId && SignedAmount(entry) == row.amount
    ensures var u := users[row.userId];
            Consistent(users[row.userId := u.(balance := u.balance + row.amount)], ts, roster,
                       ws + [row], h + [entry], nextT, nextW + 1, opening)
  {
    var uid := row.userId;
    var u := users[uid];
    var users' := users[uid := u.(balance := u.balance + row.amount)];
    var ws' := ws + [row];
    var h' := h + [entry];
    assert RosterRefs(roster, ts, users') by {
      forall i | 0 <= i < |roster|
        ensures roster[i].userId in users'
      {
      }
    }
    assert WinningsOk(ws', roster, nextW + 1) by {
      forall i | 0 <= i < |ws'|
        ensures HasRosterRow(roster, ws'[i].tournamentId, ws'[i].userId) && ws'[i].id < nextW + 1
      {
        if i < |ws| {
          assert ws'[i] == ws[i];
        }
      }
      forall i, j | 0 <= i < j < |ws'|
        ensures ws'[i].id < ws'[j].id
      {
        assert ws'[i] == ws[i];
        if j < |ws| {
          assert ws'[j] == ws[j];
        }
      }
      forall i, j | 0 <= i < j < |ws'| && ws'[i].kind == Kill && ws'[j].kind == Kill
        ensures ws'[i].tournamentId != ws'[j].tournamentId || ws'[i].userId != ws'[j].userId
      {
        assert ws'[i] == ws[i];
        if j < |ws| {
          assert ws'[j] == ws[j];
        } else {
          assert !IsKillOf(ws[i], row.tournamentId, row.userId);
        }
      }
    }
    LedgerEntryKeepsBalanced(users, h, opening, entry, u.balance + row.amount);
  }

  /** A kill request the schema accepted never fails on the user id or the kill count. */
  lemma ValidatedKillInputPassesInputChecks(input: KillInput, ts: map<int, Tournament>,
                                            roster: seq<Participant>, users: map<int, User>,
                                            ws: seq<WinningsRow>, adminId: int, tid: int)
    requires KillInputValid(input)
    ensures var e := AwardCheck(ts, roster, users, ws, adminId, tid, input.userId, input.kills);
            e != Some(InvalidUserId) && e != Some(InvalidKillCount)
  {
  }

  // ---------------------------------------------------------------------------
  // endTournament

  /** The error `endTournament` reports, checks taken in the helper's order, or None. */
  function EndCheck(ts: map<int, Tournament>, roster: seq<Participant>, users: map<int, User>,
                    adminId: int, id: int, uid: int): Option<Error>
  {
    if id <= 0 then Some(InvalidTournamentId)
    else if uid <= 0 then Some(InvalidUserId)
    else if !(Owned(ts, adminId, id) && !ts[id].isEnded) then Some(NotFoundOrEnded)
    else if !(HasRosterRow(roster, id, uid) && uid in users) then Some(NotAParticipant)
    else None
  }

  /** Under `AtMostOneKill`, a kill row of a pair is the pair's only one. */
  lemma OnlyKillRow(ws: seq<WinningsRow>, tid: int, uid: int, k: nat)
    requires AtMostOneKill(ws) && k < |ws| && IsKillOf(ws[k], tid, uid)
    ensures forall i :: 0 <= i < |ws| && i != k ==> !IsKillOf(ws[i], tid, uid)
  {
    forall i | 0 <= i < |ws| && i != k
      ensures !IsKillOf(ws[i], tid, uid)
    {
      if i < k {
        assert ws[i].kind == Kill && ws[k].kind == Kill ==>
               ws[i].tournamentId != ws[k].tournamentId || ws[i].userId != ws[k].userId;
      } else {
        assert ws[k].kind == Kill && ws[i].kind == Kill ==>
               ws[k].tournamentId != ws[i].tournamentId || ws[k].userId != ws[i].userId;
      }
    }
  }

  /** After the promotion, the pair has no `kill` row left. */
  lemma PromotedKillLeavesNoKill(ws: seq<WinningsRow>, tid: int, uid: int)
    ensures !KillRowExists(PromotedKill(ws, tid, uid), tid, uid)
  {
    var p := PromotedKill(ws, tid, uid);
    forall i | 0 <= i < |p|
      ensures !IsKillOf(p[i], tid, uid)
    {
    }
  }

  /**
   * Reclassifying a pair's kill reward as tournament winnings keeps every invariant;
   * in particular no balance moves.
   */
  lemma PromotionKeepsConsistent(users: map<int, User>, ts: map<int, Tournament>, roster: seq<Participant>,
                                 ws: seq<WinningsRow>, h: seq<HistoryEntry>, nextT: int, nextW: int,
                                 opening: map<int, int>, tid: int, uid: int)
    requires Consistent(users, ts, roster, ws, h, nextT, nextW, opening)
    ensures Consistent(users, ts, roster, PromotedKill(ws, tid, uid), ReclassifyKillHistory(h, tid, uid),
                       nextT, nextW, opening)
  {
    var ws' := PromotedKill(ws, tid, uid);
    var h' := ReclassifyKillHistory(h, tid, uid);
    assert WinningsOk(ws', roster, nextW) by {
      forall i | 0 <= i < |ws'|
        ensures HasRosterRow(roster, ws'[i].tournamentId, ws'[i].userId) && ws'[i].id < nextW
      {
        assert ws'[i].tournamentId == ws[i].tournamentId && ws'[i].userId == ws[i].userId;
      }
      forall i, j | 0 <= i < j < |ws'|
        ensures ws'[i].id < ws'[j].id
      {
        assert ws'[i].id == ws[i].id && ws'[j].id == ws[j].id;
      }
      forall i, j | 0 <= i < j < |ws'| && ws'[i].kind == Kill && ws'[j].kind == Kill
        ensures ws'[i].tournamentId != ws'[j].tournamentId || ws'[i].userId != ws'[j].userId
      {
        assert ws'[i] == ws[i] && ws'[j] == ws[j];
      }
    }
    assert HistoryRefs(h', users) by {
      forall i | 0 <= i < |h'|
        ensures h'[i].userId in users
      {
        assert h'[i].userId == h[i].userId;
      }
    }
    assert Balanced(users, h', opening) by {
      forall x | x in users
        ensures users[x].balance == opening[x] + NetEffect(h', x)
      {
        ReclassifyKeepsNetEffect(h, tid, uid, x);
      }
    }
  }

  /**
   * `endTournament`: mark the tournament ended; a kill reward the winner holds is
   * reclassified as tournament winnings, with no new row and no balance change.
   */
  method EndTournament(db: Db, adminId: int, id: int, userId: int) returns (r: Result<Tournament>)
    requires db.Valid()
    modifies db
    ensures db.Valid()
    ensures EndedKept(old(db.tournaments), db.tournaments)
    ensures var e := EndCheck(old(db.tournaments), old(db.participants), old(db.users), adminId, id, userId);
            (e.Some? ==> r == Failure(e.value) && unchanged(db)) && (e.None? ==> r.Success?)
    ensures r.Success? ==>
              && db.tournaments == old(db.tournaments)[id := old(db.tournaments[id]).(isEnded := true)]
              && r.value == db.tournaments[id]
              // no balance, roster row or counter changes, and no row is added
              && db.users == old(db.users) && db.participants == old(db.participants)
              && db.nextTournamentId == old(db.nextTournamentId)
              && db.nextWinningsId == old(db.nextWinningsId)
              && |db.winnings| == |old(db.winnings)| && |db.history| == |old(db.history)|
              // a kill reward the winner holds becomes tournament winnings, in place
              && db.winnings == WinningsAfterEnd(old(db.winnings), id, userId)
              && db.history == HistoryAfterEnd(old(db.winnings), old(db.history), id, userId)
              && !KillRowExists(db.winnings, id, userId)
  {
    if id <= 0 {
      return Failure(InvalidTournamentId);
    }
    if userId <= 0 {
      return Failure(InvalidUserId);
    }
    if !(Owned(db.tournaments, adminId, id) && !db.tournaments[id].isEnded) {
      return Failure(NotFoundOrEnded);
    }
    if !(HasRosterRow(db.participants, id, userId) && userId in db.users) {
      return Failure(NotAParticipant);
    }

    // reclassify the winner's kill reward row, if any, and its history rows
    var tables := WinnerTables(db.winnings, db.history, id, userId);
    var t := db.tournaments[id].(isEnded := true);
    EndKeepsConsistent(db.users, db.tournaments, db.participants, db.winnings, db.history,
                       db.nextTournamentId, db.nextWinningsId, db.openingBalance, id, userId);
    db.winnings, db.history := tables.0, tables.1;
    db.tournaments := db.tournaments[id := t];
    r := Success(t);
  }

  /** The winnings table after the winner of `tid` is named: the kill reward, if any, promoted. */
  ghost function WinningsAfterEnd(ws: seq<WinningsRow>, tid: int, uid: int): seq<WinningsRow> {
    if KillRowExists(ws, tid, uid) then PromotedKill(ws, tid, uid) else ws
  }

  /** The history after the winner of `tid` is named: its kill rewards, if any, reclassified. */
  ghost function HistoryAfterEnd(ws: seq<WinningsRow>, h: seq<HistoryEntry>, tid: int, uid: int): seq<HistoryEntry> {
    if KillRowExists(ws, tid, uid) then ReclassifyKillHistory(h, tid, uid) else h
  }

  /**
   * The update by the id of the pair's first kill row, and the reclassification of
   * its history, are the tables after the winner is named.
   */
  lemma KillRowUpdateIsAfterEnd(ws: seq<WinningsRow>, h: seq<HistoryEntry>, tid: int, uid: int, k: nat)
    requires AtMostOneKill(ws) && (forall i, j :: 0 <= i < j < |ws| ==> ws[i].id < ws[j].id)
    requires FindKillRow(ws, tid, uid) == Some(k)
    ensures k < |ws| && SetWinningsTypeById(ws, ws[k].id, Winnings) == WinningsAfterEnd(ws, tid, uid)
    ensures ReclassifyKillHistory(h, tid, uid) == HistoryAfterEnd(ws, h, tid, uid)
  {
    OnlyKillRow(ws, tid, uid, k);
    PromoteByIdIsPromotedKill(ws, tid, uid, k);
  }

  /**
   * The winnings and history tables `endTournament` writes: when the pair has a kill
   * row, the update by that row's id and the reclassified history, else both unchanged.
   */
  function WinnerTables(ws: seq<WinningsRow>, h: seq<HistoryEntry>, tid: int, uid: int)
    : (r: (seq<WinningsRow>, seq<HistoryEntry>))
    requires AtMostOneKill(ws) && (forall i, j :: 0 <= i < j < |ws| ==> ws[i].id < ws[j].id)
    ensures r.0 == WinningsAfterEnd(ws, tid, uid) && r.1 == HistoryAfterEnd(ws, h, tid, uid)
  {
    match FindKillRow(ws, tid, uid)
    case None => (ws, h)
    case Some(k) =>
      KillRowUpdateIsAfterEnd(ws, h, tid, uid, k);
      (SetWinningsTypeById(ws, ws[k].id, Winnings), ReclassifyKillHistory(h, tid, uid))
  }

  /** Ending a tournament with a participant as winner keeps every invariant. */
  lemma EndKeepsConsistent(users: map<int, User>, ts: map<int, Tournament>, roster: seq<Participant>,
                           ws: seq<WinningsRow>, h: seq<HistoryEntry>, nextT: int, nextW: int,
                           opening: map<int, int>, id: int, uid: int)
    requires Consistent(users, ts, roster, ws, h, nextT, nextW, opening)
    requires id in ts && HasRosterRow(roster, id, uid)
    ensures Consistent(users, ts[id := ts[id].(isEnded := true)], roster, WinningsAfterEnd(ws, id, uid),
                       HistoryAfterEnd(ws, h, id, uid), nextT, nextW, opening)
    ensures !KillRowExists(WinningsAfterEnd(ws, id, uid), id, uid)
  {
    var ws', h' := WinningsAfterEnd(ws, id, uid), HistoryAfterEnd(ws, h, id, uid);
    if KillRowExists(ws, id, uid) {
      PromotionKeepsConsistent(users, ts, roster, ws, h, nextT, nextW, opening, id, uid);
      PromotedKillLeavesNoKill(ws, id, uid);
    }
    RosterRowCounts(roster, id, uid);
    ReplaceTournamentKeepsConsistent(users, ts, roster, ws', h', nextT, nextW, opening,
                                     id, ts[id].(isEnded := true));
  }

  // ---------------------------------------------------------------------------
  // deleteTournament

  /** The error `deleteTournament` reports, checks taken in the helper's order, or None. */
  function DeleteCheck(ts: map<int, Tournament>, roster: seq<Participant>, adminId: int, id: int): Option<Error>
  {
    if id <= 0 then Some(InvalidTournamentId)
    else if !Owned(ts, adminId, id) then Some(NotFoundForAdmin)
    else if RosterCount(roster, id) > 0 then Some(HasParticipants(RosterCount(roster, id)))
    else None
  }

  const DeletedMessage: string := "Tournament deleted successfully"

  /** `deleteTournament`: remove a tournament nobody has joined. */
  method DeleteTournament(db: Db, adminId: int, id: int) returns (r: Result<string>)
    requires db.Valid()
    modifies db
    ensures db.Valid()
    ensures EndedKept(old(db.tournaments), db.tournaments)
    ensures var e := DeleteCheck(old(db.tournaments), old(db.participants), adminId, id);
            (e.Some? ==> r == Failure(e.value) && unchanged(db)) && (e.None? ==> r == Success(DeletedMessage))
    ensures r.Success? ==>
              && id in old(db.tournaments)
              && db.tournaments == old(db.tournaments) - {id}
              && db.users == old(db.users) && db.participants == old(db.participants)
              && db.winnings == old(db.winnings) && db.history == old(db.history)
              && db.nextTournamentId == old(db.nextTournamentId)
              && db.nextWinningsId == old(db.nextWinningsId)
  {
    if id <= 0 {
      return Failure(InvalidTournamentId);
    }
    if !Owned(db.tournaments, adminId, id) {
      return Failure(NotFoundForAdmin);
    }
    var count := RosterCount(db.participants, id);
    if count > 0 {
      return Failure(HasParticipants(count));
    }
    DeleteKeepsConsistent(db.users, db.tournaments, db.participants, db.winnings, db.history,
                          db.nextTournamentId, db.nextWinningsId, db.openingBalance, id);
    db.tournaments := db.tournaments - {id};
    r := Success(DeletedMessage);
  }

  lemma DeleteKeepsConsistent(users: map<int, User>, ts: map<int, Tournament>, roster: seq<Participant>,
                              ws: seq<WinningsRow>, h: seq<HistoryEntry>, nextT: int, nextW: int,
                              opening: map<int, int>, id: int)
    requires Consistent(users, ts, roster, ws, h, nextT, nextW, opening)
    requires RosterCount(roster, id) == 0
    ensures Consistent(users, ts - {id}, roster, ws, h, nextT, nextW, opening)
  {
    assert RosterRefs(roster, ts - {id}, users) by {
      forall i | 0 <= i < |roster|
        ensures roster[i].tournamentId in ts - {id}
      {
        assert roster[i].tournamentId != id;
      }
    }
  }

  /** An ended tournament always has its winner on the roster, so it is never deleted. */
  lemma EndedTournamentIsNeverDeleted(users: map<int, User>, ts: map<int, Tournament>,
                                      roster: seq<Participant>, ws: seq<WinningsRow>,
                                      h: seq<HistoryEntry>, nextT: int, nextW: int,
                                      opening: map<int, int>, adminId: int, id: int)
    requires Consistent(users, ts, roster, ws, h, nextT, nextW, opening)
    requires id in ts && ts[id].isEnded
    ensures DeleteCheck(ts, roster, adminId, id).Some?
  {
    assert ts[id].currentParticipants == RosterCount(roster, id);
  }

  // ---------------------------------------------------------------------------
  // editTournament

  /** A column an edit sets when the new text is truthy (`if (data.game) ...`). */
  function TextOr(o: Option<string>, current: string): string {
    if Supplied(o) then o.value else current
  }

  /** A nullable column an edit sets whenever the field is present (`!== undefined`). */
  function OptionOr(o: Option<string>, current: Option<string>): Option<string> {
    if o.Some? then o else current
  }

  /** A column an edit sets whenever the field is present (`if (data.prize !== undefined) ...`). */
  function ValueOr<T>(o: Option<T>, current: T): T {
    if o.Some? then o.value else current
  }

  /**
   * The row after `update tournaments set updateData`. The route hands the helper the
   * request body as sent, not the schema's transformed value, so the fields are those
   * of `EditInput`: each field the edit supplies (by JavaScript truthiness or by
   * `!== undefined`, as the helper tests it) takes the new value, and every other
   * column keeps its value.
   */
  function ApplyEdit(t: Tournament, d: EditInput): (r: Tournament)
    ensures r.id == t.id && r.adminId == t.adminId
    ensures r.currentParticipants == t.currentParticipants && r.isEnded == t.isEnded
    ensures r.game == (if Supplied(d.game) then d.game.value else t.game)
    ensures r.name == (if Supplied(d.name) then d.name.value else t.name)
    ensures r.description == (if d.description.Some? then d.description else t.description)
    ensures r.roomId == (if Supplied(d.roomId) then d.roomId else t.roomId)
    ensures r.roomPassword == (if d.roomPassword.Some? then d.roomPassword else t.roomPassword)
    ensures d.entryFee.None? ==> r.entryFee == t.entryFee
    ensures d.entryFee.Some? ==> r.entryFee == d.entryFee.value
    ensures d.prize.None? ==> r.prize == t.prize
    ensures d.prize.Some? ==> r.prize == d.prize.value
    ensures d.perKillPrize.None? ==> r.perKillPrize == t.perKillPrize
    ensures d.perKillPrize.Some? ==> r.perKillPrize == d.perKillPrize.value
    ensures r.maxParticipants ==
              (if d.maxParticipants.Some? && d.maxParticipants.value != 0 then d.maxParticipants.value
               else t.maxParticipants)
    ensures d.scheduledAt.None? ==> r.scheduledAt == t.scheduledAt
    ensures d.scheduledAt.Some? ==> r.scheduledAt == d.scheduledAt.value
    // an edit that sets no column would leave the row as it is
    ensures !SetsSomeColumn(d) ==> r == t
  {
    t.(game := TextOr(d.game, t.game),
       name := TextOr(d.name, t.name),
       description := OptionOr(d.description, t.description),
       roomId := if Supplied(d.roomId) then d.roomId else t.roomId,
       roomPassword := OptionOr(d.roomPassword, t.roomPassword),
       entryFee := ValueOr(d.entryFee, t.entryFee),
       prize := ValueOr(d.prize, t.prize),
       perKillPrize := ValueOr(d.perKillPrize, t.perKillPrize),
       maxParticipants := if d.maxParticipants.Some? && d.maxParticipants.value != 0
                          then d.maxParticipants.value else t.maxParticipants,
       scheduledAt := ValueOr(d.scheduledAt, t.scheduledAt))
  }

  /** `updateData` gets at least one key. */
  predicate SetsSomeColumn(d: EditInput) {
    || Supplied(d.game) || Supplied(d.name) || d.description.Some? || Supplied(d.roomId)
    || d.roomPassword.Some? || d.entryFee.Some? || d.prize.Some? || d.perKillPrize.Some?
    || (d.maxParticipants.Some? && d.maxParticipants.value != 0) || d.scheduledAt.Some?
  }

  /** The error `editTournament` reports, checks taken in the helper's order, or None. */
  function EditCheck(ts: map<int, Tournament>, adminId: int, id: int, d: EditInput): Option<Error>
  {
    if id <= 0 then Some(InvalidTournamentId)
    else if !Owned(ts, adminId, id) then Some(NotFoundForAdmin)
    else if ts[id].isEnded then Some(CannotEditEnded)
    else if d.maxParticipants.Some? && d.maxParticipants.value != 0 &&
            ts[id].currentParticipants > d.maxParticipants.value then Some(MaxBelowCurrent)
    else if !SetsSomeColumn(d) then Some(NoValuesToSet)
    else if !TournamentChecks(ApplyEdit(ts[id], d)) then Some(CheckViolation)
    else None
  }

  /** `editTournament`: build the update field by field and write it. */
  method EditTournament(db: Db, adminId: int, id: int, data: EditInput) returns (r: Result<Tournament>)
    requires db.Valid()
    modifies db
    ensures db.Valid()
    ensures EndedKept(old(db.tournaments), db.tournaments)
    ensures var e := EditCheck(old(db.tournaments), adminId, id, data);
            (e.Some? ==> r == Failure(e.value) && unchanged(db)) && (e.None? ==> r.Success?)
    ensures r.Success? ==>
              && db.tournaments == old(db.tournaments)[id := ApplyEdit(old(db.tournaments[id]), data)]
              && r.value == db.tournaments[id]
              && db.users == old(db.users) && db.participants == old(db.participants)
              && db.winnings == old(db.winnings) && db.history == old(db.history)
              && db.nextTournamentId == old(db.nextTournamentId)
              && db.nextWinningsId == old(db.nextWinningsId)
  {
    if id <= 0 {
      return Failure(InvalidTournamentId);
    }
    if !Owned(db.tournaments, adminId, id) {
      return Failure(NotFoundForAdmin);
    }
    var t := db.tournaments[id];
    if t.isEnded {
      return Failure(CannotEditEnded);
    }
    if data.maxParticipants.Some? && data.maxParticipants.value != 0 &&
       t.currentParticipants > data.maxParticipants.value {
      return Failure(MaxBelowCurrent);
    }

    // updateData, one column at a time
    var game, name, description, roomId, roomPassword := t.game, t.name, t.description, t.roomId, t.roomPassword;
    var entryFee, prize, perKillPrize, maxParticipants, scheduledAt :=
      t.entryFee, t.prize, t.perKillPrize, t.maxParticipants, t.scheduledAt;
    if Supplied(data.game) { game := data.game.value; }
    if Supplied(data.name) { name := data.name.value; }
    if data.description.Some? { description := data.description; }
    if Supplied(data.roomId) { roomId := data.roomId; }
    if data.roomPassword.Some? { roomPassword := data.roomPassword; }
    if data.entryFee.Some? { entryFee := data.entryFee.value; }
    if data.prize.Some? { prize := data.prize.value; }
    if data.perKillPrize.Some? { perKillPrize := data.perKillPrize.value; }
    if data.maxParticipants.Some? && data.maxParticipants.value != 0 {
      maxParticipants := data.maxParticipants.value;
    }
    if data.scheduledAt.Some? { scheduledAt := data.scheduledAt.value; }
    var u := t.(game := game, name := name, description := description, roomId := roomId,
                roomPassword := roomPassword, entryFee := entryFee, prize := prize,
                perKillPrize := perKillPrize, maxParticipants := maxParticipants,
                scheduledAt := scheduledAt);
    assert u == ApplyEdit(t, data);

    if !SetsSomeColumn(data) {
      return Failure(NoValuesToSet);
    }
    if !TournamentChecks(u) {
      return Failure(CheckViolation);
    }
    ReplaceTournamentKeepsConsistent(db.users, db.tournaments, db.participants, db.winnings, db.history,
                                     db.nextTournamentId, db.nextWinningsId, db.openingBalance, id, u);
    db.tournaments := db.tournaments[id := u];
    r := Success(u);
  }

  /**
   * An accepted edit that omits the room id, or sends an empty one, keeps the stored
   * room id: the schema's "0" fallback is computed but never reaches the helper.
   */
  lemma EditWithoutRoomIdKeepsIt(raw: EditInput, now: int, t: Tournament)
    requires EditInputValid(raw, now)
    requires raw.roomId.None? || raw.roomId.value == ""
    ensures ParseEdit(raw, now).Some? && ParseEdit(raw, now).value.roomId == DefaultRoomId
    ensures ApplyEdit(t, raw).roomId == t.roomId
  {
  }

  /**
   * The empty edit passes the schema, yet the helper refuses it on any editable
   * tournament: the update it builds sets no column.
   */
  lemma EmptyEditIsRefused(ts: map<int, Tournament>, adminId: int, id: int, now: int)
    requires id > 0 && Owned(ts, adminId, id) && !ts[id].isEnded
    ensures EditInputValid(EmptyEdit, now)
    ensures EditCheck(ts, adminId, id, EmptyEdit) == Some(NoValuesToSet)
  {
  }

  /**
   * An edit request the schema accepted, on a stored row, is never rejected by a
   * check constraint: the only errors left are the helper's own.
   */
  lemma ValidatedEditPassesChecks(raw: EditInput, now: int, ts: map<int, Tournament>, adminId: int, id: int)
    requires EditInputValid(raw, now)
    requires id in ts && TournamentChecks(ts[id])
    ensures EditCheck(ts, adminId, id, raw) != Some(CheckViolation)
  {
  }

  // ---------------------------------------------------------------------------
  // getMyTournaments, getMyCurrentTournaments, getMyTournamentHistory

  /** `getMyTournaments`: the admin's tournaments, keyed by id. */
  function MyTournaments(db: Db, adminId: int): (r: map<int, Tournament>)
    reads db
    ensures forall id :: id in r <==> Owned(db.tournaments, adminId, id)
    ensures forall id :: id in r ==> id in db.tournaments && r[id] == db.tournaments[id]
  {
    map id | id in db.tournaments && db.tournaments[id].adminId == adminId :: db.tournaments[id]
  }

  /** `getMyCurrentTournaments`: the admin's tournaments that have not ended. */
  function MyCurrentTournaments(db: Db, adminId: int): (r: map<int, Tournament>)
    reads db
    ensures forall id :: id in r <==> Owned(db.tournaments, adminId, id) && !db.tournaments[id].isEnded
    ensures forall id :: id in r ==> id in db.tournaments && r[id] == db.tournaments[id]
  {
    map id | id in db.tournaments && db.tournaments[id].adminId == adminId && !db.tournaments[id].isEnded
      :: db.tournaments[id]
  }

  /** `getMyTournamentHistory`: the admin's tournaments that have ended. */
  function MyTournamentHistory(db: Db, adminId: int): (r: map<int, Tournament>)
    reads db
    ensures forall id :: id in r <==> Owned(db.tournaments, adminId, id) && db.tournaments[id].isEnded
    ensures forall id :: id in r ==> id in db.tournaments && r[id] == db.tournaments[id]
  {
    map id | id in db.tournaments && db.tournaments[id].adminId == adminId && db.tournaments[id].isEnded
      :: db.tournaments[id]
  }

  /** The current tournaments and the history split the admin's tournaments between them. */
  lemma CurrentAndHistoryPartitionMine(db: Db, adminId: int)
    ensures MyCurrentTournaments(db, adminId).Keys !! MyTournamentHistory(db, adminId).Keys
    ensures MyCurrentTournaments(db, adminId) + MyTournamentHistory(db, adminId) == MyTournaments(db, adminId)
  {
    var c, hs, all := MyCurrentTournaments(db, adminId), MyTournamentHistory(db, adminId), MyTournaments(db, adminId);
    assert (c + hs).Keys == all.Keys;
  }
}
