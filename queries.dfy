/**
 * The queries the tournament helpers run against the participants, winnings and
 * history tables, and the two in-place UPDATEs that ending a tournament performs,
 * written as functions over the rows of those tables.
 */
module Queries {
  import opened Results
  import opened Schema

  // ---------------------------------------------------------------------------
  // tournament_participants

  /** A roster row for the pair (tournamentId, userId) exists. */
  predicate HasRosterRow(roster: seq<Participant>, tid: int, uid: int) {
    exists i :: 0 <= i < |roster| && roster[i].tournamentId == tid && roster[i].userId == uid
  }

  /** Some roster row belongs to the tournament. */
  predicate InRoster(roster: seq<Participant>, tid: int) {
    exists i :: 0 <= i < |roster| && roster[i].tournamentId == tid
  }

  /** The number of roster rows of a tournament (`select ... where tournamentId = tid`, `.length`). */
  function RosterCount(roster: seq<Participant>, tid: int): (n: nat)
    ensures n <= |roster|
    ensures n == 0 <==> !InRoster(roster, tid)
  {
    if roster == [] then 0
    else
      var rest := RosterCount(roster[1..], tid);
      assert InRoster(roster[1..], tid) ==> InRoster(roster, tid) by {
        if InRoster(roster[1..], tid) {
          var j :| 0 <= j < |roster[1..]| && roster[1..][j].tournamentId == tid;
          assert roster[j + 1].tournamentId == tid;
        }
      }
      (if roster[0].tournamentId == tid then 1 else 0) + rest
  }

  lemma {:induction false} RosterCountAppend(roster: seq<Participant>, p: Participant, tid: int)
    ensures RosterCount(roster + [p], tid) ==
            RosterCount(roster, tid) + (if p.tournamentId == tid then 1 else 0)
  {
    if roster == [] {
      assert [p][1..] == [];
    } else {
      assert (roster + [p])[1..] == roster[1..] + [p];
      RosterCountAppend(roster[1..], p, tid);
    }
  }

  lemma HasRosterRowAppend(roster: seq<Participant>, p: Participant, tid: int, uid: int)
    ensures HasRosterRow(roster + [p], tid, uid) <==>
            HasRosterRow(roster, tid, uid) || (p.tournamentId == tid && p.userId == uid)
  {
    if HasRosterRow(roster, tid, uid) {
      var i :| 0 <= i < |roster| && roster[i].tournamentId == tid && roster[i].userId == uid;
      assert (roster + [p])[i] == roster[i];
    }
    if p.tournamentId == tid && p.userId == uid {
      assert (roster + [p])[|roster|] == p;
    }
  }

  /** A user on a tournament's roster makes that roster non-empty. */
  lemma RosterRowCounts(roster: seq<Participant>, tid: int, uid: int)
    requires HasRosterRow(roster, tid, uid)
    ensures RosterCount(roster, tid) >= 1
  {
    var i :| 0 <= i < |roster| && roster[i].tournamentId == tid && roster[i].userId == uid;
    assert InRoster(roster, tid);
  }

  // ---------------------------------------------------------------------------
  // winnings

  predicate IsKillOf(w: WinningsRow, tid: int, uid: int) {
    w.tournamentId == tid && w.userId == uid && w.kind == Kill
  }

  /** A `kill` winnings row for the pair exists. */
  predicate KillRowExists(ws: seq<WinningsRow>, tid: int, uid: int) {
    exists i :: 0 <= i < |ws| && IsKillOf(ws[i], tid, uid)
  }

  /** Any winnings row (of either type) for the pair exists. */
  predicate HasWinningsRow(ws: seq<WinningsRow>, tid: int, uid: int) {
    exists i :: 0 <= i < |ws| && ws[i].tournamentId == tid && ws[i].userId == uid
  }

  /** Position of the first `kill` row of the pair: `existingKillReward[0]`. */
  function FindKillRow(ws: seq<WinningsRow>, tid: int, uid: int): (r: Option<nat>)
    ensures r.Some? <==> KillRowExists(ws, tid, uid)
    ensures r.Some? ==> r.value < |ws| && IsKillOf(ws[r.value], tid, uid)
    ensures r.Some? ==> forall j :: 0 <= j < r.value ==> !IsKillOf(ws[j], tid, uid)
  {
    if ws == [] then None
    else if IsKillOf(ws[0], tid, uid) then Some(0)
    else
      match FindKillRow(ws[1..], tid, uid)
      case None =>
        None
      case Some(k) =>
        assert ws[k + 1] == ws[1..][k];
        Some(k + 1)
  }

  /** The rows of one tournament (`winners` in getTournamentById), in table order. */
  function WinningsOf(ws: seq<WinningsRow>, tid: int): (r: seq<WinningsRow>)
    ensures |r| <= |ws|
    ensures forall w :: w in r <==> w in ws && w.tournamentId == tid
    // each matching row exactly as often as the table holds it, and no other row
    ensures forall w :: multiset(r)[w] == (if w.tournamentId == tid then multiset(ws)[w] else 0)
  {
    if ws == [] then []
    else
      assert ws == [ws[0]] + ws[1..];
      if ws[0].tournamentId == tid then [ws[0]] + WinningsOf(ws[1..], tid)
      else WinningsOf(ws[1..], tid)
  }

  /** `update winnings set type = kind where id = id`. */
  function SetWinningsTypeById(ws: seq<WinningsRow>, id: int, kind: WinningsType): (r: seq<WinningsRow>)
    ensures |r| == |ws|
    ensures forall i :: 0 <= i < |ws| ==>
              r[i] == (if ws[i].id == id then ws[i].(kind := kind) else ws[i])
  {
    if ws == [] then []
    else [if ws[0].id == id then ws[0].(kind := kind) else ws[0]] + SetWinningsTypeById(ws[1..], id, kind)
  }

  /** The winnings table with the pair's `kill` rows turned into `winnings` rows. */
  ghost function PromotedKill(ws: seq<WinningsRow>, tid: int, uid: int): seq<WinningsRow> {
    seq(|ws|, i requires 0 <= i < |ws| =>
      if IsKillOf(ws[i], tid, uid) then ws[i].(kind := Winnings) else ws[i])
  }

  /**
   * Updating by the id of the pair's kill row reclassifies exactly the pair's kill
   * rows, when row ids are increasing and the pair has only that kill row.
   */
  lemma PromoteByIdIsPromotedKill(ws: seq<WinningsRow>, tid: int, uid: int, k: nat)
    requires k < |ws| && IsKillOf(ws[k], tid, uid)
    requires forall i, j :: 0 <= i < j < |ws| ==> ws[i].id < ws[j].id
    requires forall i :: 0 <= i < |ws| && i != k ==> !IsKillOf(ws[i], tid, uid)
    ensures SetWinningsTypeById(ws, ws[k].id, Winnings) == PromotedKill(ws, tid, uid)
  {
    var r := SetWinningsTypeById(ws, ws[k].id, Winnings);
    forall i | 0 <= i < |ws|
      ensures r[i] == PromotedKill(ws, tid, uid)[i]
    {
      if i < k {
        assert ws[i].id < ws[k].id;
      } else if i > k {
        assert ws[k].id < ws[i].id;
      }
    }
  }

  // ---------------------------------------------------------------------------
  // history

  /** A `kill_reward` history row of the user that refers to the tournament. */
  predicate IsKillRewardOf(e: HistoryEntry, tid: int, uid: int) {
    e.referenceId == Some(tid) && e.userId == uid && e.transactionType == KillReward
  }

  /**
   * `update history set transactionType = 'tournament_winnings'
   *  where referenceId = tid and userId = uid and transactionType = 'kill_reward'`.
   */
  function ReclassifyKillHistory(h: seq<HistoryEntry>, tid: int, uid: int): (r: seq<HistoryEntry>)
    ensures |r| == |h|
    ensures forall i :: 0 <= i < |h| ==>
              r[i] == (if IsKillRewardOf(h[i], tid, uid) then h[i].(transactionType := TournamentWinnings) else h[i])
  {
    if h == [] then []
    else [if IsKillRewardOf(h[0], tid, uid) then h[0].(transactionType := TournamentWinnings) else h[0]]
         + ReclassifyKillHistory(h[1..], tid, uid)
  }

  /** The sum of the signed amounts of a user's history rows. */
  function NetEffect(h: seq<HistoryEntry>, uid: int): int {
    if h == [] then 0
    else (if h[0].userId == uid then SignedAmount(h[0]) else 0) + NetEffect(h[1..], uid)
  }

  lemma {:induction false} NetEffectAppend(h: seq<HistoryEntry>, e: HistoryEntry, uid: int)
    ensures NetEffect(h + [e], uid) == NetEffect(h, uid) + (if e.userId == uid then SignedAmount(e) else 0)
  {
    if h == [] {
      assert [e][1..] == [];
    } else {
      assert (h + [e])[1..] == h[1..] + [e];
      NetEffectAppend(h[1..], e, uid);
    }
  }

  /** Two histories whose rows agree on user, amount and balance effect. */
  predicate SameEffects(h: seq<HistoryEntry>, h': seq<HistoryEntry>) {
    |h| == |h'| &&
    forall i :: 0 <= i < |h| ==>
      h[i].userId == h'[i].userId && h[i].amount == h'[i].amount && h[i].balanceEffect == h'[i].balanceEffect
  }

  lemma {:induction false} SameEffectsNetEffect(h: seq<HistoryEntry>, h': seq<HistoryEntry>, uid: int)
    requires SameEffects(h, h')
    ensures NetEffect(h, uid) == NetEffect(h', uid)
  {
    if h != [] {
      assert SameEffects(h[1..], h'[1..]) by {
        forall i | 0 <= i < |h| - 1
          ensures h[1..][i].userId == h'[1..][i].userId && h[1..][i].amount == h'[1..][i].amount
          ensures h[1..][i].balanceEffect == h'[1..][i].balanceEffect
        {
          assert h[1..][i] == h[i + 1] && h'[1..][i] == h'[i + 1];
        }
      }
      SameEffectsNetEffect(h[1..], h'[1..], uid);
    }
  }

  /** Reclassifying kill rewards changes no user's net balance effect. */
  lemma ReclassifyKeepsNetEffect(h: seq<HistoryEntry>, tid: int, uid: int, u: int)
    ensures NetEffect(ReclassifyKillHistory(h, tid, uid), u) == NetEffect(h, u)
  {
    SameEffectsNetEffect(ReclassifyKillHistory(h, tid, uid), h, u);
  }

  // ---------------------------------------------------------------------------
  // message text

  /** The number a string of decimal digits spells, most significant digit first. */
  function DigitsValue(s: string): int {
    if s == [] then 0 else 10 * DigitsValue(s[..|s| - 1]) + (s[|s| - 1] as int - '0' as int)
  }

  /**
   * Decimal digits of a number, as a template literal prints it: digits only, no
   * leading zero, spelling exactly `n`.
   */
  function DecimalString(n: nat): (s: string)
    ensures |s| >= 1
    ensures forall i :: 0 <= i < |s| ==> '0' <= s[i] <= '9'
    ensures s[0] != '0' || s == "0"
    ensures DigitsValue(s) == n
  {
    var d := [('0' as int + n % 10) as char];
    if n < 10 then d
    else
      var prefix := DecimalString(n / 10);
      assert (prefix + d)[..|prefix + d| - 1] == prefix;
      prefix + d
  }
}
