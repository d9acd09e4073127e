/**
 * The periodic leaderboard rebuild (src/services/leaderboardSyncJob.ts): the
 * ranking rows with positive XP, highest first, replace the whole Redis sorted
 * set; the scheduler runs the job at a configurable interval and swallows its
 * failures.
 */
module SyncJob {
  import opened Wrappers
  import opened Text
  import opened Leaderboard

  /** A row of `gamification_service.ranking`; `xp_total` may be NULL. */
  datatype RankingRow = RankingRow(userId: string, xp: Option<int>)

  /** `WHERE xp_total > 0`: NULL fails the comparison. */
  predicate Positive(r: RankingRow) {
    r.xp.Some? && r.xp.value > 0
  }

  /** `Number(row.xp) || 0`: NULL reads as 0. */
  function NumberOr0(xp: Option<int>): int {
    if xp.Some? then xp.value else 0
  }

  function Filter(rows: seq<RankingRow>): (r: seq<RankingRow>)
    ensures forall i :: 0 <= i < |r| ==> Positive(r[i])
    ensures multiset(r) <= multiset(rows)
    ensures forall x :: x in rows && Positive(x) ==> x in r
    decreases |rows|
  {
    if |rows| == 0 then []
    else
      var rest := Filter(rows[..|rows| - 1]);
      var last := rows[|rows| - 1];
      assert rows == rows[..|rows| - 1] + [last];
      if Positive(last) then rest + [last] else rest
  }

  predicate Descending(s: seq<RankingRow>) {
    forall i, j :: 0 <= i < j < |s| ==> NumberOr0(s[i].xp) >= NumberOr0(s[j].xp)
  }

  /** Places `r` after every row with at least its XP. */
  function Insert(r: RankingRow, s: seq<RankingRow>): (t: seq<RankingRow>)
    ensures multiset(t) == multiset(s) + multiset{r}
    decreases |s|
  {
    if |s| == 0 then [r]
    else if NumberOr0(s[0].xp) >= NumberOr0(r.xp) then
      assert s == [s[0]] + s[1..];
      [s[0]] + Insert(r, s[1..])
    else [r] + s
  }

  lemma {:induction false} InsertDescending(r: RankingRow, s: seq<RankingRow>)
    requires Descending(s)
    ensures Descending(Insert(r, s))
    decreases |s|
  {
    if |s| > 0 && NumberOr0(s[0].xp) >= NumberOr0(r.xp) {
      var rest := Insert(r, s[1..]);
      InsertDescending(r, s[1..]);
      forall k | 0 <= k < |rest| ensures NumberOr0(s[0].xp) >= NumberOr0(rest[k].xp) {
        assert rest[k] in multiset(rest);
        if rest[k] != r {
          assert rest[k] in multiset(s[1..]);
          var j :| 0 <= j < |s[1..]| && s[1..][j] == rest[k];
          assert s[j + 1] == rest[k];
        }
      }
      var t := [s[0]] + rest;
      assert forall i :: 1 <= i < |t| ==> t[i] == rest[i - 1];
    }
  }

  /** `ORDER BY xp_total DESC`, ties in table order. */
  function SortByXp(rows: seq<RankingRow>): (s: seq<RankingRow>)
    ensures Descending(s)
    ensures multiset(s) == multiset(rows)
    decreases |rows|
  {
    if |rows| == 0 then []
    else
      assert rows == rows[..|rows| - 1] + [rows[|rows| - 1]];
      var sorted := SortByXp(rows[..|rows| - 1]);
      InsertDescending(rows[|rows| - 1], sorted);
      Insert(rows[|rows| - 1], sorted)
  }

  /** The rows the query returns. */
  function Selected(rows: seq<RankingRow>): seq<RankingRow> {
    SortByXp(Filter(rows))
  }

  /** The users the job passes to the full sync, in query order. */
  function JobUsers(rows: seq<RankingRow>): seq<UserScore> {
    var selected := Selected(rows);
    seq(|selected|, i requires 0 <= i < |selected| => UserScore(selected[i].userId, NumberOr0(selected[i].xp)))
  }

  datatype JobError = DatabaseFailed | CacheFailed

  /**
   * `syncLeaderboardJob`: reads the ranking, then replaces the cache contents;
   * either failure is logged and rethrown. Returns the number of users synced.
   */
  method SyncLeaderboardJob(board: Board, rows: seq<RankingRow>, dbUp: bool, cacheUp: bool) returns (r: Result<nat, JobError>)
    requires board.Valid()
    modifies board
    ensures board.Valid()
    ensures !dbUp ==> r == Err(DatabaseFailed) && board.scores == old(board.scores)
    ensures dbUp && !cacheUp ==> r == Err(CacheFailed) && board.scores == old(board.scores)
    ensures dbUp && cacheUp ==> r == Ok(|JobUsers(rows)|) && board.scores == SyncedScores(JobUsers(rows))
  {
    if !dbUp {
      return Err(DatabaseFailed);
    }
    var users := JobUsers(rows);
    var ok := board.SyncFromDb(users, cacheUp);
    if !ok {
      return Err(CacheFailed);
    }
    return Ok(|users|);
  }

  /** One scheduled run: the job's error is caught and logged, never propagated. */
  method ScheduledRun(board: Board, rows: seq<RankingRow>, dbUp: bool, cacheUp: bool)
    requires board.Valid()
    modifies board
    ensures board.Valid()
    ensures board.scores == if dbUp && cacheUp then SyncedScores(JobUsers(rows)) else old(board.scores)
  {
    var _ := SyncLeaderboardJob(board, rows, dbUp, cacheUp);
  }

  // ---------------------------------------------------------------------------
  // interval
  // ---------------------------------------------------------------------------

  /** A decimal integer literal with an optional sign. */
  predicate IsIntegerLiteral(s: string) {
    (|s| >= 1 && AllDigits(s)) || (|s| >= 2 && (s[0] == '-' || s[0] == '+') && AllDigits(s[1..]))
  }

  /**
   * `Number(v)` for an environment value: unset is NaN (`None`), the empty
   * string is 0, a decimal integer literal is its value, anything else NaN.
   */
  function EnvNumber(v: Option<string>): (n: Option<int>)
    ensures v.Some? && v.value == "" ==> n == Some(0)
    ensures v.None? ==> n.None?
  {
    if v.None? then None
    else if v.value == "" then Some(0)
    else if !IsIntegerLiteral(v.value) then None
    else if AllDigits(v.value) then Some(DigitsValue(v.value))
    else if v.value[0] == '-' then Some(0 - DigitsValue(v.value[1..]))
    else Some(DigitsValue(v.value[1..]))
  }

  /** `Number(process.env.REDIS_SYNC_INTERVAL_HOURS) || 24`. */
  function SyncIntervalHours(v: Option<string>): (h: int)
    ensures h != 0
    ensures h == 24 <==> EnvNumber(v).None? || EnvNumber(v) == Some(0) || EnvNumber(v) == Some(24)
  {
    var n := EnvNumber(v);
    if n.None? || n.value == 0 then 24 else n.value
  }

  /** Hours converted to milliseconds. */
  function SyncIntervalMs(v: Option<string>): (ms: int)
    ensures ms == SyncIntervalHours(v) * 3_600_000
  {
    SyncIntervalHours(v) * 60 * 60 * 1000
  }

  /** The largest delay a Node.js timer accepts: 2^31 - 1 ms. */
  const MaxTimerDelay := 2_147_483_647

  /**
   * The period `setInterval` actually uses: Node.js replaces a delay below 1
   * or above `MaxTimerDelay` by 1 ms.
   */
  function TimerPeriodMs(v: Option<string>): (ms: int)
    ensures 1 <= ms <= MaxTimerDelay
  {
    var d := SyncIntervalMs(v);
    if d < 1 || d > MaxTimerDelay then 1 else d
  }

  // ---------------------------------------------------------------------------
  // properties
  // ---------------------------------------------------------------------------

  /** The query returns exactly the positive rows. */
  lemma SelectedMembers(rows: seq<RankingRow>, x: RankingRow)
    ensures x in Selected(rows) <==> x in rows && Positive(x)
  {
    var f := Filter(rows);
    assert x in Selected(rows) <==> x in multiset(f);
    if x in multiset(f) {
      assert x in multiset(rows);
      var k :| 0 <= k < |f| && f[k] == x;
    }
  }

  /** The `i`-th user the job passes comes from the `i`-th selected row, which is positive. */
  lemma JobUserAt(rows: seq<RankingRow>, i: nat)
    requires i < |Selected(rows)|
    ensures i < |JobUsers(rows)|
    ensures Selected(rows)[i] in rows && Positive(Selected(rows)[i])
    ensures JobUsers(rows)[i] == UserScore(Selected(rows)[i].userId, Selected(rows)[i].xp.value)
  {
    SelectedMembers(rows, Selected(rows)[i]);
  }

  /** The job passes as many users as there are positive rows, highest XP first. */
  lemma JobUsersOrdered(rows: seq<RankingRow>)
    ensures |JobUsers(rows)| == |Filter(rows)|
    ensures forall i :: 0 <= i < |JobUsers(rows)| ==> JobUsers(rows)[i].xp > 0
    ensures forall i, j :: 0 <= i < j < |JobUsers(rows)| ==> JobUsers(rows)[i].xp >= JobUsers(rows)[j].xp
  {
    var selected := Selected(rows);
    assert |multiset(selected)| == |multiset(Filter(rows))|;
    forall i | 0 <= i < |selected| ensures JobUsers(rows)[i].xp > 0 {
      JobUserAt(rows, i);
    }
    forall i, j | 0 <= i < j < |selected| ensures JobUsers(rows)[i].xp >= JobUsers(rows)[j].xp {
      JobUserAt(rows, i);
      JobUserAt(rows, j);
    }
  }

  /** Every user the job passes is the positive row selected at its position, with that row's XP. */
  lemma JobUsersSound(rows: seq<RankingRow>)
    ensures forall i :: 0 <= i < |JobUsers(rows)| ==>
      && Selected(rows)[i] in rows && Positive(Selected(rows)[i])
      && JobUsers(rows)[i] == UserScore(Selected(rows)[i].userId, Selected(rows)[i].xp.value)
  {
    forall i | 0 <= i < |JobUsers(rows)|
      ensures Selected(rows)[i] in rows && Positive(Selected(rows)[i])
      ensures JobUsers(rows)[i] == UserScore(Selected(rows)[i].userId, Selected(rows)[i].xp.value)
    {
      JobUserAt(rows, i);
    }
  }

  /** Every positive row is passed to the sync with its own XP. */
  lemma JobUsersComplete(rows: seq<RankingRow>)
    ensures forall r :: r in rows && Positive(r) ==>
      exists i :: 0 <= i < |JobUsers(rows)| && JobUsers(rows)[i] == UserScore(r.userId, r.xp.value)
  {
    forall r | r in rows && Positive(r)
      ensures exists i :: 0 <= i < |JobUsers(rows)| && JobUsers(rows)[i] == UserScore(r.userId, r.xp.value)
    {
      SelectedMembers(rows, r);
      var i :| 0 <= i < |Selected(rows)| && Selected(rows)[i] == r;
      JobUserAt(rows, i);
    }
  }

  /** After a successful job the cache holds exactly the users with positive ranking XP. */
  lemma JobKeys(rows: seq<RankingRow>)
    ensures SyncedScores(JobUsers(rows)).Keys == set r | r in rows && Positive(r) :: UserKey(r.userId)
  {
    var us := JobUsers(rows);
    SyncedKeys(us);
    JobUsersSound(rows);
    JobUsersComplete(rows);
    var want := set r | r in rows && Positive(r) :: UserKey(r.userId);
    var got := set i | 0 <= i < |us| :: UserKey(us[i].userId);
    forall k | k in got ensures k in want {
      var i :| 0 <= i < |us| && k == UserKey(us[i].userId);
      var r := Selected(rows)[i];
      assert r in rows && Positive(r) && k == UserKey(r.userId);
    }
    forall k | k in want ensures k in got {
      var r :| r in rows && Positive(r) && k == UserKey(r.userId);
      var i :| 0 <= i < |us| && us[i] == UserScore(r.userId, r.xp.value);
    }
  }

  /** Unset, empty, zero or non-numeric values fall back to 24 hours. */
  lemma DefaultInterval(v: Option<string>)
    requires v.None? || v == Some("") || v == Some("0") || (v.Some? && v.value != "" && !IsIntegerLiteral(v.value))
    ensures SyncIntervalMs(v) == 86_400_000
  {
    if v == Some("0") {
      assert AllDigits("0");
      assert DigitsValue("0") == DigitsValue("") * 10 + 0;
    }
  }

  /** A positive whole number of hours is used as given. */
  lemma ConfiguredInterval(n: nat)
    requires n > 0
    ensures SyncIntervalMs(Some(NatToString(n))) == n * 3_600_000
  {
    DigitsValueOfNatToString(n);
  }

  /**
   * A configured hour count is used as the period only from 1 to 596 hours.
   * A negative count, or 597 hours and more (over 2^31 - 1 ms), makes the
   * job run every millisecond.
   */
  lemma PeriodOfConfiguredHours(v: Option<string>, n: int)
    requires EnvNumber(v) == Some(n) && n != 0
    ensures 1 <= n <= 596 ==> TimerPeriodMs(v) == n * 3_600_000
    ensures n < 0 || n >= 597 ==> TimerPeriodMs(v) == 1
  {
  }

  /** Unset, empty, "0" or non-numeric values run the job once a day. */
  lemma DefaultPeriod(v: Option<string>)
    requires v.None? || v == Some("") || v == Some("0") || (v.Some? && v.value != "" && !IsIntegerLiteral(v.value))
    ensures TimerPeriodMs(v) == 86_400_000
  {
    DefaultInterval(v);
  }
}
