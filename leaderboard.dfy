/**
 * The Redis leaderboard (src/config/redis.ts): one sorted set under
 * LEADERBOARD_KEY whose members are `user:<id>` and whose scores are XP totals.
 *
 * Redis orders a sorted set by score, ties by member in byte order; the
 * reverse range and reverse rank used here read it from the highest score
 * down, so ties come in descending member order. `Ranking` is that order.
 */
module Leaderboard {
  import opened Wrappers
  import opened Text

  // ---------------------------------------------------------------------------
  // reconnect policy
  // ---------------------------------------------------------------------------

  /** The client's `retryStrategy`: the wait before reconnect attempt `times`. */
  function RetryDelay(times: int): int {
    if times * 50 < 2000 then times * 50 else 2000
  }

  /** The wait grows by 50 ms per attempt until it is capped at 2000 ms. */
  lemma RetryDelayCapped(times: int, later: int)
    requires times <= later
    ensures RetryDelay(times) <= 2000
    ensures RetryDelay(times) <= RetryDelay(later)
    ensures times <= 40 ==> RetryDelay(times) == 50 * times
    ensures times >= 40 ==> RetryDelay(times) == 2000
  {
  }

  // ---------------------------------------------------------------------------
  // member keys
  // ---------------------------------------------------------------------------

  const UserPrefix: string := "user:"

  /** The member stored for a user (the template string `user:${userId}`). */
  function UserKey(userId: string): string {
    UserPrefix + userId
  }

  /** `userKey.replace("user:", "")`: removes the first occurrence of the prefix text. */
  function MemberUserId(member: string): string {
    ReplaceFirst(member, UserPrefix, "")
  }

  predicate HasUserPrefix(member: string) {
    |member| >= |UserPrefix| && member[..|UserPrefix|] == UserPrefix
  }

  /** Stripping the prefix from a stored member recovers the user id it was built from. */
  lemma KeyRoundTrip(userId: string)
    ensures HasUserPrefix(UserKey(userId))
    ensures MemberUserId(UserKey(userId)) == userId
  {
    StripLeading(UserPrefix, userId);
  }

  /** And a member carrying the prefix is the key of the user id stripped from it. */
  lemma MemberRoundTrip(member: string)
    requires HasUserPrefix(member)
    ensures UserKey(MemberUserId(member)) == member
  {
    var rest := member[|UserPrefix|..];
    assert member == UserPrefix + rest;
    StripLeading(UserPrefix, rest);
  }

  lemma UserKeyInjective(a: string, b: string)
    requires UserKey(a) == UserKey(b)
    ensures a == b
  {
    KeyRoundTrip(a);
    KeyRoundTrip(b);
  }

  // ---------------------------------------------------------------------------
  // the order of the sorted set
  // ---------------------------------------------------------------------------

  datatype Entry = Entry(member: string, score: int)

  /** `a` comes before `b` when reading the set from the top. */
  predicate Above(a: Entry, b: Entry) {
    a.score > b.score || (a.score == b.score && StrLess(b.member, a.member))
  }

  lemma AboveIrreflexive(a: Entry)
    ensures !Above(a, a)
  {
    StrLessIrreflexive(a.member);
  }

  lemma AboveTransitive(a: Entry, b: Entry, c: Entry)
    requires Above(a, b) && Above(b, c)
    ensures Above(a, c)
  {
    if a.score == b.score && b.score == c.score {
      StrLessTransitive(c.member, b.member, a.member);
    }
  }

  lemma AboveTotal(a: Entry, b: Entry)
    requires a.member != b.member
    ensures Above(a, b) || Above(b, a)
  {
    StrLessTotal(a.member, b.member);
  }

  lemma AboveAsymmetric(a: Entry, b: Entry)
    requires Above(a, b)
    ensures !Above(b, a)
  {
    if Above(b, a) {
      AboveTransitive(a, b, a);
      AboveIrreflexive(a);
    }
  }

  function EntryOf(scores: map<string, int>, m: string): Entry
    requires m in scores
  {
    Entry(m, scores[m])
  }

  /** `m` is ranked above every other member of the set. */
  predicate IsTop(scores: map<string, int>, m: string) {
    m in scores && forall x :: x in scores && x != m ==> Above(EntryOf(scores, m), EntryOf(scores, x))
  }

  lemma {:induction false} TopExists(scores: map<string, int>)
    requires |scores| > 0
    ensures exists m :: IsTop(scores, m)
    decreases |scores|
  {
    var x :| x in scores;
    var rest := scores - {x};
    assert rest.Keys == scores.Keys - {x};
    if |rest| == 0 {
      assert forall y :: y in scores ==> y == x;
      assert IsTop(scores, x);
    } else {
      TopExists(rest);
      var m :| IsTop(rest, m);
      assert forall y :: y in rest ==> EntryOf(rest, y) == EntryOf(scores, y);
      AboveTotal(EntryOf(scores, m), EntryOf(scores, x));
      if Above(EntryOf(scores, m), EntryOf(scores, x)) {
        forall y | y in scores && y != m
          ensures Above(EntryOf(scores, m), EntryOf(scores, y))
        {
          if y != x {
            assert y in rest;
          }
        }
        assert IsTop(scores, m);
      } else {
        forall y | y in scores && y != x
          ensures Above(EntryOf(scores, x), EntryOf(scores, y))
        {
          if y != m {
            assert y in rest;
            assert Above(EntryOf(rest, m), EntryOf(rest, y));
            AboveTransitive(EntryOf(scores, x), EntryOf(scores, m), EntryOf(scores, y));
          }
        }
        assert IsTop(scores, x);
      }
    }
  }

  lemma TopUnique(scores: map<string, int>, m: string, n: string)
    requires IsTop(scores, m) && IsTop(scores, n)
    ensures m == n
  {
    if m != n {
      AboveAsymmetric(EntryOf(scores, m), EntryOf(scores, n));
    }
  }

  /** The member ranked first (ZREVRANGE 0 0). */
  function TopOf(scores: map<string, int>): (m: string)
    requires |scores| > 0
    ensures IsTop(scores, m)
  {
    TopExists(scores);
    assert forall m, n :: IsTop(scores, m) && IsTop(scores, n) ==> m == n by {
      forall m, n | IsTop(scores, m) && IsTop(scores, n) ensures m == n {
        TopUnique(scores, m, n);
      }
    }
    var m :| IsTop(scores, m);
    m
  }

  /**
   * `r` lists every member of the set exactly once with its score, each entry
   * ranked above all entries after it.
   */
  predicate IsRankingOf(r: seq<Entry>, scores: map<string, int>) {
    && |r| == |scores|
    && (forall i :: 0 <= i < |r| ==> r[i].member in scores && r[i] == EntryOf(scores, r[i].member))
    && (forall i, j :: 0 <= i < j < |r| ==> Above(r[i], r[j]))
    && Members(r) == scores.Keys
  }

  /** The members listed in a run of entries. */
  function Members(es: seq<Entry>): set<string>
    decreases |es|
  {
    if |es| == 0 then {} else {es[0].member} + Members(es[1..])
  }

  lemma {:induction false} MembersAt(es: seq<Entry>, m: string)
    ensures m in Members(es) <==> exists i :: 0 <= i < |es| && es[i].member == m
    decreases |es|
  {
    if |es| > 0 {
      MembersAt(es[1..], m);
      if m in Members(es[1..]) {
        var i :| 0 <= i < |es[1..]| && es[1..][i].member == m;
        assert es[i + 1].member == m;
      }
      if exists i :: 0 <= i < |es| && es[i].member == m {
        var i :| 0 <= i < |es| && es[i].member == m;
        if i > 0 {
          assert es[1..][i - 1].member == m;
        }
      }
    }
  }

  lemma RankingCons(scores: map<string, int>, m: string, tail: seq<Entry>)
    requires IsTop(scores, m)
    requires IsRankingOf(tail, scores - {m})
    ensures IsRankingOf([EntryOf(scores, m)] + tail, scores)
  {
    var rest := scores - {m};
    assert rest.Keys == scores.Keys - {m};
    var r := [EntryOf(scores, m)] + tail;
    assert forall i :: 1 <= i < |r| ==> r[i] == tail[i - 1];
    forall i | 0 <= i < |r| ensures r[i].member in scores && r[i] == EntryOf(scores, r[i].member) {
      if i > 0 {
        assert tail[i - 1] == EntryOf(rest, tail[i - 1].member);
      }
    }
    forall i, j | 0 <= i < j < |r| ensures Above(r[i], r[j]) {
      if i == 0 {
        assert r[j] == tail[j - 1];
        assert r[j].member in rest;
      } else {
        assert Above(tail[i - 1], tail[j - 1]);
      }
    }
    assert r[1..] == tail;
    assert Members(r) == {m} + Members(tail);
  }

  /** The whole set read from the top: what ZREVRANGE 0 -1 returns. */
  function Ranking(scores: map<string, int>): (r: seq<Entry>)
    ensures IsRankingOf(r, scores)
    decreases |scores|
  {
    if |scores| == 0 then []
    else
      var m := TopOf(scores);
      var rest := scores - {m};
      assert rest.Keys == scores.Keys - {m};
      var tail := Ranking(rest);
      RankingCons(scores, m, tail);
      [EntryOf(scores, m)] + tail
  }

  /** A member's 0-based position in the ranking (ZREVRANK), `None` when absent. */
  function RevRank(scores: map<string, int>, member: string): (r: Option<nat>)
    ensures r.Some? <==> member in scores
    ensures r.Some? ==> r.value < |scores| && Ranking(scores)[r.value].member == member
  {
    MembersAt(Ranking(scores), member);
    PositionIn(Ranking(scores), member)
  }

  function PositionIn(es: seq<Entry>, member: string): (r: Option<nat>)
    ensures r.Some? <==> exists i :: 0 <= i < |es| && es[i].member == member
    ensures r.Some? ==> r.value < |es| && es[r.value].member == member
    decreases |es|
  {
    if |es| == 0 then None
    else if es[0].member == member then Some(0)
    else
      match PositionIn(es[1..], member)
      case None =>
        assert forall i :: 1 <= i < |es| ==> es[i] == es[1..][i - 1];
        None
      case Some(k) => Some(k + 1)
  }

  /** Entries of a strictly ordered ranking are found at their own index. */
  lemma PositionOfEntry(scores: map<string, int>, k: nat)
    requires k < |scores|
    ensures RevRank(scores, Ranking(scores)[k].member) == Some(k)
  {
    var r := Ranking(scores);
    AboveIrreflexive(r[k]);
  }

  // ---------------------------------------------------------------------------
  // ZREVRANGE with scores
  // ---------------------------------------------------------------------------

  /**
   * Redis's index normalisation for a range `start..stop` (inclusive) over `n`
   * elements: negative indexes count from the end, the range is clipped to the
   * set, and an empty range is returned as `(0, 0)`. The result is half-open.
   */
  function RangeBounds(start: int, stop: int, n: nat): (r: (nat, nat))
    ensures r.0 <= r.1 <= n
  {
    var s := if start < 0 then start + n else start;
    var e := if stop < 0 then stop + n else stop;
    var s' := if s < 0 then 0 else s;
    var e' := if e >= n then n - 1 else e;
    if s' > e' || s' >= n then (0, 0) else (s', e' + 1)
  }

  /** The flat reply `[member, score, member, score, …]` with scores rendered as text. */
  function Flatten(es: seq<Entry>): (r: seq<string>)
    ensures |r| == 2 * |es|
    decreases |es|
  {
    if |es| == 0 then []
    else [es[0].member, IntToString(es[0].score)] + Flatten(es[1..])
  }

  /** Entry `k` sits at positions `2k` (member) and `2k + 1` (score) of the flat reply. */
  lemma {:induction false} FlattenAt(es: seq<Entry>, k: nat)
    requires k < |es|
    ensures Flatten(es)[2 * k] == es[k].member && Flatten(es)[2 * k + 1] == IntToString(es[k].score)
    decreases k
  {
    if k > 0 {
      FlattenAt(es[1..], k - 1);
      assert Flatten(es)[2 * k] == Flatten(es[1..])[2 * (k - 1)];
      assert Flatten(es)[2 * k + 1] == Flatten(es[1..])[2 * (k - 1) + 1];
    }
  }

  /** ZREVRANGE key start stop WITHSCORES. */
  function ZRevRangeWithScores(scores: map<string, int>, start: int, stop: int): seq<string> {
    var b := RangeBounds(start, stop, |scores|);
    Flatten(Ranking(scores)[b.0..b.1])
  }

  /** How many entries a top-`limit` request yields over a set of `n` members. */
  function TopCount(limit: int, n: nat): nat {
    if limit >= 1 then (if limit < n then limit else n)
    else if n + limit > 0 then n + limit else 0
  }

  /**
   * The range 0..limit-1 covers the first `TopCount(limit, n)` entries: at most
   * `limit` of them for a positive limit, but a limit of 0 asks for 0..-1, which
   * Redis reads as the whole set, and a negative limit drops entries from the end.
   */
  lemma TopRangeBounds(limit: int, n: nat)
    ensures RangeBounds(0, limit - 1, n) == (0, TopCount(limit, n))
    ensures limit >= 1 ==> TopCount(limit, n) <= limit
    ensures TopCount(0, n) == n
  {
  }

  /** A top-`limit` request replies with the first `TopCount(limit, n)` entries of the ranking. */
  lemma TopWindow(scores: map<string, int>, limit: int)
    ensures TopCount(limit, |scores|) <= |Ranking(scores)|
    ensures ZRevRangeWithScores(scores, 0, limit - 1) == Flatten(Ranking(scores)[..TopCount(limit, |scores|)])
  {
    TopRangeBounds(limit, |scores|);
  }

  // ---------------------------------------------------------------------------
  // the cache object
  // ---------------------------------------------------------------------------

  datatype RankedUser = RankedUser(userId: string, xp: int, posicao: nat)

  /** The users of a ranking window, each with its score and 1-based position. */
  function Ranked(window: seq<Entry>): (r: seq<RankedUser>)
    ensures |r| == |window|
  {
    seq(|window|, k requires 0 <= k < |window| => RankedUser(MemberUserId(window[k].member), window[k].score, k + 1))
  }

  /** The ranked users of a prefix of a ranking are its first entries at their positions. */
  lemma RankedPrefix(es: seq<Entry>, n: nat)
    requires n <= |es|
    ensures |Ranked(es[..n])| == n
    ensures forall k :: 0 <= k < n ==> Ranked(es[..n])[k] == RankedUser(MemberUserId(es[k].member), es[k].score, k + 1)
  {
  }

  /**
   * The loop of `getTopRanking` over a flat reply: member and score at
   * positions `i` and `i + 1`, the score parsed as an integer (0 if it does
   * not parse), the user id recovered from the key, and position `i / 2 + 1`.
   */
  method ReadReply(reply: seq<string>, ghost window: seq<Entry>) returns (ranking: seq<RankedUser>)
    requires reply == Flatten(window)
    ensures ranking == Ranked(window)
  {
    ghost var expected := Ranked(window);
    ranking := [];
    var i := 0;
    while i < |reply|
      invariant 0 <= i <= |reply| && i == 2 * |ranking|
      invariant ranking == expected[..|ranking|]
    {
      ReplyPair(window, |ranking|);
      var userKey := reply[i];
      var parsed := ParseInt(reply[i + 1]);
      var xp := parsed.GetOr(0);
      var userId := MemberUserId(userKey);
      assert i / 2 == |ranking|;
      assert expected[|ranking|] == RankedUser(MemberUserId(window[|ranking|].member), window[|ranking|].score, |ranking| + 1);
      assert RankedUser(userId, xp, i / 2 + 1) == expected[|ranking|];
      PrefixSnoc(expected, |ranking|);
      ranking := ranking + [RankedUser(userId, xp, i / 2 + 1)];
      i := i + 2;
    }
    assert ranking == expected;
  }

  /** The `k`-th member and score of a flat reply read back as that entry. */
  lemma ReplyPair(window: seq<Entry>, k: nat)
    requires k < |window|
    ensures 2 * k + 1 < |Flatten(window)|
    ensures Flatten(window)[2 * k] == window[k].member
    ensures ParseInt(Flatten(window)[2 * k + 1]) == Some(window[k].score)
  {
    FlattenAt(window, k);
    ParseIntOfIntToString(window[k].score);
  }

  datatype UserRank = UserRank(posicao: Option<nat>, xp: int)

  datatype UserScore = UserScore(userId: string, xp: int)

  /** The set after DEL and one ZADD per user, in order: a later entry for the same user wins. */
  function SyncedScores(users: seq<UserScore>): map<string, int>
    decreases |users|
  {
    if |users| == 0 then map[]
    else
      var last := users[|users| - 1];
      SyncedScores(users[..|users| - 1])[UserKey(last.userId) := last.xp]
  }

  /** After a sync the set holds exactly the keys of the given users. */
  lemma {:induction false} SyncedKeys(users: seq<UserScore>)
    ensures SyncedScores(users).Keys == set i | 0 <= i < |users| :: UserKey(users[i].userId)
    decreases |users|
  {
    if |users| > 0 {
      var init := users[..|users| - 1];
      SyncedKeys(init);
      var want := set i | 0 <= i < |users| :: UserKey(users[i].userId);
      var before := set i | 0 <= i < |init| :: UserKey(init[i].userId);
      assert want == before + {UserKey(users[|users| - 1].userId)} by {
        forall k | k in want ensures k in before + {UserKey(users[|users| - 1].userId)} {
          var i :| 0 <= i < |users| && k == UserKey(users[i].userId);
          if i < |init| {
            assert init[i] == users[i];
          }
        }
        forall k | k in before ensures k in want {
          var i :| 0 <= i < |init| && k == UserKey(init[i].userId);
          assert init[i] == users[i];
        }
      }
    }
  }

  /** The score of a synced user is that of its last entry in the input. */
  lemma {:induction false} SyncedLastWins(users: seq<UserScore>, i: nat)
    requires i < |users|
    requires forall j :: i < j < |users| ==> users[j].userId != users[i].userId
    ensures UserKey(users[i].userId) in SyncedScores(users)
    ensures SyncedScores(users)[UserKey(users[i].userId)] == users[i].xp
    decreases |users|
  {
    var last := users[|users| - 1];
    var init := users[..|users| - 1];
    if i < |users| - 1 {
      assert last.userId != users[i].userId;
      if UserKey(last.userId) == UserKey(users[i].userId) {
        UserKeyInjective(last.userId, users[i].userId);
      }
      assert init[i] == users[i];
      SyncedLastWins(init, i);
    }
  }

  /** Every member written through `UserKey` carries the prefix. */
  lemma {:induction false} SyncedPrefixed(users: seq<UserScore>)
    ensures forall m :: m in SyncedScores(users) ==> HasUserPrefix(m)
    decreases |users|
  {
    if |users| > 0 {
      SyncedPrefixed(users[..|users| - 1]);
      KeyRoundTrip(users[|users| - 1].userId);
    }
  }

  class Board {
    /** The sorted set stored under LEADERBOARD_KEY. */
    var scores: map<string, int>

    /** Every member was written as `user:<id>`. */
    predicate Valid()
      reads this
    {
      forall m :: m in scores ==> HasUserPrefix(m)
    }

    /** ZADD: sets the user's score to exactly `xp`, adding the member if it was absent. */
    method UpdateUserScore(userId: string, xp: int)
      requires Valid()
      modifies this
      ensures Valid()
      ensures scores == old(scores)[UserKey(userId) := xp]
    {
      KeyRoundTrip(userId);
      scores := scores[UserKey(userId) := xp];
    }

    /**
     * The top of the leaderboard: ZREVRANGE 0 limit-1 WITHSCORES, read two
     * items at a time; positions are 1, 2, 3, … in reply order.
     */
    method GetTopRanking(limit: int) returns (ranking: seq<RankedUser>)
      ensures |ranking| == TopCount(limit, |scores|)
      ensures forall k :: 0 <= k < |ranking| ==>
        ranking[k] == RankedUser(MemberUserId(Ranking(scores)[k].member), Ranking(scores)[k].score, k + 1)
    {
      var reply := ZRevRangeWithScores(scores, 0, limit - 1);
      TopWindow(scores, limit);
      ranking := ReadReply(reply, Ranking(scores)[..TopCount(limit, |scores|)]);
      RankedPrefix(Ranking(scores), TopCount(limit, |scores|));
    }

    /** ZREVRANK and ZSCORE for one user: 1-based position, or null, and the score, or 0. */
    method GetUserRank(userId: string) returns (r: UserRank)
      ensures UserKey(userId) in scores ==>
        r.posicao.Some? && 1 <= r.posicao.value <= |scores|
        && Ranking(scores)[r.posicao.value - 1].member == UserKey(userId)
        && r.xp == scores[UserKey(userId)]
      ensures UserKey(userId) !in scores ==> r == UserRank(None, 0)
    {
      var userKey := UserKey(userId);
      var rank := RevRank(scores, userKey);
      var score: Option<string> := if userKey in scores then Some(IntToString(scores[userKey])) else None;
      var posicao := if rank.Some? then Some(rank.value + 1) else None;
      var xp := 0;
      if score.Some? {
        ParseIntOfIntToString(scores[userKey]);
        xp := ParseInt(score.value).GetOr(0);
      }
      r := UserRank(posicao, xp);
    }

    /**
     * DEL then one ZADD per user, sent as one pipeline. When the pipeline
     * fails the error is rethrown and the set is left as it was.
     */
    method SyncFromDb(users: seq<UserScore>, available: bool) returns (ok: bool)
      requires Valid()
      modifies this
      ensures Valid()
      ensures ok == available
      ensures ok ==> scores == SyncedScores(users)
      ensures !ok ==> scores == old(scores)
    {
      if !available {
        return false;
      }
      scores := map[];
      for i := 0 to |users|
        invariant scores == SyncedScores(users[..i])
      {
        assert users[..i + 1][..i] == users[..i];
        scores := scores[UserKey(users[i].userId) := users[i].xp];
      }
      assert users[..|users|] == users;
      SyncedPrefixed(users);
      return true;
    }
  }

  /** Top-N positions and rank lookups agree: the user at position p is ranked p. */
  lemma TopAndRankAgree(scores: map<string, int>, k: nat)
    requires forall m :: m in scores ==> HasUserPrefix(m)
    requires k < |scores|
    ensures var e := Ranking(scores)[k];
      UserKey(MemberUserId(e.member)) == e.member
      && RevRank(scores, UserKey(MemberUserId(e.member))) == Some(k)
  {
    var e := Ranking(scores)[k];
    MemberRoundTrip(e.member);
    PositionOfEntry(scores, k);
  }

  /** Scores in the ranking never increase from one position to the next. */
  lemma RankingDescending(scores: map<string, int>, i: nat, j: nat)
    requires i <= j < |scores|
    ensures Ranking(scores)[i].score >= Ranking(scores)[j].score
  {
    var r := Ranking(scores);
    if i < j {
      assert Above(r[i], r[j]);
    }
  }
}
