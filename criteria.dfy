/**
 * The criterion language of the badge evaluator (src/services/badgeEvaluator.ts):
 * a criterion is the text `tipo:valor`, the kind selects a fact about the user
 * and the badge is deserved when that fact reaches the threshold.
 *
 * The facts are what the evaluator's SQL queries compute, stated over the
 * user's completed enrollments and activity days.
 */
module Criteria {
  import opened Wrappers
  import opened Text
  import opened Store

  // ---------------------------------------------------------------------------
  // parsing
  // ---------------------------------------------------------------------------

  datatype Kind = CompletedCourses | DistinctAreas | TotalXp | SameCategory | StreakDays | UnknownKind

  /** The `switch (tipo)`; `pontos_necessarios` is an alias of `xp_total`. */
  function KindOf(tipo: string): Kind {
    if tipo == "concluiu_n_cursos" then CompletedCourses
    else if tipo == "concluiu_n_areas_diferentes" then DistinctAreas
    else if tipo == "xp_total" || tipo == "pontos_necessarios" then TotalXp
    else if tipo == "cursos_mesma_categoria" then SameCategory
    else if tipo == "streak_dias" then StreakDays
    else UnknownKind
  }

  /** A parsed criterion; a `None` threshold is JavaScript's NaN. */
  datatype Criterion = Criterion(tipo: string, threshold: Option<int>)

  /**
   * `const [tipo, valorStr] = criterio.split(':')` and `parseInt(valorStr, 10)`:
   * pieces after the second are ignored, and a missing second piece is
   * `undefined`, which `parseInt` reads as NaN.
   */
  function ParseCriterion(criterio: string): Criterion {
    var parts := Split(criterio, ':');
    Criterion(parts[0], if |parts| >= 2 then ParseInt(parts[1]) else None)
  }

  /** The text of a criterion with a numeric threshold. */
  function CriterionText(tipo: string, threshold: int): string {
    tipo + ":" + IntToString(threshold)
  }

  lemma {:induction false} NoColonInNumber(n: int)
    ensures ':' !in IntToString(n)
  {
    var digits := NatToString(if n < 0 then -n else n);
    assert forall i :: 0 <= i < |digits| ==> IsDigit(digits[i]);
    if n < 0 {
      assert IntToString(n) == "-" + digits;
      assert forall i :: 0 <= i < |IntToString(n)| ==> IntToString(n)[i] == '-' || IsDigit(IntToString(n)[i]);
    }
  }

  /** Parsing the text of a criterion whose kind has no colon gives the kind and threshold back. */
  lemma CriterionRoundTrip(tipo: string, threshold: int)
    requires ':' !in tipo
    ensures ParseCriterion(CriterionText(tipo, threshold)) == Criterion(tipo, Some(threshold))
  {
    var parts := [tipo, IntToString(threshold)];
    NoColonInNumber(threshold);
    assert Join(parts, ':') == CriterionText(tipo, threshold) by {
      assert Join(parts[1..], ':') == IntToString(threshold);
    }
    SplitJoin(parts, ':');
    ParseIntOfIntToString(threshold);
  }

  /**
   * Any text with a colon: the kind is the text before the first ':', the
   * threshold is `parseInt` of the piece after it, and further pieces are
   * ignored.
   */
  lemma ParsePieces(tipo: string, num: string, more: seq<string>)
    requires ':' !in tipo && ':' !in num
    requires forall i :: 0 <= i < |more| ==> ':' !in more[i]
    ensures ParseCriterion(Join([tipo, num] + more, ':')) == Criterion(tipo, ParseInt(num))
  {
    var parts := [tipo, num] + more;
    forall i | 0 <= i < |parts|
      ensures ':' !in parts[i]
    {
      if i >= 2 {
        assert parts[i] == more[i - 2];
      }
    }
    SplitJoin(parts, ':');
  }

  /** `parseInt` of "3000", with or without a space before it. */
  lemma ThresholdOf3000()
    ensures ParseInt(" 3000") == Some(3000)
    ensures ParseInt("3000") == Some(3000)
  {
    assert DigitPrefix("3000") == "3000" by {
      assert DigitPrefix("") == "";
      assert DigitPrefix("0") == "0";
      assert DigitPrefix("00") == "00";
      assert DigitPrefix("000") == "000";
    }
    assert DigitsValue("3000") == 3000 by {
      assert "3000"[..3] == "300" && "300"[..2] == "30" && "30"[..1] == "3" && "3"[..0] == "";
    }
    assert TrimStart("3000") == "3000";
    assert TrimStart(" 3000") == "3000" by {
      assert " 3000"[1..] == "3000";
    }
  }

  /** `parseInt` of "07" and of the empty piece. */
  lemma ThresholdOf07()
    ensures ParseInt("07") == Some(7)
    ensures ParseInt("") == None
  {
    assert DigitPrefix("07") == "07" by {
      assert DigitPrefix("") == "";
      assert DigitPrefix("7") == "7";
    }
    assert DigitsValue("07") == 7 by {
      assert "07"[..1] == "0" && "0"[..0] == "";
    }
  }

  /** Spaces before the number are skipped, as `parseInt` does. */
  lemma SpaceBeforeThreshold()
    ensures ParseCriterion("xp_total: 3000") == Criterion("xp_total", Some(3000))
  {
    ThresholdOf3000();
    assert Join(["xp_total", " 3000"] + [], ':') == "xp_total: 3000";
    ParsePieces("xp_total", " 3000", []);
  }

  /** A leading zero is read in base 10. */
  lemma LeadingZeroThreshold()
    ensures ParseCriterion("streak_dias:07") == Criterion("streak_dias", Some(7))
  {
    ThresholdOf07();
    assert Join(["streak_dias", "07"] + [], ':') == "streak_dias:07";
    ParsePieces("streak_dias", "07", []);
  }

  /** A colon with nothing after it gives a NaN threshold. */
  lemma EmptyThreshold()
    ensures ParseCriterion("cursos_concluidos:") == Criterion("cursos_concluidos", None)
  {
    ThresholdOf07();
    assert Join(["cursos_concluidos", ""] + [], ':') == "cursos_concluidos:";
    ParsePieces("cursos_concluidos", "", []);
  }

  /** A piece after a second ':' is ignored. */
  lemma TrailingPieceIgnored()
    ensures ParseCriterion("xp_total:3000:x") == Criterion("xp_total", Some(3000))
  {
    ThresholdOf3000();
    assert Join(["xp_total", "3000"] + ["x"], ':') == "xp_total:3000:x" by {
      var parts := ["xp_total", "3000"] + ["x"];
      assert parts == ["xp_total", "3000", "x"];
      assert Join(["x"], ':') == "x";
      assert Join(["3000", "x"], ':') == "3000" + [':'] + "x";
      assert Join(parts, ':') == "xp_total" + [':'] + ("3000" + [':'] + "x");
    }
    ParsePieces("xp_total", "3000", ["x"]);
  }

  /** Without a colon the whole text is the kind and the threshold is NaN. */
  lemma CriterionWithoutThreshold(criterio: string)
    requires ':' !in criterio
    ensures ParseCriterion(criterio) == Criterion(criterio, None)
  {
    SplitJoin([criterio], ':');
  }

  // ---------------------------------------------------------------------------
  // the facts the queries compute
  // ---------------------------------------------------------------------------

  /** `COUNT(DISTINCT c.departamento_id)`: NULL departments are not counted. */
  function Departments(cs: seq<Completion>): set<int> {
    set i | 0 <= i < |cs| && cs[i].department.Some? :: cs[i].department.value
  }

  /** How many completions fall in category `c`. */
  function CategoryCount(cs: seq<Completion>, c: int): (n: nat)
    ensures n <= |cs|
    decreases |cs|
  {
    if |cs| == 0 then 0
    else CategoryCount(cs[..|cs| - 1], c) + (if cs[|cs| - 1].category == Some(c) then 1 else 0)
  }

  /**
   * `GROUP BY categoria_id HAVING COUNT(*) >= k LIMIT 1` returns a row: some
   * category present among the completions has at least `k` of them.
   */
  predicate CategoryReaches(cs: seq<Completion>, k: int) {
    exists i :: 0 <= i < |cs| && cs[i].category.Some? && CategoryCount(cs, cs[i].category.value) >= k
  }

  lemma {:induction false} CategoryCountPositive(cs: seq<Completion>, i: nat)
    requires i < |cs| && cs[i].category.Some?
    ensures CategoryCount(cs, cs[i].category.value) >= 1
    decreases |cs|
  {
    if i < |cs| - 1 {
      assert cs[..|cs| - 1][i] == cs[i];
      CategoryCountPositive(cs[..|cs| - 1], i);
    }
  }

  /**
   * For a positive threshold the query asks whether some category has `k`
   * completions; for a threshold of 0 or less it still needs one completion
   * with a category, since a group exists only for a category that occurs.
   */
  lemma CategoryReachesMeaning(cs: seq<Completion>, k: int)
    ensures k <= 1 ==> (CategoryReaches(cs, k) <==> exists i :: 0 <= i < |cs| && cs[i].category.Some?)
    ensures k >= 1 ==> (CategoryReaches(cs, k) <==> exists c :: CategoryCount(cs, c) >= k)
  {
    if k <= 1 && exists i :: 0 <= i < |cs| && cs[i].category.Some? {
      var i :| 0 <= i < |cs| && cs[i].category.Some?;
      CategoryCountPositive(cs, i);
    }
    if k >= 1 && exists c :: CategoryCount(cs, c) >= k {
      var c :| CategoryCount(cs, c) >= k;
      var i := CategoryWitness(cs, c);
    }
  }

  /** A category with a completion occurs at some index. */
  lemma {:induction false} CategoryWitness(cs: seq<Completion>, c: int) returns (i: nat)
    requires CategoryCount(cs, c) >= 1
    ensures i < |cs| && cs[i].category == Some(c)
    decreases |cs|
  {
    if cs[|cs| - 1].category == Some(c) {
      i := |cs| - 1;
    } else {
      i := CategoryWitness(cs[..|cs| - 1], c);
      assert cs[..|cs| - 1][i] == cs[i];
    }
  }

  // ---------------------------------------------------------------------------
  // streaks
  // ---------------------------------------------------------------------------

  /** The days `start`, `start + 1`, …, `start + len - 1` are all activity days. */
  predicate IsRun(days: set<int>, start: int, len: nat) {
    forall d :: start <= d < start + len ==> d in days
  }

  /** The length of the run of consecutive days beginning at `start`. */
  function RunFrom(days: set<int>, start: int): (n: nat)
    ensures IsRun(days, start, n) && start + n !in days
    decreases |days|
  {
    if start in days then
      var n := RunFrom(days - {start}, start + 1);
      assert IsRun(days, start, 1 + n) by {
        forall d | start <= d < start + 1 + n ensures d in days {
          if d != start {
            assert d in days - {start};
          }
        }
      }
      1 + n
    else 0
  }

  /** No run from `start` is longer than `RunFrom(days, start)`. */
  lemma {:induction false} RunBounded(days: set<int>, start: int, len: nat)
    requires IsRun(days, start, len)
    ensures len <= RunFrom(days, start)
    decreases len
  {
    if len > 0 {
      assert start in days;
      assert IsRun(days - {start}, start + 1, len - 1);
      RunBounded(days - {start}, start + 1, len - 1);
    }
  }

  lemma {:induction false} MinExists(s: set<int>)
    requires |s| > 0
    ensures exists m :: m in s && forall x :: x in s ==> m <= x
    decreases |s|
  {
    if forall y :: y !in s {
      assert false;
    }
    var x :| x in s;
    if s - {x} != {} {
      MinExists(s - {x});
      var m :| m in s - {x} && forall y :: y in s - {x} ==> m <= y;
      var least := if x < m then x else m;
      forall y | y in s ensures least <= y {
        if y != x {
          assert y in s - {x};
        }
      }
    } else {
      assert s == {x};
    }
  }

  /** The earliest of a nonempty set of days. */
  function MinOf(s: set<int>): (m: int)
    requires s != {}
    ensures m in s && forall x :: x in s ==> m <= x
  {
    MinExists(s);
    var m :| m in s && forall x :: x in s ==> m <= x;
    m
  }

  /** The longest run beginning at one of `starts`, trying them from the earliest. */
  function LongestRun(days: set<int>, starts: set<int>): nat
    decreases |starts|
  {
    if starts == {} then 0
    else
      var s := MinOf(starts);
      var here := RunFrom(days, s);
      var rest := LongestRun(days, starts - {s});
      if here >= rest then here else rest
  }

  /**
   * The streak the gaps-and-islands query computes: the size of the largest
   * group of consecutive distinct days, 0 when there is no activity.
   */
  function Streak(days: set<int>): nat {
    LongestRun(days, days)
  }

  lemma {:induction false} LongestRunCovers(days: set<int>, starts: set<int>, s: int)
    requires s in starts
    ensures RunFrom(days, s) <= LongestRun(days, starts)
    decreases |starts|
  {
    var m := MinOf(starts);
    if s != m {
      LongestRunCovers(days, starts - {m}, s);
    }
  }

  lemma {:induction false} LongestRunAttained(days: set<int>, starts: set<int>)
    requires LongestRun(days, starts) > 0
    ensures exists s :: s in starts && RunFrom(days, s) == LongestRun(days, starts)
    decreases |starts|
  {
    var m := MinOf(starts);
    if RunFrom(days, m) < LongestRun(days, starts - {m}) {
      LongestRunAttained(days, starts - {m});
    }
  }

  /**
   * The streak is the length of the longest run of consecutive activity days:
   * some run has that length, no run is longer, and it is 0 exactly when there
   * are no activity days.
   */
  lemma StreakIsLongestRun(days: set<int>)
    ensures Streak(days) > 0 ==> exists s :: s in days && IsRun(days, s, Streak(days))
    ensures forall s: int, len: nat :: IsRun(days, s, len) ==> len <= Streak(days)
    ensures Streak(days) == 0 <==> days == {}
  {
    if Streak(days) > 0 {
      LongestRunAttained(days, days);
    }
    forall s: int, len: nat | IsRun(days, s, len) ensures len <= Streak(days) {
      if len > 0 {
        assert s in days;
        RunBounded(days, s, len);
        LongestRunCovers(days, days, s);
      }
    }
    if days != {} {
      if forall y :: y !in days {
        assert false;
      }
      var d :| d in days;
      LongestRunCovers(days, days, d);
    }
  }

  /** Days D, D+1, D+2 and D+5 make a streak of 3. */
  lemma StreakExample(d: int)
    ensures Streak({d, d + 1, d + 2, d + 5}) == 3
  {
    var days := {d, d + 1, d + 2, d + 5};
    StreakIsLongestRun(days);
    assert IsRun(days, d, 3);
    var s :| s in days && IsRun(days, s, Streak(days));
    assert s + 3 !in days || s + 2 !in days || s + 1 !in days;
  }

  // ---------------------------------------------------------------------------
  // evaluation
  // ---------------------------------------------------------------------------

  /** `fact >= threshold` in JavaScript: every comparison with NaN is false. */
  predicate Reaches(fact: int, threshold: Option<int>) {
    threshold.Some? && fact >= threshold.value
  }

  /**
   * `avaliarCriterio`. The one error is the category query: NaN bound as the
   * `HAVING COUNT(*) >= $2` parameter is not a valid integer and the database
   * rejects the query.
   */
  function EvaluateCriterion(users: map<string, UserRow>, facts: UserFacts, userId: string, criterio: string): (r: Result<bool, string>)
    ensures r.Err? <==> KindOf(ParseCriterion(criterio).tipo) == SameCategory && ParseCriterion(criterio).threshold.None?
    ensures r.Ok? && r.value ==> ParseCriterion(criterio).threshold.Some? || KindOf(ParseCriterion(criterio).tipo) == SameCategory
    ensures KindOf(ParseCriterion(criterio).tipo) == UnknownKind ==> r == Ok(false)
  {
    var c := ParseCriterion(criterio);
    var cs := facts.completions;
    match KindOf(c.tipo)
    case CompletedCourses => Ok(Reaches(|cs|, c.threshold))
    case DistinctAreas => Ok(Reaches(|Departments(cs)|, c.threshold))
    case TotalXp => Ok(Reaches(XpOf(users, userId), c.threshold))
    case SameCategory => if c.threshold.None? then Err("invalid input syntax for type bigint: \"NaN\"") else Ok(CategoryReaches(cs, c.threshold.value))
    case StreakDays => Ok(Reaches(Streak(facts.activityDays), c.threshold))
    case UnknownKind => Ok(false)
  }

  /**
   * For any text `tipo:num…`, each kind compares its own fact with
   * `parseInt(num)`; a NaN threshold is never reached, and the category
   * query fails on it.
   */
  lemma EvaluateAnyText(users: map<string, UserRow>, facts: UserFacts, userId: string, tipo: string, num: string, more: seq<string>)
    requires ':' !in tipo && ':' !in num
    requires forall i :: 0 <= i < |more| ==> ':' !in more[i]
    ensures var r := EvaluateCriterion(users, facts, userId, Join([tipo, num] + more, ':'));
      var t := ParseInt(num);
      var cs := facts.completions;
      && (KindOf(tipo) == CompletedCourses ==> r == Ok(t.Some? && |cs| >= t.value))
      && (KindOf(tipo) == DistinctAreas ==> r == Ok(t.Some? && |Departments(cs)| >= t.value))
      && (KindOf(tipo) == TotalXp ==> r == Ok(t.Some? && XpOf(users, userId) >= t.value))
      && (KindOf(tipo) == SameCategory ==> (r.Err? <==> t.None?) && (t.Some? ==> r == Ok(CategoryReaches(cs, t.value))))
      && (KindOf(tipo) == StreakDays ==> r == Ok(t.Some? && Streak(facts.activityDays) >= t.value))
      && (KindOf(tipo) == UnknownKind ==> r == Ok(false))
  {
    ParsePieces(tipo, num, more);
  }

  /** The canonical text `tipo:N` compares each kind's fact with N. */
  lemma EvaluateKinds(users: map<string, UserRow>, facts: UserFacts, userId: string, tipo: string, threshold: int)
    requires ':' !in tipo
    ensures var r := EvaluateCriterion(users, facts, userId, CriterionText(tipo, threshold));
      var cs := facts.completions;
      && (KindOf(tipo) == CompletedCourses ==> r == Ok(|cs| >= threshold))
      && (KindOf(tipo) == DistinctAreas ==> r == Ok(|Departments(cs)| >= threshold))
      && (KindOf(tipo) == TotalXp ==> r == Ok(XpOf(users, userId) >= threshold))
      && (KindOf(tipo) == SameCategory ==> r == Ok(CategoryReaches(cs, threshold)))
      && (KindOf(tipo) == StreakDays ==> r == Ok(Streak(facts.activityDays) >= threshold))
  {
    NoColonInNumber(threshold);
    assert Join([tipo, IntToString(threshold)] + [], ':') == CriterionText(tipo, threshold);
    EvaluateAnyText(users, facts, userId, tipo, IntToString(threshold), []);
    ParseIntOfIntToString(threshold);
  }

  lemma PointsAlias(users: map<string, UserRow>, facts: UserFacts, userId: string, threshold: int)
    ensures EvaluateCriterion(users, facts, userId, CriterionText("pontos_necessarios", threshold))
         == EvaluateCriterion(users, facts, userId, CriterionText("xp_total", threshold))
  {
    EvaluateKinds(users, facts, userId, "pontos_necessarios", threshold);
    EvaluateKinds(users, facts, userId, "xp_total", threshold);
  }
}
