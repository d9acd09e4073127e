/**
 * The catalog-driven badge evaluator (src/services/badgeEvaluator.ts): every
 * badge of the catalog, in `codigo` order, is judged for one user, and the
 * badges the user deserves and does not hold are granted.
 */
module Evaluator {
  import opened Wrappers
  import opened Text
  import opened Store
  import opened Criteria

  /** A `BadgeAwardResult`; `reason` is absent where the source leaves it out. */
  datatype Verdict = Verdict(badgeCode: string, awarded: bool, alreadyOwned: bool, reason: Option<string>)

  const NoCriterionReason: string := "Badge sem critério definido - adicione um critério válido"
  const NotMetReason: string := "Critério não atendido"
  const ErrorReason: string := "Erro ao avaliar badge"

  /** `!badge.criterio`: NULL and the empty string both count as no criterion. */
  predicate HasCriterion(b: Badge) {
    b.criterio.Some? && b.criterio.value != ""
  }

  /**
   * `avaliarBadge`, with the exception it may throw already turned into the
   * error verdict by `avaliarTodosBadges`.
   */
  function Judge(grants: set<Grant>, users: map<string, UserRow>, facts: UserFacts, userId: string, code: string, b: Badge): (v: Verdict)
    ensures v.badgeCode == code
    ensures v.awarded ==> !v.alreadyOwned && v.reason.None?
  {
    if Grant(userId, code) in grants then Verdict(code, false, true, None)
    else if !HasCriterion(b) then Verdict(code, false, false, Some(NoCriterionReason))
    else
      match EvaluateCriterion(users, facts, userId, b.criterio.value)
      case Err(_) => Verdict(code, false, false, Some(ErrorReason))
      case Ok(false) => Verdict(code, false, false, Some(NotMetReason))
      case Ok(true) => Verdict(code, true, false, None)
  }

  /** The verdicts of a run over the catalog as it was when the run started. */
  function Verdicts(t: Tables, facts: UserFacts, userId: string): (vs: seq<Verdict>)
    ensures |vs| == |t.badges|
    ensures forall j :: 0 <= j < |vs| ==> vs[j].badgeCode == Sorted(t.badges.Keys)[j]
  {
    var codes := Sorted(t.badges.Keys);
    seq(|codes|, j requires 0 <= j < |codes| => Judge(t.grants, t.users, facts, userId, codes[j], t.badges[codes[j]]))
  }

  /** The grants a list of verdicts makes. */
  function AwardedGrants(userId: string, vs: seq<Verdict>): set<Grant> {
    set j | 0 <= j < |vs| && vs[j].awarded :: Grant(userId, vs[j].badgeCode)
  }

  /** A verdict reads the grant set only at the judged user and badge. */
  lemma JudgeReadsOwnGrant(g1: set<Grant>, g2: set<Grant>, users: map<string, UserRow>, facts: UserFacts, userId: string, code: string, b: Badge)
    requires Grant(userId, code) in g1 <==> Grant(userId, code) in g2
    ensures Judge(g1, users, facts, userId, code, b) == Judge(g2, users, facts, userId, code, b)
  {
  }

  lemma AwardedGrantsAppend(userId: string, vs: seq<Verdict>, v: Verdict)
    ensures AwardedGrants(userId, vs + [v]) == AwardedGrants(userId, vs) + (if v.awarded then {Grant(userId, v.badgeCode)} else {})
  {
    var rs := vs + [v];
    assert forall j :: 0 <= j < |vs| ==> rs[j] == vs[j];
    assert rs[|vs|] == v;
  }

  /** The badge judged at position `i` has not been awarded by the verdicts before it. */
  lemma NotYetAwarded(t: Tables, facts: UserFacts, userId: string, i: nat)
    requires i < |t.badges|
    ensures Grant(userId, Sorted(t.badges.Keys)[i]) !in AwardedGrants(userId, Verdicts(t, facts, userId)[..i])
  {
    var codes := Sorted(t.badges.Keys);
    var vs := Verdicts(t, facts, userId)[..i];
    forall j | 0 <= j < i ensures vs[j].badgeCode != codes[i] {
      SortedDistinct(codes, t.badges.Keys, j, i);
    }
  }

  /** The evaluator's `atribuirBadge`: the grant insert with `ON CONFLICT DO NOTHING`. */
  method GrantBadge(db: Database, userId: string, badgeCode: string)
    modifies db
    ensures db.Snapshot() == old(db.Snapshot()).(grants := old(db.grants) + {Grant(userId, badgeCode)})
  {
    db.grants := db.grants + {Grant(userId, badgeCode)};
  }

  /**
   * `avaliarTodosBadges`: one verdict per catalog badge, in code order; the
   * awarded ones are granted, and nothing else changes (no ledger row here).
   */
  method EvaluateAll(db: Database, facts: UserFacts, userId: string, sourceEventId: string) returns (results: seq<Verdict>)
    modifies db
    ensures results == Verdicts(old(db.Snapshot()), facts, userId)
    ensures db.Snapshot() == old(db.Snapshot()).(grants := old(db.grants) + AwardedGrants(userId, results))
  {
    ghost var t := db.Snapshot();
    ghost var expected := Verdicts(t, facts, userId);
    var catalog := db.badges;
    var codes := Sorted(catalog.Keys);
    results := [];
    for i := 0 to |codes|
      invariant db.Snapshot() == t.(grants := t.grants + AwardedGrants(userId, results))
      invariant results == expected[..i]
    {
      var v := JudgeNext(db, t, facts, userId, catalog, codes, i, results);
      results := results + [v];
    }
    assert expected[..|codes|] == expected;
  }

  /**
   * One iteration of `avaliarTodosBadges`: the next badge in code order is
   * judged against the current grants (which agree with the grants at the
   * start of the run on that badge) and granted when it is awarded.
   */
  method JudgeNext(db: Database, ghost t: Tables, facts: UserFacts, userId: string,
                   catalog: map<string, Badge>, codes: seq<string>, i: nat, ghost results: seq<Verdict>)
    returns (v: Verdict)
    requires catalog == t.badges && codes == Sorted(t.badges.Keys) && i < |codes|
    requires db.Snapshot() == t.(grants := t.grants + AwardedGrants(userId, results))
    requires results == Verdicts(t, facts, userId)[..i]
    modifies db
    ensures v == Verdicts(t, facts, userId)[i] && results + [v] == Verdicts(t, facts, userId)[..i + 1]
    ensures db.Snapshot() == t.(grants := t.grants + AwardedGrants(userId, results + [v]))
  {
    var code := codes[i];
    var badge := catalog[code];
    StepAgrees(t, facts, userId, i, db.grants);
    v := Judge(db.grants, db.users, facts, userId, code, badge);
    assert results + [v] == Verdicts(t, facts, userId)[..i + 1];
    if v.awarded {
      GrantBadge(db, userId, code);
    }
  }

  /**
   * The verdict on the `i`-th badge, judged against the grants made so far,
   * is the one the run's verdict list has there, and granting it extends the
   * grants by the list's next award.
   */
  lemma StepAgrees(t: Tables, facts: UserFacts, userId: string, i: nat, grants: set<Grant>)
    requires i < |t.badges|
    requires grants == t.grants + AwardedGrants(userId, Verdicts(t, facts, userId)[..i])
    ensures Sorted(t.badges.Keys)[i] in t.badges
    ensures Judge(grants, t.users, facts, userId, Sorted(t.badges.Keys)[i], t.badges[Sorted(t.badges.Keys)[i]])
            == Verdicts(t, facts, userId)[i]
    ensures (if Verdicts(t, facts, userId)[i].awarded then grants + {Grant(userId, Sorted(t.badges.Keys)[i])} else grants)
            == t.grants + AwardedGrants(userId, Verdicts(t, facts, userId)[..i + 1])
  {
    var vs := Verdicts(t, facts, userId);
    var code := Sorted(t.badges.Keys)[i];
    NotYetAwarded(t, facts, userId, i);
    JudgeReadsOwnGrant(grants, t.grants, t.users, facts, userId, code, t.badges[code]);
    assert vs[..i + 1] == vs[..i] + [vs[i]];
    AwardedGrantsAppend(userId, vs[..i], vs[i]);
  }

  /**
   * `avaliarBadgesConclusaoCurso`: the same run; the awarded subset it filters
   * out is only logged.
   */
  method EvaluateOnCourseCompletion(db: Database, facts: UserFacts, userId: string, courseId: string, sourceEventId: string)
    returns (results: seq<Verdict>)
    modifies db
    ensures results == Verdicts(old(db.Snapshot()), facts, userId)
    ensures db.Snapshot() == old(db.Snapshot()).(grants := old(db.grants) + AwardedGrants(userId, results))
  {
    results := EvaluateAll(db, facts, userId, sourceEventId);
  }

  // ---------------------------------------------------------------------------
  // properties
  // ---------------------------------------------------------------------------

  /**
   * A run yields exactly one verdict per catalog badge, in ascending code
   * order, whatever the individual verdicts are (an error on one badge does
   * not cut the list short).
   */
  lemma OneVerdictPerBadge(t: Tables, facts: UserFacts, userId: string)
    ensures var vs := Verdicts(t, facts, userId);
      && |vs| == |t.badges|
      && (forall j :: 0 <= j < |vs| ==> vs[j].badgeCode in t.badges)
      && (forall i, j :: 0 <= i < j < |vs| ==> StrLess(vs[i].badgeCode, vs[j].badgeCode))
      && (forall c :: c in t.badges ==> exists j :: 0 <= j < |vs| && vs[j].badgeCode == c)
  {
    var vs := Verdicts(t, facts, userId);
    var codes := Sorted(t.badges.Keys);
    assert forall j :: 0 <= j < |vs| ==> vs[j].badgeCode == codes[j];
    forall c | c in t.badges ensures exists j :: 0 <= j < |vs| && vs[j].badgeCode == c {
      ElementsAt(codes, c);
      var j :| 0 <= j < |codes| && codes[j] == c;
      assert vs[j].badgeCode == c;
    }
  }

  /**
   * A badge is awarded exactly when the user does not hold it, it has a
   * criterion, and the criterion evaluates to true; an error in evaluating it
   * gives the error verdict.
   */
  lemma AwardedIff(grants: set<Grant>, users: map<string, UserRow>, facts: UserFacts, userId: string, code: string, b: Badge)
    ensures var v := Judge(grants, users, facts, userId, code, b);
      && (v.awarded <==> Grant(userId, code) !in grants && HasCriterion(b) && EvaluateCriterion(users, facts, userId, b.criterio.value) == Ok(true))
      && (v.alreadyOwned <==> Grant(userId, code) in grants)
      && (v.reason == Some(ErrorReason) <==> Grant(userId, code) !in grants && HasCriterion(b) && EvaluateCriterion(users, facts, userId, b.criterio.value).Err?)
      && (v.reason == Some(NoCriterionReason) <==> Grant(userId, code) !in grants && !HasCriterion(b))
  {
  }

  /** A held badge short-circuits: the verdict does not depend on the facts or the criterion. */
  lemma HeldShortCircuits(grants: set<Grant>, users: map<string, UserRow>, f1: UserFacts, f2: UserFacts, userId: string, code: string, b1: Badge, b2: Badge)
    requires Grant(userId, code) in grants
    ensures Judge(grants, users, f1, userId, code, b1) == Judge(grants, users, f2, userId, code, b2) == Verdict(code, false, true, None)
  {
  }

  /**
   * Running the evaluator again over the state it left, with the same facts,
   * awards nothing more: every badge awarded by the first run is reported as
   * already owned.
   */
  lemma RerunAwardsNothing(t: Tables, facts: UserFacts, userId: string)
    ensures var vs := Verdicts(t, facts, userId);
      var t1 := t.(grants := t.grants + AwardedGrants(userId, vs));
      var ws := Verdicts(t1, facts, userId);
      && |ws| == |vs|
      && (forall j :: 0 <= j < |ws| ==> !ws[j].awarded)
      && (forall j :: 0 <= j < |vs| && vs[j].awarded ==> ws[j].alreadyOwned)
      && AwardedGrants(userId, ws) == {}
  {
    var vs := Verdicts(t, facts, userId);
    var t1 := t.(grants := t.grants + AwardedGrants(userId, vs));
    var ws := Verdicts(t1, facts, userId);
    var codes := Sorted(t.badges.Keys);
    forall j | 0 <= j < |ws| ensures !ws[j].awarded && (vs[j].awarded ==> ws[j].alreadyOwned) {
      assert vs[j] == Judge(t.grants, t.users, facts, userId, codes[j], t.badges[codes[j]]);
      if vs[j].awarded {
        assert Grant(userId, vs[j].badgeCode) in t1.grants;
      }
    }
  }
}
