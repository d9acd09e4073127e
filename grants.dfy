/**
 * The fixed badge rules and the audited grant shared by the event consumer
 * (src/events/consumer.ts) and manual reprocessing
 * (src/services/autoBadgesService.ts).
 *
 * A grant first makes sure the badge exists in the catalog, then, unless the
 * user already holds it, inserts the grant and a zero-XP ledger row
 * `badge:<code>` carrying a reference id.
 */
module Grants {
  import opened Wrappers
  import opened Store

  const PrimeiroCurso: string := "PRIMEIRO_CURSO"
  const Maratonista: string := "MARATONISTA"
  const Expert: string := "EXPERT"

  /** Completions whose `date_trunc('month', data_conclusao)` is `month`; NULL dates never match. */
  function MonthlyCount(cs: seq<Completion>, month: int): (n: nat)
    ensures n <= |cs|
    decreases |cs|
  {
    if |cs| == 0 then 0
    else MonthlyCount(cs[..|cs| - 1], month) + (if cs[|cs| - 1].completedMonth == Some(month) then 1 else 0)
  }

  /**
   * The codes the fixed rules grant, in the order they are checked: a first
   * course when exactly one course is completed, the marathon badge when
   * exactly five were completed this month, the expert badge from 3000 XP.
   */
  function FiredCodes(users: map<string, UserRow>, facts: UserFacts, userId: string, month: int): (codes: seq<string>)
    ensures PrimeiroCurso in codes <==> |facts.completions| == 1
    ensures Maratonista in codes <==> MonthlyCount(facts.completions, month) == 5
    ensures Expert in codes <==> XpOf(users, userId) >= 3000
    ensures |codes| <= 3
  {
    (if |facts.completions| == 1 then [PrimeiroCurso] else [])
    + (if MonthlyCount(facts.completions, month) == 5 then [Maratonista] else [])
    + (if XpOf(users, userId) >= 3000 then [Expert] else [])
  }

  /** `insert into badges(codigo, nome, descricao) values ($1, $1, $1) on conflict (codigo) do nothing`. */
  function EnsureBadge(badges: map<string, Badge>, code: string): (r: map<string, Badge>)
    ensures code in r && r.Keys == badges.Keys + {code}
    ensures forall c :: c in badges ==> r[c] == badges[c]
    ensures code !in badges ==> r[code] == Badge(code, Some(code), None, None, None)
  {
    if code in badges then badges else badges[code := Badge(code, Some(code), None, None, None)]
  }

  /** The zero-XP ledger row that records a grant. */
  function AuditRow(userId: string, code: string, ref: string): LedgerRow {
    LedgerRow(userId, 0, "badge:" + code, ref)
  }

  /** One audited grant. */
  function GrantWithAudit(t: Tables, userId: string, code: string, ref: string): Tables {
    var t1 := t.(badges := EnsureBadge(t.badges, code));
    if Grant(userId, code) in t.grants then t1
    else t1.(grants := t.grants + {Grant(userId, code)}, ledger := t.ledger + [AuditRow(userId, code, ref)])
  }

  /** Audited grants of several codes, one after the other. */
  function GrantAll(t: Tables, userId: string, codes: seq<string>, ref: string): Tables
    decreases |codes|
  {
    if |codes| == 0 then t
    else GrantWithAudit(GrantAll(t, userId, codes[..|codes| - 1], ref), userId, codes[|codes| - 1], ref)
  }

  /** Granting one more code after a list. */
  lemma GrantAllSnoc(t: Tables, userId: string, codes: seq<string>, code: string, ref: string)
    ensures GrantAll(t, userId, codes + [code], ref) == GrantWithAudit(GrantAll(t, userId, codes, ref), userId, code, ref)
  {
    assert (codes + [code])[..|codes|] == codes;
  }

  // ---------------------------------------------------------------------------
  // properties
  // ---------------------------------------------------------------------------

  /**
   * A grant leaves the user holding the badge and the badge in the catalog;
   * it adds one audit row when the grant is new and none otherwise, and
   * touches no user row and no stored event.
   */
  lemma GrantEffect(t: Tables, userId: string, code: string, ref: string)
    ensures var t1 := GrantWithAudit(t, userId, code, ref);
      && t1.grants == t.grants + {Grant(userId, code)}
      && code in t1.badges
      && (Grant(userId, code) in t.grants ==> t1.ledger == t.ledger)
      && (Grant(userId, code) !in t.grants ==> t1.ledger == t.ledger + [AuditRow(userId, code, ref)])
      && t1.users == t.users && t1.events == t.events
  {
  }

  /** Granting twice gives one grant and one audit row. */
  lemma GrantTwice(t: Tables, userId: string, code: string, ref: string, ref2: string)
    ensures var t1 := GrantWithAudit(t, userId, code, ref);
      GrantWithAudit(t1, userId, code, ref2) == t1
  {
    var t1 := GrantWithAudit(t, userId, code, ref);
    assert EnsureBadge(t1.badges, code) == t1.badges;
  }

  /** Audit rows carry no XP, so grants keep the ledger's idempotency invariant. */
  lemma GrantKeepsKeysFresh(t: Tables, userId: string, code: string, ref: string)
    requires AppliedKeysFresh(t.ledger)
    ensures AppliedKeysFresh(GrantWithAudit(t, userId, code, ref).ledger)
  {
    if Grant(userId, code) !in t.grants {
      AppendKeepsKeysFresh(t.ledger, AuditRow(userId, code, ref));
    }
  }

  /** Audit rows carry no XP, so no user's ledger sum changes. */
  lemma GrantKeepsLedgerSums(t: Tables, userId: string, code: string, ref: string, u: string)
    ensures LedgerSum(GrantWithAudit(t, userId, code, ref).ledger, u) == LedgerSum(t.ledger, u)
  {
    if Grant(userId, code) !in t.grants {
      LedgerSumAppend(t.ledger, AuditRow(userId, code, ref), u);
    }
  }

  /** After granting a list of codes, the user holds each of them; user rows are untouched. */
  lemma {:induction false} GrantAllEffect(t: Tables, userId: string, codes: seq<string>, ref: string)
    ensures var t1 := GrantAll(t, userId, codes, ref);
      && t1.users == t.users && t1.events == t.events
      && t.grants <= t1.grants && t.badges.Keys <= t1.badges.Keys
      && (forall i :: 0 <= i < |codes| ==> Grant(userId, codes[i]) in t1.grants && codes[i] in t1.badges)
    decreases |codes|
  {
    if |codes| > 0 {
      var init := codes[..|codes| - 1];
      GrantAllEffect(t, userId, init, ref);
      GrantEffect(GrantAll(t, userId, init, ref), userId, codes[|codes| - 1], ref);
      assert forall i :: 0 <= i < |init| ==> codes[i] == init[i];
    }
  }

  /** When the user already holds every code and every code is in the catalog, granting changes nothing. */
  lemma {:induction false} GrantAllSettled(t: Tables, userId: string, codes: seq<string>, ref: string)
    requires forall i :: 0 <= i < |codes| ==> Grant(userId, codes[i]) in t.grants && codes[i] in t.badges
    ensures GrantAll(t, userId, codes, ref) == t
    decreases |codes|
  {
    if |codes| > 0 {
      var init := codes[..|codes| - 1];
      assert forall i :: 0 <= i < |init| ==> init[i] == codes[i];
      GrantAllSettled(t, userId, init, ref);
      assert EnsureBadge(t.badges, codes[|codes| - 1]) == t.badges;
    }
  }

  /** Granting the same list again, with any reference id, changes nothing. */
  lemma GrantAllIdempotent(t: Tables, userId: string, codes: seq<string>, ref: string, ref2: string)
    ensures var t1 := GrantAll(t, userId, codes, ref);
      GrantAll(t1, userId, codes, ref2) == t1
  {
    GrantAllEffect(t, userId, codes, ref);
    GrantAllSettled(GrantAll(t, userId, codes, ref), userId, codes, ref2);
  }

  /** The fixed rules read only the user row and the facts, which grants do not change. */
  lemma {:induction false} FiredCodesStable(t: Tables, facts: UserFacts, userId: string, month: int, ref: string)
    ensures var t1 := GrantAll(t, userId, FiredCodes(t.users, facts, userId, month), ref);
      FiredCodes(t1.users, facts, userId, month) == FiredCodes(t.users, facts, userId, month)
  {
    GrantAllEffect(t, userId, FiredCodes(t.users, facts, userId, month), ref);
  }
}
