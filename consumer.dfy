/**
 * The domain-event consumer (src/events/consumer.ts): it connects to the
 * broker with a bounded number of attempts, stores every delivered event,
 * grants module XP, evaluates the fixed badge rules on course completion, and
 * settles each message with exactly one ack or nack.
 */
module Consumer {
  import opened Wrappers
  import opened Text
  import opened Store
  import opened Grants
  import Ledger
  import Leaderboard

  // ---------------------------------------------------------------------------
  // connecting
  // ---------------------------------------------------------------------------

  const MaxAttempts: nat := 10
  const BaseDelay: nat := 500

  /** Whether connection attempt `k` (0-based) succeeds; attempts beyond the list fail. */
  predicate Succeeds(connects: seq<bool>, k: nat) {
    k < |connects| && connects[k]
  }

  datatype Startup = Startup(started: bool, attempts: nat, waits: seq<nat>)

  /**
   * `startConsumer`: disabled without a URL (unset or empty); otherwise up to
   * ten attempts, stopping at the first that succeeds, with a wait of
   * 500·k ms after failed attempt k — the tenth failure included.
   */
  method StartConsumer(url: Option<string>, connects: seq<bool>) returns (s: Startup)
    ensures url.None? || url.value == "" ==> s == Startup(false, 0, [])
    ensures url.Some? && url.value != "" ==>
      && 1 <= s.attempts <= MaxAttempts
      && (forall k :: 0 <= k < s.attempts - 1 ==> !Succeeds(connects, k))
      && (s.started <==> Succeeds(connects, s.attempts - 1))
      && (!s.started ==> s.attempts == MaxAttempts)
      && |s.waits| == (if s.started then s.attempts - 1 else s.attempts)
      && (forall k :: 0 <= k < |s.waits| ==> s.waits[k] == BaseDelay * (k + 1))
  {
    if url.None? || url.value == "" {
      return Startup(false, 0, []);
    }
    var waits: seq<nat> := [];
    var attempt := 1;
    while attempt <= MaxAttempts
      invariant 1 <= attempt <= MaxAttempts + 1
      invariant |waits| == attempt - 1
      invariant forall k :: 0 <= k < attempt - 1 ==> !Succeeds(connects, k)
      invariant forall k :: 0 <= k < |waits| ==> waits[k] == BaseDelay * (k + 1)
    {
      if Succeeds(connects, attempt - 1) {
        return Startup(true, attempt, waits);
      }
      var delay := BaseDelay * attempt;
      waits := waits + [delay];
      attempt := attempt + 1;
    }
    return Startup(false, MaxAttempts, waits);
  }

  /** The waits grow linearly from 500 ms to at most 5000 ms and add up to at most 27.5 s. */
  lemma {:induction false} WaitsBounded(waits: seq<nat>)
    requires |waits| <= MaxAttempts
    requires forall k :: 0 <= k < |waits| ==> waits[k] == BaseDelay * (k + 1)
    ensures forall k :: 0 <= k < |waits| ==> 500 <= waits[k] <= 5000
    ensures Total(waits) == 250 * |waits| * (|waits| + 1)
    decreases |waits|
  {
    if |waits| > 0 {
      var init := waits[..|waits| - 1];
      assert forall k :: 0 <= k < |init| ==> init[k] == waits[k];
      WaitsBounded(init);
    }
  }

  function Total(waits: seq<nat>): nat
    decreases |waits|
  {
    if |waits| == 0 then 0 else Total(waits[..|waits| - 1]) + waits[|waits| - 1]
  }

  // ---------------------------------------------------------------------------
  // routing (topic exchange)
  // ---------------------------------------------------------------------------

  /**
   * Topic-exchange matching of dot-separated words: `*` matches exactly one
   * word and `#` zero or more.
   */
  predicate WordsMatch(pattern: seq<string>, words: seq<string>)
    decreases |pattern| + |words|
  {
    if |pattern| == 0 then |words| == 0
    else if pattern[0] == "#" then WordsMatch(pattern[1..], words) || (|words| > 0 && WordsMatch(pattern, words[1..]))
    else |words| > 0 && (pattern[0] == "*" || pattern[0] == words[0]) && WordsMatch(pattern[1..], words[1..])
  }

  predicate TopicMatches(binding: string, routingKey: string) {
    WordsMatch(Split(binding, '.'), Split(routingKey, '.'))
  }

  /** Without `#`, a pattern matches word by word: same length, each word equal or `*`. */
  lemma {:induction false} NoHashPointwise(pattern: seq<string>, words: seq<string>)
    requires forall i :: 0 <= i < |pattern| ==> pattern[i] != "#"
    ensures WordsMatch(pattern, words) <==>
      |words| == |pattern| && forall i :: 0 <= i < |pattern| ==> pattern[i] == "*" || pattern[i] == words[i]
    decreases |pattern|
  {
    if |pattern| > 0 {
      assert pattern[0] != "#";
      NoHashPointwise(pattern[1..], if |words| > 0 then words[1..] else words);
      if |words| == |pattern| {
        assert forall i :: 1 <= i < |pattern| ==> pattern[i] == pattern[1..][i - 1] && words[i] == words[1..][i - 1];
      }
    }
  }

  const ModuleCompletedType: string := "course.module.completed.v1"
  const CourseCompletedType: string := "course.completed.v1"

  /** The single binding the queue is declared with. */
  const WrittenBinding: string := "course.*.completed.*"

  /** The bindings that deliver both event types the handler switches on. */
  const Bindings: seq<string> := ["course.*.completed.*", "course.completed.*"]

  /** An event published under `routingKey` reaches the queue. */
  predicate Delivered(bindings: seq<string>, routingKey: string) {
    exists i :: 0 <= i < |bindings| && TopicMatches(bindings[i], routingKey)
  }

  /** The words of a key, given as its pieces joined with dots. */
  lemma SplitWords(parts: seq<string>, s: string)
    requires |parts| >= 1 && (forall i :: 0 <= i < |parts| ==> '.' !in parts[i])
    requires Join(parts, '.') == s
    ensures Split(s, '.') == parts
  {
    SplitJoin(parts, '.');
  }

  /** Matching is decided on the words, once they are known. */
  lemma TopicByWords(binding: string, key: string, bw: seq<string>, kw: seq<string>)
    requires Split(binding, '.') == bw && Split(key, '.') == kw
    ensures TopicMatches(binding, key) <==> WordsMatch(bw, kw)
  {
  }

  lemma ModuleTypeWords()
    ensures Split(ModuleCompletedType, '.') == ["course", "module", "completed", "v1"]
  {
    SplitWords(["course", "module", "completed", "v1"], ModuleCompletedType);
  }

  lemma CourseTypeWords()
    ensures Split(CourseCompletedType, '.') == ["course", "completed", "v1"]
  {
    SplitWords(["course", "completed", "v1"], CourseCompletedType);
  }

  lemma WrittenBindingWords()
    ensures Split(WrittenBinding, '.') == ["course", "*", "completed", "*"]
  {
    SplitWords(["course", "*", "completed", "*"], WrittenBinding);
  }

  lemma AddedBindingWords()
    ensures Split(Bindings[1], '.') == ["course", "completed", "*"]
  {
    SplitWords(["course", "completed", "*"], Bindings[1]);
  }

  /** Word-level facts behind the routing lemmas below. */
  lemma CourseWordsMatching(b: seq<string>, b2: seq<string>, m: seq<string>, c: seq<string>)
    requires b == ["course", "*", "completed", "*"] && b2 == ["course", "completed", "*"]
    requires m == ["course", "module", "completed", "v1"] && c == ["course", "completed", "v1"]
    ensures WordsMatch(b, m) && !WordsMatch(b, c) && WordsMatch(b2, c)
  {
    NoHashPointwise(b, m);
    NoHashPointwise(b, c);
    NoHashPointwise(b2, c);
  }

  /**
   * As written, the binding delivers module completions but not course
   * completions: `*` stands for exactly one word, and `course.completed.v1`
   * has three words where the binding needs four.
   */
  lemma WrittenBindingMissesCourseCompleted()
    ensures TopicMatches(WrittenBinding, ModuleCompletedType)
    ensures !TopicMatches(WrittenBinding, CourseCompletedType)
  {
    var b := ["course", "*", "completed", "*"];
    var m := ["course", "module", "completed", "v1"];
    var c := ["course", "completed", "v1"];
    WrittenBindingWords();
    ModuleTypeWords();
    CourseTypeWords();
    TopicByWords(WrittenBinding, ModuleCompletedType, b, m);
    TopicByWords(WrittenBinding, CourseCompletedType, b, c);
    CourseWordsMatching(b, ["course", "completed", "*"], m, c);
  }

  /** With the added binding, both handled event types reach the queue. */
  lemma BindingsDeliverHandledTypes()
    ensures Delivered(Bindings, ModuleCompletedType)
    ensures Delivered(Bindings, CourseCompletedType)
  {
    var b := ["course", "*", "completed", "*"];
    var b2 := ["course", "completed", "*"];
    var m := ["course", "module", "completed", "v1"];
    var c := ["course", "completed", "v1"];
    WrittenBindingWords();
    AddedBindingWords();
    ModuleTypeWords();
    CourseTypeWords();
    TopicByWords(Bindings[0], ModuleCompletedType, b, m);
    TopicByWords(Bindings[1], CourseCompletedType, b2, c);
    CourseWordsMatching(b, b2, m, c);
  }

  // ---------------------------------------------------------------------------
  // handling one message
  // ---------------------------------------------------------------------------

  /** The payload fields the handlers read. */
  datatype Payload = Payload(userId: string, completedCourse: bool)

  datatype DomainEvent = DomainEvent(eventId: string, eventType: string, occurredAt: string, payload: Payload)

  /**
   * What `JSON.parse` makes of a delivered body: nothing (it is not JSON and
   * the parse throws), an event with its payload, or an event without a
   * `payload`, whose handler then throws when it reads `payload.userId`.
   */
  datatype Body =
    | NotJson
    | Parsed(event: DomainEvent)
    | PayloadMissing(eventId: string, eventType: string, occurredAt: string)

  datatype Message = Message(body: Body)

  datatype Settlement = Ack | Nack

  /**
   * What the handlers read or depend on besides the tables: whether the
   * database is reachable, whether the cache and the broker accept writes,
   * the facts of other services and the current month.
   */
  datatype Environment = Environment(dbUp: bool, cacheUp: bool, publishUp: bool, facts: map<string, UserFacts>, month: int)

  /** Module completion is worth 50 XP, plus 100 when it completes the course. */
  function ModuleXp(p: Payload): (xp: int)
    ensures xp == 50 || xp == 150
    ensures xp == 150 <==> p.completedCourse
  {
    var delta := 50;
    if p.completedCourse then delta + 100 else delta
  }

  /** `insert into events_store … on conflict do nothing` keyed by `event_id`. */
  function StoreEvent(events: map<string, StoredEvent>, eventId: string, row: StoredEvent): (r: map<string, StoredEvent>)
    ensures eventId in r && r.Keys == events.Keys + {eventId}
    ensures forall k :: k in events ==> r[k] == events[k]
    ensures eventId !in events ==> r[eventId] == row
  {
    if eventId in events then events else events[eventId := row]
  }

  /** `persistEvent`: the event's row is stored unless its id already is. */
  function Persist(events: map<string, StoredEvent>, e: DomainEvent): (r: map<string, StoredEvent>)
    ensures e.eventId in r && r.Keys == events.Keys + {e.eventId}
    ensures forall k :: k in events ==> r[k] == events[k]
    ensures e.eventId !in events ==> r[e.eventId] == StoredEvent(e.eventType, e.occurredAt)
  {
    StoreEvent(events, e.eventId, StoredEvent(e.eventType, e.occurredAt))
  }

  /** The fixed badge rules for the user of a course completion. */
  function CourseBadges(t: Tables, e: DomainEvent, env: Environment): Tables {
    var userId := e.payload.userId;
    GrantAll(t, userId, FiredCodes(t.users, FactsFor(env.facts, userId), userId, env.month), e.eventId)
  }

  /** The tables after a parsed event is stored and handled, with the database reachable. */
  function Handled(t: Tables, e: DomainEvent, env: Environment): Tables {
    var t1 := t.(events := Persist(t.events, e));
    if e.eventType == ModuleCompletedType then Ledger.AdjustTables(t1, e.payload.userId, ModuleXp(e.payload), e.eventId, None)
    else if e.eventType == CourseCompletedType then CourseBadges(t1, e, env)
    else t1
  }

  /** The total a module completion reads back; nonzero when XP was applied to an existing user. */
  function ModuleTotal(t: Tables, e: DomainEvent): int {
    var t1 := t.(events := Persist(t.events, e));
    Ledger.Record(t1, e.payload.userId, ModuleXp(e.payload), e.eventId, None).newTotal
  }

  /** Whether handling ends in an ack: only a failed publish of `xp.adjusted.v1` throws. */
  predicate HandledOk(t: Tables, e: DomainEvent, env: Environment) {
    e.eventType == ModuleCompletedType ==> ModuleTotal(t, e) == 0 || env.publishUp
  }

  /** The consumer's `atribuirBadge`. */
  method AwardBadge(db: Database, userId: string, code: string, sourceEventId: string)
    modifies db
    ensures db.Snapshot() == GrantWithAudit(old(db.Snapshot()), userId, code, sourceEventId)
  {
    if code !in db.badges {
      db.badges := db.badges[code := Badge(code, Some(code), None, None, None)];
    }
    if Grant(userId, code) in db.grants {
      return;
    }
    db.grants := db.grants + {Grant(userId, code)};
    db.ledger := db.ledger + [AuditRow(userId, code, sourceEventId)];
  }

  /** `avaliarBadges`: the three fixed rules, checked and granted in order. */
  method EvaluateFixedBadges(db: Database, facts: UserFacts, userId: string, month: int, sourceEventId: string)
    modifies db
    ensures db.Snapshot() == GrantAll(old(db.Snapshot()), userId, FiredCodes(old(db.users), facts, userId, month), sourceEventId)
  {
    ghost var t := db.Snapshot();
    ghost var fired: seq<string> := [];
    var total := |facts.completions|;
    if total == 1 {
      GrantAllSnoc(t, userId, fired, PrimeiroCurso, sourceEventId);
      AwardBadge(db, userId, PrimeiroCurso, sourceEventId);
      fired := fired + [PrimeiroCurso];
    }
    assert db.Snapshot() == GrantAll(t, userId, fired, sourceEventId);
    var cnt := MonthlyCount(facts.completions, month);
    if cnt == 5 {
      GrantAllSnoc(t, userId, fired, Maratonista, sourceEventId);
      AwardBadge(db, userId, Maratonista, sourceEventId);
      fired := fired + [Maratonista];
    }
    assert db.Snapshot() == GrantAll(t, userId, fired, sourceEventId);
    GrantAllEffect(t, userId, fired, sourceEventId);
    assert db.users == t.users;
    var xp := XpOf(db.users, userId);
    if xp >= 3000 {
      GrantAllSnoc(t, userId, fired, Expert, sourceEventId);
      AwardBadge(db, userId, Expert, sourceEventId);
      fired := fired + [Expert];
    }
    assert fired == (if total == 1 then [PrimeiroCurso] else []) + (if cnt == 5 then [Maratonista] else []) + (if xp >= 3000 then [Expert] else []);
    assert fired == FiredCodes(t.users, facts, userId, month);
  }

  /**
   * The message callback. A null message (the consumer was cancelled) gets no
   * settlement; otherwise exactly one: ack when parsing, storing and handling
   * all succeed, nack without requeue when any of them throws. An event
   * without a payload is stored first, so a handled type is nacked after
   * its row is in `events_store`.
   */
  method OnMessage(db: Database, board: Leaderboard.Board, msg: Option<Message>, env: Environment) returns (settled: Option<Settlement>)
    requires board.Valid()
    modifies db, board
    ensures board.Valid()
    ensures msg.None? <==> settled.None?
    ensures msg.None? || msg.value.body.NotJson? || !env.dbUp ==>
      db.Snapshot() == old(db.Snapshot()) && board.scores == old(board.scores)
    ensures msg.Some? && (msg.value.body.NotJson? || !env.dbUp) ==> settled == Some(Nack)
    ensures msg.Some? && msg.value.body.Parsed? && env.dbUp ==>
      var e := msg.value.body.event;
      && db.Snapshot() == Handled(old(db.Snapshot()), e, env)
      && settled == Some(if HandledOk(old(db.Snapshot()), e, env) then Ack else Nack)
      && (if e.eventType == ModuleCompletedType && ModuleTotal(old(db.Snapshot()), e) != 0 && env.cacheUp
          then board.scores == old(board.scores)[Leaderboard.UserKey(e.payload.userId) := ModuleTotal(old(db.Snapshot()), e)]
          else board.scores == old(board.scores))
    ensures msg.Some? && msg.value.body.PayloadMissing? && env.dbUp ==>
      var b := msg.value.body;
      && db.Snapshot() == old(db.Snapshot()).(events := StoreEvent(old(db.events), b.eventId, StoredEvent(b.eventType, b.occurredAt)))
      && board.scores == old(board.scores)
      && settled == Some(if b.eventType == ModuleCompletedType || b.eventType == CourseCompletedType then Nack else Ack)
  {
    if msg.None? {
      return None;
    }
    var body := msg.value.body;
    if body.NotJson? || !env.dbUp {
      return Some(Nack);
    }
    // persistEvent
    var eventId := if body.Parsed? then body.event.eventId else body.eventId;
    var row := if body.Parsed? then StoredEvent(body.event.eventType, body.event.occurredAt) else StoredEvent(body.eventType, body.occurredAt);
    if eventId !in db.events {
      db.events := db.events[eventId := row];
    }
    if body.PayloadMissing? {
      // handleEvent reads `payload.userId` only for the two handled types
      if body.eventType == ModuleCompletedType || body.eventType == CourseCompletedType {
        return Some(Nack);
      }
      return Some(Ack);
    }
    // handleEvent
    var e := body.event;
    if e.eventType == ModuleCompletedType {
      var outcome := Ledger.AdjustXp(db, board, e.payload.userId, ModuleXp(e.payload), e.eventId, None, env.cacheUp, env.publishUp);
      if outcome.PublishFailed? {
        return Some(Nack);
      }
    } else if e.eventType == CourseCompletedType {
      var userId := e.payload.userId;
      EvaluateFixedBadges(db, FactsFor(env.facts, userId), userId, env.month, e.eventId);
    }
    return Some(Ack);
  }

  // ---------------------------------------------------------------------------
  // properties
  // ---------------------------------------------------------------------------

  /** Storing the same event again keeps the first stored copy. */
  lemma PersistIdempotent(events: map<string, StoredEvent>, e: DomainEvent, e2: DomainEvent)
    requires e2.eventId == e.eventId
    ensures Persist(Persist(events, e), e2) == Persist(events, e)
  {
  }

  /**
   * Redelivering a handled event changes nothing more: its event id is
   * already stored, its XP key already used, and the user already holds the
   * badges its rules grant. The redelivery is acked.
   */
  lemma RedeliveryIdempotent(t: Tables, e: DomainEvent, env: Environment)
    ensures var t1 := Handled(t, e, env);
      Handled(t1, e, env) == t1 && HandledOk(t1, e, env)
  {
    var t1 := Handled(t, e, env);
    var p := t.(events := Persist(t.events, e));
    var userId := e.payload.userId;
    if e.eventType == ModuleCompletedType {
      assert t1 == Ledger.AdjustTables(p, userId, ModuleXp(e.payload), e.eventId, None);
      assert t1.events == p.events;
      assert t1.(events := Persist(t1.events, e)) == t1;
      Ledger.SecondCallNoOp(p, userId, ModuleXp(e.payload), e.eventId, None, userId, ModuleXp(e.payload), None);
    } else if e.eventType == CourseCompletedType {
      var facts := FactsFor(env.facts, userId);
      var codes := FiredCodes(p.users, facts, userId, env.month);
      assert t1 == GrantAll(p, userId, codes, e.eventId);
      GrantAllEffect(p, userId, codes, e.eventId);
      assert t1.(events := Persist(t1.events, e)) == t1;
      FiredCodesStable(p, facts, userId, env.month, e.eventId);
      GrantAllIdempotent(p, userId, codes, e.eventId, e.eventId);
    } else {
      assert t1.(events := Persist(t1.events, e)) == t1;
    }
  }

  /** Event types other than the two handled ones are stored and acked, and change nothing else. */
  lemma OtherTypesOnlyStored(t: Tables, e: DomainEvent, env: Environment)
    requires e.eventType != ModuleCompletedType && e.eventType != CourseCompletedType
    ensures Handled(t, e, env) == t.(events := Persist(t.events, e))
    ensures HandledOk(t, e, env)
  {
  }

  /** A course completion adds no XP: user totals and every ledger sum stay as they were. */
  lemma CourseCompletionAddsNoXp(t: Tables, e: DomainEvent, env: Environment, u: string)
    requires e.eventType == CourseCompletedType
    ensures Handled(t, e, env).users == t.users
    ensures LedgerSum(Handled(t, e, env).ledger, u) == LedgerSum(t.ledger, u)
  {
    var p := t.(events := Persist(t.events, e));
    var userId := e.payload.userId;
    var codes := FiredCodes(p.users, FactsFor(env.facts, userId), userId, env.month);
    GrantAllEffect(p, userId, codes, e.eventId);
    GrantAllLedgerSums(p, userId, codes, e.eventId, u);
  }

  lemma {:induction false} GrantAllLedgerSums(t: Tables, userId: string, codes: seq<string>, ref: string, u: string)
    ensures LedgerSum(GrantAll(t, userId, codes, ref).ledger, u) == LedgerSum(t.ledger, u)
    decreases |codes|
  {
    if |codes| > 0 {
      GrantAllLedgerSums(t, userId, codes[..|codes| - 1], ref, u);
      GrantKeepsLedgerSums(GrantAll(t, userId, codes[..|codes| - 1], ref), userId, codes[|codes| - 1], ref, u);
    }
  }
}
