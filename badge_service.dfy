/**
 * The badge catalog service (src/services/badgeService.ts): existence checks
 * and the mapping of repository outcomes to HTTP errors.
 */
module BadgeService {
  import opened Wrappers
  import opened Store
  import opened BadgeRepository

  /** An `HttpError(status, code, message)`. */
  datatype HttpError = HttpError(status: int, code: string, message: string)

  /** How a service call fails: with an HTTP error, or by rethrowing a database error. */
  datatype Failure = Http(err: HttpError) | Rethrown(dbErr: DbError)

  const Conflict: HttpError := HttpError(409, "badge_ja_existe", "Já existe um badge com este código")
  const NotFound: HttpError := HttpError(404, "badge_nao_encontrado", "Badge não encontrado")
  const DeletedMessage: string := "Badge excluído com sucesso"

  /** The failure a database error becomes in `createBadge`. */
  function CreateFailure(e: DbError): (f: Failure)
    ensures f.Http? <==> e.code == UniqueViolation
    ensures f.Http? ==> f.err == Conflict
    ensures f.Rethrown? ==> f.dbErr == e
  {
    if e.code == UniqueViolation then Http(Conflict) else Rethrown(e)
  }

  /** `createBadge`: a duplicate code becomes 409, any other database error is rethrown. */
  method CreateBadge(db: Database, data: NewBadge, failure: Option<string>) returns (r: Result<Badge, Failure>)
    modifies db
    ensures failure.None? && data.codigo !in old(db.badges) ==>
      r == Ok(InsertedRow(data)) && db.Snapshot() == old(db.Snapshot()).(badges := old(db.badges)[data.codigo := InsertedRow(data)])
    ensures failure.None? && data.codigo in old(db.badges) ==>
      r == Err(Http(Conflict)) && db.Snapshot() == old(db.Snapshot())
    ensures failure.Some? ==> r == Err(CreateFailure(DbError(failure.value))) && db.Snapshot() == old(db.Snapshot())
  {
    var inserted := InsertBadge(db, data, failure);
    match inserted
    case Ok(b) => return Ok(b);
    case Err(e) => return Err(CreateFailure(e));
  }

  /** `getBadge`: the badge, or 404. */
  function GetBadge(badges: map<string, Badge>, codigo: string): (r: Result<Badge, Failure>)
    ensures r.Ok? <==> codigo in badges
    ensures r.Ok? ==> r.value == badges[codigo]
    ensures r.Err? ==> r.error == Http(NotFound)
  {
    match FindBadge(badges, codigo)
    case None => Err(Http(NotFound))
    case Some(b) => Ok(b)
  }

  /** `updateBadge`: 404 without touching anything when the code is unknown; otherwise the repository update. */
  method UpdateBadge(db: Database, codigo: string, data: UpdateData) returns (r: Result<Option<Badge>, Failure>)
    modifies db
    ensures codigo !in old(db.badges) ==> r == Err(Http(NotFound)) && db.Snapshot() == old(db.Snapshot())
    ensures codigo in old(db.badges) ==>
      var b := ApplyAssignments(old(db.badges)[codigo], Assignments(data));
      r == Ok(Some(b)) && db.Snapshot() == old(db.Snapshot()).(badges := old(db.badges)[codigo := b])
  {
    var exists_ := FindBadge(db.badges, codigo);
    if exists_.None? {
      return Err(Http(NotFound));
    }
    var q, updated := BadgeRepository.UpdateBadge(db, codigo, data);
    if q.None? {
      assert Assignments(data) == [];
      assert ApplyAssignments(old(db.badges)[codigo], Assignments(data)) == old(db.badges)[codigo];
      assert old(db.badges)[codigo := old(db.badges)[codigo]] == old(db.badges);
    }
    return Ok(updated);
  }

  /** `deleteBadge`: 404 without touching anything when the code is unknown; otherwise the cascade and the message. */
  method DeleteBadge(db: Database, codigo: string) returns (r: Result<string, Failure>)
    modifies db
    ensures codigo !in old(db.badges) ==> r == Err(Http(NotFound)) && db.Snapshot() == old(db.Snapshot())
    ensures codigo in old(db.badges) ==>
      r == Ok(DeletedMessage)
      && db.Snapshot() == old(db.Snapshot()).(
           grants := (set g | g in old(db.grants) && g.code != codigo),
           badges := old(db.badges) - {codigo})
  {
    var exists_ := FindBadge(db.badges, codigo);
    if exists_.None? {
      return Err(Http(NotFound));
    }
    var _ := BadgeRepository.DeleteBadge(db, codigo);
    return Ok(DeletedMessage);
  }

  // ---------------------------------------------------------------------------
  // properties
  // ---------------------------------------------------------------------------

  /** A created badge can be read back, and its code is then taken, so creating it again is a conflict. */
  lemma CreateThenGet(badges: map<string, Badge>, data: NewBadge)
    requires data.codigo !in badges
    ensures var after := badges[data.codigo := InsertedRow(data)];
      GetBadge(after, data.codigo) == Ok(InsertedRow(data))
      && data.codigo in after
  {
  }

  /** After a delete the badge reads as 404, no one holds it, and other badges and grants are kept. */
  lemma DeleteThenGet(t: Tables, codigo: string)
    ensures var grants := set g | g in t.grants && g.code != codigo;
      var badges := t.badges - {codigo};
      && GetBadge(badges, codigo) == Err(Http(NotFound))
      && (forall u :: Grant(u, codigo) !in grants)
      && (forall g :: g in t.grants && g.code != codigo ==> g in grants)
      && (forall c :: c in t.badges && c != codigo ==> GetBadge(badges, c) == GetBadge(t.badges, c))
  {
  }
}
