/**
 * The badge catalog's data access (src/repositories/badgeRepository.ts):
 * insertion with defaults, lookup, the dynamic UPDATE builder, the cascading
 * delete, and the grant insert and membership test.
 */
module BadgeRepository {
  import opened Wrappers
  import opened Text
  import opened Store

  /** A create request; optional fields are `None` when undefined. */
  datatype NewBadge = NewBadge(
    codigo: string,
    nome: string,
    descricao: Option<string>,
    criterio: Option<string>,
    iconeUrl: Option<string>,
    pontos: Option<int>)

  /** An update request; a field is `None` when undefined and is then left alone. */
  datatype UpdateData = UpdateData(
    nome: Option<string>,
    descricao: Option<string>,
    criterio: Option<string>,
    iconeUrl: Option<string>,
    pontos: Option<int>)

  /** A bound query parameter. */
  datatype Param = TextParam(s: string) | NumberParam(n: int)

  /** One `column = $k` item of the SET list, before numbering. */
  datatype Assignment = Assignment(column: string, value: Param)

  /** A database error, identified by its SQLSTATE code. */
  datatype DbError = DbError(code: string)

  const UniqueViolation: string := "23505"

  /** The UPDATE issued: the SET items, the placeholder of the WHERE clause, and the bound values. */
  datatype UpdateQuery = UpdateQuery(setItems: seq<string>, wherePlaceholder: nat, values: seq<Param>)

  const TouchItem: string := "atualizado_em = now()"

  /** `x || null` for an optional string: undefined and `''` both become NULL. */
  function NullIfFalsy(x: Option<string>): (r: Option<string>)
    ensures r.Some? <==> x.Some? && x.value != ""
    ensures r.Some? ==> r == x
  {
    if x.Some? && x.value != "" then x else None
  }

  /** The row `insertBadge` writes. */
  function InsertedRow(data: NewBadge): Badge {
    Badge(data.nome, NullIfFalsy(data.descricao), NullIfFalsy(data.criterio), NullIfFalsy(data.iconeUrl),
          Some(if data.pontos.Some? then data.pontos.value else 0))
  }

  /**
   * `insertBadge`: a duplicate code is a unique violation; `failure` stands for
   * any other error the database raises, which leaves the catalog unchanged.
   */
  method InsertBadge(db: Database, data: NewBadge, failure: Option<string>) returns (r: Result<Badge, DbError>)
    modifies db
    ensures failure.Some? ==> r == Err(DbError(failure.value)) && db.Snapshot() == old(db.Snapshot())
    ensures failure.None? && data.codigo in old(db.badges) ==>
      r == Err(DbError(UniqueViolation)) && db.Snapshot() == old(db.Snapshot())
    ensures failure.None? && data.codigo !in old(db.badges) ==>
      r == Ok(InsertedRow(data)) && db.Snapshot() == old(db.Snapshot()).(badges := old(db.badges)[data.codigo := InsertedRow(data)])
  {
    if failure.Some? {
      return Err(DbError(failure.value));
    }
    if data.codigo in db.badges {
      return Err(DbError(UniqueViolation));
    }
    var row := InsertedRow(data);
    db.badges := db.badges[data.codigo := row];
    return Ok(row);
  }

  /** `findBadge`. */
  function FindBadge(badges: map<string, Badge>, codigo: string): (r: Option<Badge>)
    ensures r.Some? <==> codigo in badges
    ensures r.Some? ==> r.value == badges[codigo]
  {
    if codigo in badges then Some(badges[codigo]) else None
  }

  /** The updatable columns, in the order `updateBadge` checks them. */
  function ColumnName(i: nat): string {
    if i == 0 then "nome"
    else if i == 1 then "descricao"
    else if i == 2 then "criterio"
    else if i == 3 then "icone_url"
    else "pontos_necessarios"
  }

  /** The parameter a text field binds, if the field is defined. */
  function TextField(o: Option<string>): Option<Param> {
    if o.Some? then Some(TextParam(o.value)) else None
  }

  function NumberField(o: Option<int>): Option<Param> {
    if o.Some? then Some(NumberParam(o.value)) else None
  }

  /** The parameter field `i` of the fixed order binds, if it is defined. */
  function FieldParam(data: UpdateData, i: nat): Option<Param> {
    if i == 0 then TextField(data.nome)
    else if i == 1 then TextField(data.descricao)
    else if i == 2 then TextField(data.criterio)
    else if i == 3 then TextField(data.iconeUrl)
    else if i == 4 then NumberField(data.pontos)
    else None
  }

  /** The SET item of field `i`, if it is defined. */
  function FieldAssignment(data: UpdateData, i: nat): seq<Assignment> {
    var p := FieldParam(data, i);
    if p.Some? then [Assignment(ColumnName(i), p.value)] else []
  }

  /** The SET items of the first `n` fields. */
  function Prefix(data: UpdateData, n: nat): seq<Assignment>
    requires n <= 5
  {
    if n == 0 then [] else Prefix(data, n - 1) + FieldAssignment(data, n - 1)
  }

  /** The defined fields of an update, in the fixed column order. */
  function Assignments(data: UpdateData): seq<Assignment> {
    Prefix(data, 5)
  }

  function Placeholder(k: nat): string {
    "$" + NatToString(k)
  }

  /** The SET item that binds `column` to placeholder `k`. */
  function SetItem(column: string, k: nat): string {
    column + " = " + Placeholder(k)
  }

  /**
   * The first half of `updateBadge`: one `column = $k` item per defined field,
   * numbered from 1 in the order the fields are checked, with its value pushed
   * alongside; `paramCount` ends one past the last placeholder used.
   */
  method BuildSetClause(data: UpdateData) returns (fields: seq<string>, values: seq<Param>, paramCount: nat)
    ensures Numbered(fields, values, Assignments(data), paramCount)
  {
    fields := [];
    values := [];
    paramCount := 1;
    fields, values, paramCount := PushField(data, 0, fields, values, paramCount);  // nome
    fields, values, paramCount := PushField(data, 1, fields, values, paramCount);  // descricao
    fields, values, paramCount := PushField(data, 2, fields, values, paramCount);  // criterio
    fields, values, paramCount := PushField(data, 3, fields, values, paramCount);  // icone_url
    fields, values, paramCount := PushField(data, 4, fields, values, paramCount);  // pontos_necessarios
  }

  /** The block of field `i`, which keeps the numbering of the items built so far. */
  method PushField(data: UpdateData, i: nat, fields: seq<string>, values: seq<Param>, paramCount: nat)
    returns (fields': seq<string>, values': seq<Param>, paramCount': nat)
    requires i < 5 && Numbered(fields, values, Prefix(data, i), paramCount)
    ensures Numbered(fields', values', Prefix(data, i + 1), paramCount')
  {
    FieldStep(data, i, fields, values, paramCount);
    fields', values', paramCount' := PushIfDefined(fields, values, paramCount, ColumnName(i), FieldParam(data, i));
  }

  /**
   * One `if (data.x !== undefined)` block: push `column = $paramCount` and the
   * value, then increment the counter; nothing when the field is undefined.
   */
  method PushIfDefined(fields: seq<string>, values: seq<Param>, paramCount: nat, column: string, value: Option<Param>)
    returns (fields': seq<string>, values': seq<Param>, paramCount': nat)
    ensures value.None? ==> fields' == fields && values' == values && paramCount' == paramCount
    ensures value.Some? ==>
      fields' == fields + [SetItem(column, paramCount)] && values' == values + [value.value] && paramCount' == paramCount + 1
  {
    fields', values', paramCount' := fields, values, paramCount;
    if value.Some? {
      fields' := fields' + [SetItem(column, paramCount')];
      paramCount' := paramCount' + 1;
      values' := values' + [value.value];
    }
  }

  /** `fields` and `values` hold the items of `done`, numbered from 1, and `paramCount` is the next number. */
  ghost predicate Numbered(fields: seq<string>, values: seq<Param>, done: seq<Assignment>, paramCount: nat) {
    && |fields| == |values| == |done|
    && paramCount == |done| + 1
    && (forall k :: 0 <= k < |done| ==> fields[k] == SetItem(done[k].column, k + 1) && values[k] == done[k].value)
  }

  /** One step of the builder: field `i` is numbered next if it is defined, and skipped otherwise. */
  lemma FieldStep(data: UpdateData, i: nat, fields: seq<string>, values: seq<Param>, paramCount: nat)
    requires i < 5 && Numbered(fields, values, Prefix(data, i), paramCount)
    ensures FieldParam(data, i).Some? ==>
      Numbered(fields + [SetItem(ColumnName(i), paramCount)], values + [FieldParam(data, i).value], Prefix(data, i + 1), paramCount + 1)
    ensures FieldParam(data, i).None? ==> Numbered(fields, values, Prefix(data, i + 1), paramCount)
  {
  }

  /** What the database does with one SET item whose placeholder is bound to `value`. */
  function ApplyAssignment(b: Badge, a: Assignment): Badge {
    match a.value
    case TextParam(s) =>
      if a.column == "nome" then b.(nome := s)
      else if a.column == "descricao" then b.(descricao := Some(s))
      else if a.column == "criterio" then b.(criterio := Some(s))
      else if a.column == "icone_url" then b.(iconeUrl := Some(s))
      else b
    case NumberParam(n) =>
      if a.column == "pontos_necessarios" then b.(pontos := Some(n)) else b
  }

  function ApplyAssignments(b: Badge, as_: seq<Assignment>): Badge
    decreases |as_|
  {
    if |as_| == 0 then b else ApplyAssignments(ApplyAssignment(b, as_[0]), as_[1..])
  }

  /** The intended result of an update: each defined field replaced, the others kept. */
  function Patched(b: Badge, data: UpdateData): Badge {
    Badge(
      if data.nome.Some? then data.nome.value else b.nome,
      if data.descricao.Some? then data.descricao else b.descricao,
      if data.criterio.Some? then data.criterio else b.criterio,
      if data.iconeUrl.Some? then data.iconeUrl else b.iconeUrl,
      if data.pontos.Some? then data.pontos else b.pontos)
  }

  /**
   * `updateBadge`: with no defined field it only looks the badge up; otherwise
   * it appends `atualizado_em = now()`, binds the code to the next placeholder,
   * and updates the row if there is one. The issued query is returned too.
   */
  method UpdateBadge(db: Database, codigo: string, data: UpdateData) returns (q: Option<UpdateQuery>, r: Option<Badge>)
    modifies db
    ensures q.None? <==> Assignments(data) == []
    ensures q.None? ==> r == FindBadge(old(db.badges), codigo) && db.Snapshot() == old(db.Snapshot())
    ensures q.Some? ==>
      && |q.value.setItems| == |Assignments(data)| + 1
      && (forall k :: 0 <= k < |Assignments(data)| ==> q.value.setItems[k] == SetItem(Assignments(data)[k].column, k + 1))
      && q.value.setItems[|Assignments(data)|] == TouchItem
      && q.value.wherePlaceholder == |q.value.values| == |Assignments(data)| + 1
      && (forall k :: 0 <= k < |Assignments(data)| ==> q.value.values[k] == Assignments(data)[k].value)
      && q.value.values[|Assignments(data)|] == TextParam(codigo)
    ensures q.Some? && codigo in old(db.badges) ==>
      var b := ApplyAssignments(old(db.badges)[codigo], Assignments(data));
      r == Some(b) && db.Snapshot() == old(db.Snapshot()).(badges := old(db.badges)[codigo := b])
    ensures q.Some? && codigo !in old(db.badges) ==> r.None? && db.Snapshot() == old(db.Snapshot())
  {
    var fields, values, paramCount := BuildSetClause(data);
    if |fields| == 0 {
      return None, FindBadge(db.badges, codigo);
    }
    fields := fields + [TouchItem];
    values := values + [TextParam(codigo)];
    q := Some(UpdateQuery(fields, paramCount, values));
    if codigo !in db.badges {
      return q, None;
    }
    var b := ApplyAssignments(db.badges[codigo], Assignments(data));
    db.badges := db.badges[codigo := b];
    return q, Some(b);
  }

  /**
   * `deleteBadge`: every grant of the code goes first, then the catalog row;
   * the result says whether a catalog row was deleted.
   */
  method DeleteBadge(db: Database, codigo: string) returns (deleted: bool)
    modifies db
    ensures deleted <==> codigo in old(db.badges)
    ensures db.Snapshot() == old(db.Snapshot()).(
      grants := (set g | g in old(db.grants) && g.code != codigo),
      badges := old(db.badges) - {codigo})
  {
    db.grants := set g | g in db.grants && g.code != codigo;
    deleted := codigo in db.badges;
    db.badges := db.badges - {codigo};
  }

  /** `awardBadgeToUser`: the grant insert with `ON CONFLICT DO NOTHING`. */
  method AwardBadgeToUser(db: Database, userId: string, badgeCode: string)
    modifies db
    ensures db.Snapshot() == old(db.Snapshot()).(grants := old(db.grants) + {Grant(userId, badgeCode)})
  {
    db.grants := db.grants + {Grant(userId, badgeCode)};
  }

  /** `userHasBadge`. */
  method UserHasBadge(db: Database, userId: string, badgeCode: string) returns (has: bool)
    ensures has <==> Grant(userId, badgeCode) in db.grants
  {
    has := Grant(userId, badgeCode) in db.grants;
  }

  // ---------------------------------------------------------------------------
  // properties
  // ---------------------------------------------------------------------------

  /** The request with only its first `n` fields kept. */
  function Restrict(data: UpdateData, n: nat): UpdateData {
    UpdateData(
      if n > 0 then data.nome else None,
      if n > 1 then data.descricao else None,
      if n > 2 then data.criterio else None,
      if n > 3 then data.iconeUrl else None,
      if n > 4 then data.pontos else None)
  }

  lemma {:induction false} ApplyConcat(b: Badge, xs: seq<Assignment>, ys: seq<Assignment>)
    ensures ApplyAssignments(b, xs + ys) == ApplyAssignments(ApplyAssignments(b, xs), ys)
    decreases |xs|
  {
    if |xs| > 0 {
      assert (xs + ys)[1..] == xs[1..] + ys;
      ApplyConcat(ApplyAssignment(b, xs[0]), xs[1..], ys);
    } else {
      assert xs + ys == ys;
    }
  }

  lemma {:induction false} ApplyPrefix(b: Badge, data: UpdateData, n: nat)
    requires n <= 5
    ensures ApplyAssignments(b, Prefix(data, n)) == Patched(b, Restrict(data, n))
    decreases n
  {
    if n > 0 {
      ApplyPrefix(b, data, n - 1);
      ApplyConcat(b, Prefix(data, n - 1), FieldAssignment(data, n - 1));
      var before := Patched(b, Restrict(data, n - 1));
      var fa := FieldAssignment(data, n - 1);
      if |fa| == 1 {
        assert ApplyAssignments(before, fa) == ApplyAssignment(before, fa[0]);
      }
    }
  }

  /**
   * Executing the built SET list performs exactly the requested update: each
   * defined field takes its new value and every other field is kept.
   */
  lemma UpdateDoesWhatIsAsked(b: Badge, data: UpdateData)
    ensures ApplyAssignments(b, Assignments(data)) == Patched(b, data)
  {
    ApplyPrefix(b, data, 5);
    assert Restrict(data, 5) == data;
  }

  /** The position of a column in the fixed order. */
  function ColumnIndex(column: string): nat {
    if column == "nome" then 0
    else if column == "descricao" then 1
    else if column == "criterio" then 2
    else if column == "icone_url" then 3
    else 4
  }

  lemma ColumnIndexOfName(i: nat)
    requires i < 5
    ensures ColumnIndex(ColumnName(i)) == i
  {
  }

  /** The first `n` fields only name columns before position `n`. */
  lemma {:induction false} PrefixBound(data: UpdateData, n: nat)
    requires n <= 5
    ensures forall k :: 0 <= k < |Prefix(data, n)| ==> ColumnIndex(Prefix(data, n)[k].column) < n
    decreases n
  {
    if n > 0 {
      PrefixBound(data, n - 1);
      ColumnIndexOfName(n - 1);
    }
  }

  /** The first `n` fields name their columns in increasing position. */
  lemma {:induction false} PrefixOrdered(data: UpdateData, n: nat)
    requires n <= 5
    ensures forall i, j :: 0 <= i < j < |Prefix(data, n)| ==>
      ColumnIndex(Prefix(data, n)[i].column) < ColumnIndex(Prefix(data, n)[j].column)
    decreases n
  {
    if n > 0 {
      var init := Prefix(data, n - 1);
      var as_ := Prefix(data, n);
      PrefixOrdered(data, n - 1);
      PrefixBound(data, n - 1);
      ColumnIndexOfName(n - 1);
      forall i, j | 0 <= i < j < |as_|
        ensures ColumnIndex(as_[i].column) < ColumnIndex(as_[j].column)
      {
        assert as_[i] == init[i];
        if j < |init| {
          assert as_[j] == init[j];
          assert ColumnIndex(init[i].column) < ColumnIndex(init[j].column);
        } else {
          assert as_[j].column == ColumnName(n - 1);
        }
      }
    }
  }

  /** Some item of the SET list assigns `column`. */
  predicate NamesColumn(as_: seq<Assignment>, column: string) {
    exists k :: 0 <= k < |as_| && as_[k].column == column
  }

  lemma NamesConcat(xs: seq<Assignment>, ys: seq<Assignment>, column: string)
    ensures NamesColumn(xs + ys, column) <==> NamesColumn(xs, column) || NamesColumn(ys, column)
  {
    var zs := xs + ys;
    if NamesColumn(zs, column) {
      var k :| 0 <= k < |zs| && zs[k].column == column;
      if k >= |xs| {
        assert ys[k - |xs|] == zs[k];
      }
    }
    if NamesColumn(xs, column) {
      var k :| 0 <= k < |xs| && xs[k].column == column;
      assert zs[k] == xs[k];
    }
    if NamesColumn(ys, column) {
      var k :| 0 <= k < |ys| && ys[k].column == column;
      assert zs[k + |xs|] == ys[k];
    }
  }

  /** The first `n` fields never name a later column. */
  lemma PrefixMissesLater(data: UpdateData, n: nat, f: nat)
    requires n <= f < 5
    ensures !NamesColumn(Prefix(data, n), ColumnName(f))
  {
    PrefixBound(data, n);
    ColumnIndexOfName(f);
    var as_ := Prefix(data, n);
    forall k | 0 <= k < |as_| ensures as_[k].column != ColumnName(f) {
      assert ColumnIndex(as_[k].column) < n;
    }
  }

  /** Among the first `n` fields, a column is named exactly when its field is defined. */
  lemma {:induction false} PrefixCovers(data: UpdateData, n: nat, f: nat)
    requires f < n <= 5
    ensures NamesColumn(Prefix(data, n), ColumnName(f)) <==> FieldParam(data, f).Some?
    decreases n
  {
    var init := Prefix(data, n - 1);
    var last := FieldAssignment(data, n - 1);
    NamesConcat(init, last, ColumnName(f));
    ColumnIndexOfName(f);
    ColumnIndexOfName(n - 1);
    if f < n - 1 {
      PrefixCovers(data, n - 1, f);
    } else {
      PrefixMissesLater(data, n - 1, f);
      if FieldParam(data, f).Some? {
        assert last[0].column == ColumnName(f);
      }
    }
  }

  /**
   * The SET list names each column at most once, in the fixed order nome,
   * descricao, criterio, icone_url, pontos_necessarios, and names a column
   * exactly when its field is defined.
   */
  lemma AssignmentsInColumnOrder(data: UpdateData)
    ensures var as_ := Assignments(data);
      && |as_| <= 5
      && (forall i, j :: 0 <= i < j < |as_| ==> ColumnIndex(as_[i].column) < ColumnIndex(as_[j].column))
      && (forall f :: 0 <= f < 5 ==> (NamesColumn(as_, ColumnName(f)) <==> FieldParam(data, f).Some?))
  {
    PrefixOrdered(data, 5);
    PrefixLength(data, 5);
    forall f | 0 <= f < 5 ensures NamesColumn(Assignments(data), ColumnName(f)) <==> FieldParam(data, f).Some? {
      PrefixCovers(data, 5, f);
    }
  }

  lemma {:induction false} PrefixLength(data: UpdateData, n: nat)
    requires n <= 5
    ensures |Prefix(data, n)| <= n
    decreases n
  {
    if n > 0 {
      PrefixLength(data, n - 1);
    }
  }

  /** Falsy optional fields are stored as NULL and a falsy point value as 0. */
  lemma InsertDefaults(data: NewBadge)
    ensures var row := InsertedRow(data);
      && (data.descricao.None? || data.descricao == Some("") <==> row.descricao.None?)
      && (data.criterio.None? || data.criterio == Some("") <==> row.criterio.None?)
      && (data.iconeUrl.None? || data.iconeUrl == Some("") <==> row.iconeUrl.None?)
      && (row.descricao.Some? ==> row.descricao == data.descricao)
      && (row.criterio.Some? ==> row.criterio == data.criterio)
      && (row.iconeUrl.Some? ==> row.iconeUrl == data.iconeUrl)
      && (data.pontos.None? || data.pontos == Some(0) <==> row.pontos == Some(0))
      && (data.pontos.Some? ==> row.pontos == data.pontos)
      && row.nome == data.nome
  {
  }
}
