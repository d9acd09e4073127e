/**
 * The request-body schemas of the badge catalog
 * (src/validation/gamificationSchemas.ts). A body is the JSON object as a map
 * from key to value; parsing checks the declared keys and keeps only them.
 * Whether a string is a URL is decided by `isUrl`, a parameter.
 */
module Schemas {
  import opened Wrappers

  /** A JSON value, as far as the schemas look at it. */
  datatype Value =
    | Str(s: string)
    | Int(n: int)     // a number with no fractional part
    | Fraction        // any other number
    | Other           // null, booleans, arrays, objects

  type Body = map<string, Value>

  const CreateKeys: set<string> := {"codigo", "nome", "descricao", "criterio", "icone_url", "pontos_necessarios"}
  const UpdateKeys: set<string> := {"nome", "descricao", "criterio", "icone_url", "pontos_necessarios"}

  /** `z.string().min(1)`: present, a string, not empty. */
  predicate NonEmptyText(body: Body, key: string) {
    key in body && body[key].Str? && |body[key].s| >= 1
  }

  /** `z.string().optional()`. */
  predicate OptionalText(body: Body, key: string) {
    key !in body || body[key].Str?
  }

  /** `z.string().min(1).optional()`. */
  predicate OptionalNonEmptyText(body: Body, key: string) {
    key !in body || NonEmptyText(body, key)
  }

  /** `z.string().url().optional().or(z.literal(''))`. */
  predicate OptionalIcon(body: Body, isUrl: string -> bool) {
    "icone_url" !in body
    || (body["icone_url"].Str? && (isUrl(body["icone_url"].s) || body["icone_url"].s == ""))
  }

  /** `z.number().int().nonnegative().optional()`. */
  predicate OptionalPoints(body: Body) {
    "pontos_necessarios" !in body
    || (body["pontos_necessarios"].Int? && body["pontos_necessarios"].n >= 0)
  }

  /** `createBadgeSchema`. */
  predicate ValidCreate(body: Body, isUrl: string -> bool) {
    && NonEmptyText(body, "codigo")
    && NonEmptyText(body, "nome")
    && OptionalText(body, "descricao")
    && OptionalText(body, "criterio")
    && OptionalIcon(body, isUrl)
    && OptionalPoints(body)
  }

  /** `updateBadgeSchema`. */
  predicate ValidUpdate(body: Body, isUrl: string -> bool) {
    && OptionalNonEmptyText(body, "nome")
    && OptionalText(body, "descricao")
    && OptionalText(body, "criterio")
    && OptionalIcon(body, isUrl)
    && OptionalPoints(body)
  }

  /** The declared keys of a body; unknown keys are stripped. */
  function Known(body: Body, keys: set<string>): (r: Body)
    ensures r.Keys == body.Keys * keys
    ensures forall k :: k in r ==> r[k] == body[k]
  {
    map k | k in body && k in keys :: body[k]
  }

  /** `createBadgeSchema.parse`: the declared keys of a valid body, or a rejection. */
  function ParseCreate(body: Body, isUrl: string -> bool): (r: Option<Body>)
    ensures r.Some? <==> ValidCreate(body, isUrl)
    ensures r.Some? ==> r.value.Keys <= CreateKeys && "codigo" in r.value && "nome" in r.value
    ensures r.Some? ==> forall k :: k in r.value ==> k in body && r.value[k] == body[k]
    ensures r.Some? ==> forall k :: k in body && k in CreateKeys ==> k in r.value
  {
    if ValidCreate(body, isUrl) then Some(Known(body, CreateKeys)) else None
  }

  /** `updateBadgeSchema.parse`: the declared keys of a valid body, or a rejection. */
  function ParseUpdate(body: Body, isUrl: string -> bool): (r: Option<Body>)
    ensures r.Some? <==> ValidUpdate(body, isUrl)
    ensures r.Some? ==> r.value.Keys <= UpdateKeys
    ensures r.Some? ==> forall k :: k in r.value ==> k in body && r.value[k] == body[k]
    ensures r.Some? ==> forall k :: k in body && k in UpdateKeys ==> k in r.value
  {
    if ValidUpdate(body, isUrl) then Some(Known(body, UpdateKeys)) else None
  }

  // ---------------------------------------------------------------------------
  // properties
  // ---------------------------------------------------------------------------

  /** Parsing is idempotent: a parsed body parses to itself. */
  lemma ParseCreateIdempotent(body: Body, isUrl: string -> bool)
    requires ParseCreate(body, isUrl).Some?
    ensures ParseCreate(ParseCreate(body, isUrl).value, isUrl) == ParseCreate(body, isUrl)
  {
    var p := ParseCreate(body, isUrl).value;
    assert Known(p, CreateKeys) == p;
  }

  /** Parsing an update is idempotent. */
  lemma ParseUpdateIdempotent(body: Body, isUrl: string -> bool)
    requires ParseUpdate(body, isUrl).Some?
    ensures ParseUpdate(ParseUpdate(body, isUrl).value, isUrl) == ParseUpdate(body, isUrl)
  {
    var p := ParseUpdate(body, isUrl).value;
    assert Known(p, UpdateKeys) == p;
  }

  /** Every field of a valid creation, without its code, is a valid update. */
  lemma CreateFieldsUpdate(body: Body, isUrl: string -> bool)
    requires ValidCreate(body, isUrl)
    ensures ValidUpdate(body - {"codigo"}, isUrl)
    ensures ParseUpdate(body, isUrl).Some?
  {
    var b := body - {"codigo"};
    assert b["nome"] == body["nome"];
  }

  /** The empty update is accepted: every field is optional. */
  lemma EmptyUpdateValid(isUrl: string -> bool)
    ensures ParseUpdate(map[], isUrl) == Some(map[])
  {
    assert Known(map[], UpdateKeys) == map[];
  }

  /** The empty string is accepted as an icon whatever the URL check says. */
  lemma EmptyIconAccepted(body: Body, isUrl: string -> bool)
    requires ValidCreate(body, isUrl)
    ensures ValidCreate(body["icone_url" := Str("")], isUrl)
  {
    var b := body["icone_url" := Str("")];
    assert b["codigo"] == body["codigo"] && b["nome"] == body["nome"];
  }

  /** The criterion text is not checked by the schema: any string passes. */
  lemma CriterionUnchecked(body: Body, isUrl: string -> bool, c: string)
    requires ValidCreate(body, isUrl)
    ensures ValidCreate(body["criterio" := Str(c)], isUrl)
  {
    var b := body["criterio" := Str(c)];
    assert b["codigo"] == body["codigo"] && b["nome"] == body["nome"];
  }

  /** A creation without a code, with an empty name, or with negative or fractional points is rejected. */
  lemma CreateRejects(body: Body, isUrl: string -> bool)
    requires "codigo" !in body
      || (body.Keys >= {"nome"} && body["nome"] == Str(""))
      || ("pontos_necessarios" in body && (body["pontos_necessarios"] == Fraction
          || (body["pontos_necessarios"].Int? && body["pontos_necessarios"].n < 0)))
    ensures ParseCreate(body, isUrl) == None
  {
  }
}
