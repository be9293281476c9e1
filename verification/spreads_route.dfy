/**
 * POST /api/admin/spreads: creating one locale row of a spread, with its
 * positions, in the spreads and spread_positions tables. The tables are kept
 * in memory; ids are handed out the way a serial column does.
 */
module SpreadsRoute {
  import opened Common
  import Text

  /** A JSON value as the request body may carry it (arrays and objects aside). */
  datatype JsValue = Undefined | Null | Bool(b: bool) | Num(n: int) | Str(s: string)

  /** Number(v); None is NaN. */
  function ToNumber(v: JsValue): (r: Option<int>)
    ensures v.Undefined? ==> r.None?
    ensures v.Null? ==> r == Some(0)
    ensures v.Bool? ==> r == Some(if v.b then 1 else 0)
    ensures v.Num? ==> r == Some(v.n)
    ensures v.Str? ==> r == Text.StringToNumber(v.s)
  {
    match v
    case Undefined => None
    case Null => Some(0)
    case Bool(b) => Some(if b then 1 else 0)
    case Num(n) => Some(n)
    case Str(s) => Text.StringToNumber(s)
  }

  /** `Number(v) || 0`: NaN falls back to 0, every other number is kept. */
  function Coordinate(v: JsValue): (r: int)
    ensures ToNumber(v) == Some(r) || (ToNumber(v).None? && r == 0)
  {
    match ToNumber(v)
    case Some(n) => n
    case None => 0
  }

  /** A coordinate sent as a number or as its decimal string is stored as that number. */
  lemma CoordinateKeepsIntegers(n: int)
    ensures Coordinate(Num(n)) == n
    ensures Coordinate(Str(Text.IntToString(n))) == n
  {
    Text.NumberOfString(n);
  }

  /** A missing coordinate or one that is not a number is stored as 0. */
  lemma CoordinateDefaultsToZero()
    ensures Coordinate(Undefined) == 0 && Coordinate(Null) == 0 && Coordinate(Str("")) == 0
  {
    assert Text.Trim("") == "";
  }

  /** One element of the `positions` array of the body. */
  datatype RawPosition = RawPosition(
    positionIndex: Option<string>,
    name: Option<string>,
    description: Option<string>,
    x: JsValue,
    y: JsValue)

  /** The fields of the body the route reads; a missing or null field is None. */
  datatype SpreadBody = SpreadBody(
    slug: Option<string>,
    lang: Option<string>,
    name: Option<string>,
    description: Option<string>,
    detail: Option<string>,
    difficulty: Option<string>,
    recommended: Option<bool>,
    tags: Option<seq<string>>,
    positions: Option<seq<RawPosition>>)

  datatype SpreadRow = SpreadRow(
    id: nat,
    slug: string,
    lang: string,
    name: string,
    description: string,
    detail: Option<string>,
    difficulty: Option<string>,
    recommended: bool,
    tags: seq<string>)

  datatype PositionRow = PositionRow(
    id: nat,
    spreadId: nat,
    positionIndex: string,
    name: string,
    description: string,
    x: int,
    y: int)

  datatype Response = Created(row: SpreadRow) | BadRequest(message: string) | ServerError

  const RequiredMessage: string := "Slug, name, and description are required"
  const DuplicateMessage: string := "Spread with this slug and language already exists"

  /** Both tables and the next value of each serial id column. */
  datatype Tables = Tables(
    spreads: seq<SpreadRow>,
    positions: seq<PositionRow>,
    nextSpreadId: nat,
    nextPositionId: nat)

  predicate Taken(spreads: seq<SpreadRow>, slug: string, lang: string) {
    exists i :: 0 <= i < |spreads| && spreads[i].slug == slug && spreads[i].lang == lang
  }

  predicate HasSpread(spreads: seq<SpreadRow>, id: nat) {
    exists i :: 0 <= i < |spreads| && spreads[i].id == id
  }

  /**
   * The tables as the schema keeps them: (slug, lang) unique, ids increasing
   * and below the next serial value, every position pointing at a spread.
   */
  predicate Consistent(t: Tables) {
    SpreadsConsistent(t.spreads, t.nextSpreadId) && PositionsConsistent(t.positions, t.nextPositionId, t.spreads)
  }

  predicate SpreadsConsistent(spreads: seq<SpreadRow>, nextSpreadId: nat) {
    && (forall i, j :: 0 <= i < j < |spreads| ==>
          !(spreads[i].slug == spreads[j].slug && spreads[i].lang == spreads[j].lang))
    && (forall i, j :: 0 <= i < j < |spreads| ==> spreads[i].id < spreads[j].id)
    && (forall i :: 0 <= i < |spreads| ==> 1 <= spreads[i].id < nextSpreadId)
    && nextSpreadId >= 1
  }

  predicate PositionsConsistent(positions: seq<PositionRow>, nextPositionId: nat, spreads: seq<SpreadRow>) {
    && (forall i, j :: 0 <= i < j < |positions| ==> positions[i].id < positions[j].id)
    && (forall i :: 0 <= i < |positions| ==> 1 <= positions[i].id < nextPositionId)
    && (forall i :: 0 <= i < |positions| ==> HasSpread(spreads, positions[i].spreadId))
    && nextPositionId >= 1
  }

  /** Every position has a value for each NOT NULL text column. */
  predicate AllComplete(raw: seq<RawPosition>) {
    forall i :: 0 <= i < |raw| ==> raw[i].positionIndex.Some? && raw[i].name.Some? && raw[i].description.Some?
  }

  /** The row inserted for a valid body. */
  function NewSpreadRow(id: nat, body: SpreadBody): (row: SpreadRow)
    requires Truthy(body.slug) && Truthy(body.name) && Truthy(body.description)
    ensures row.id == id && row.slug == body.slug.value && row.name == body.name.value
    ensures row.description == body.description.value
    ensures row.lang == OrElse(body.lang, "en") && row.lang != ""
    ensures row.recommended <==> body.recommended == Some(true)
    ensures row.tags == body.tags.GetOr([])
  {
    SpreadRow(id, body.slug.value, OrElse(body.lang, "en"), body.name.value, body.description.value,
              body.detail, body.difficulty, body.recommended == Some(true), body.tags.GetOr([]))
  }

  /** `positions.map(p => ({ spreadId, ...p, x: Number(p.x) || 0, y: Number(p.y) || 0 }))` with serial ids. */
  function PositionRows(firstId: nat, spreadId: nat, raw: seq<RawPosition>): (r: seq<PositionRow>)
    requires AllComplete(raw)
    ensures |r| == |raw|
    ensures forall i :: 0 <= i < |r| ==>
      && r[i].id == firstId + i && r[i].spreadId == spreadId
      && r[i].positionIndex == raw[i].positionIndex.value && r[i].name == raw[i].name.value
      && r[i].description == raw[i].description.value
      && r[i].x == Coordinate(raw[i].x) && r[i].y == Coordinate(raw[i].y)
  {
    seq(|raw|, i requires 0 <= i < |raw| =>
      PositionRow(firstId + i, spreadId, raw[i].positionIndex.value, raw[i].name.value,
                  raw[i].description.value, Coordinate(raw[i].x), Coordinate(raw[i].y)))
  }

  datatype PostResult = PostResult(response: Response, tables: Tables)

  /**
   * The POST handler on the tables: validation, the (slug, lang) check, the
   * spread insert, then the position insert. A position with a missing text
   * column makes the second insert fail after the spread row is stored.
   */
  function Post(t: Tables, body: SpreadBody): (r: PostResult)
    ensures !(Truthy(body.slug) && Truthy(body.name) && Truthy(body.description)) ==>
      r == PostResult(BadRequest(RequiredMessage), t)
    ensures (Truthy(body.slug) && Truthy(body.name) && Truthy(body.description) &&
             Taken(t.spreads, body.slug.value, OrElse(body.lang, "en"))) ==>
      r == PostResult(BadRequest(DuplicateMessage), t)
    ensures (Truthy(body.slug) && Truthy(body.name) && Truthy(body.description) &&
             !Taken(t.spreads, body.slug.value, OrElse(body.lang, "en"))) ==>
      && r.tables.spreads == t.spreads + [NewSpreadRow(t.nextSpreadId, body)]
      && r.tables.nextSpreadId == t.nextSpreadId + 1
      && (r.response == Created(NewSpreadRow(t.nextSpreadId, body)) <==> AllComplete(body.positions.GetOr([])))
      && (!AllComplete(body.positions.GetOr([])) ==>
            r.response == ServerError && r.tables.positions == t.positions && r.tables.nextPositionId == t.nextPositionId)
      && (AllComplete(body.positions.GetOr([])) ==>
            && r.tables.positions == t.positions + PositionRows(t.nextPositionId, t.nextSpreadId, body.positions.GetOr([]))
            && r.tables.nextPositionId == t.nextPositionId + |body.positions.GetOr([])|)
    ensures r.response.BadRequest? ==> r.tables == t
    ensures r.response.BadRequest? || r.tables.spreads == t.spreads + [NewSpreadRow(t.nextSpreadId, body)]
    ensures r.response.Created? ==> r.response.row == NewSpreadRow(t.nextSpreadId, body)
    ensures r.response.ServerError? ==> r.tables.positions == t.positions && !AllComplete(body.positions.GetOr([]))
  {
    if !(Truthy(body.slug) && Truthy(body.name) && Truthy(body.description)) then
      PostResult(BadRequest(RequiredMessage), t)
    else if Taken(t.spreads, body.slug.value, OrElse(body.lang, "en")) then
      PostResult(BadRequest(DuplicateMessage), t)
    else
      var response := if AllComplete(body.positions.GetOr([])) then Created(NewSpreadRow(t.nextSpreadId, body)) else ServerError;
      PostResult(response, Stored(t, body))
  }

  /**
   * The tables after the inserts of an accepted POST: the spread row, then the
   * position rows unless one of them fails (an empty array inserts none).
   */
  function Stored(t: Tables, body: SpreadBody): (r: Tables)
    requires Truthy(body.slug) && Truthy(body.name) && Truthy(body.description)
    ensures r.spreads == t.spreads + [NewSpreadRow(t.nextSpreadId, body)] && r.nextSpreadId == t.nextSpreadId + 1
  {
    var row := NewSpreadRow(t.nextSpreadId, body);
    var withSpread := t.(spreads := t.spreads + [row], nextSpreadId := t.nextSpreadId + 1);
    var raw := body.positions.GetOr([]);
    if raw != [] && AllComplete(raw) then
      withSpread.(
        positions := t.positions + PositionRows(t.nextPositionId, row.id, raw),
        nextPositionId := t.nextPositionId + |raw|)
    else withSpread
  }

  /** A successful POST with a non-empty positions array stores one row per element, all for the new spread. */
  lemma PostStoresPositions(t: Tables, body: SpreadBody)
    requires Post(t, body).response.Created?
    ensures var r := Post(t, body); var raw := body.positions.GetOr([]);
      && |r.tables.positions| == |t.positions| + |raw|
      && r.tables.positions[..|t.positions|] == t.positions
      && forall i :: 0 <= i < |raw| ==>
        var p := r.tables.positions[|t.positions| + i];
        p.spreadId == r.response.row.id && p.x == Coordinate(raw[i].x) && p.y == Coordinate(raw[i].y)
        && p.positionIndex == raw[i].positionIndex.value && p.name == raw[i].name.value
        && p.description == raw[i].description.value && p.id == t.nextPositionId + i
    ensures var r := Post(t, body); var raw := body.positions.GetOr([]);
      && r.tables.positions == t.positions + PositionRows(t.nextPositionId, r.response.row.id, raw)
      && r.tables.nextPositionId == t.nextPositionId + |raw|
  {
  }

  /** POST keeps the tables consistent, in particular (slug, lang) stays unique. */
  lemma PostPreservesConsistency(t: Tables, body: SpreadBody)
    requires Consistent(t)
    ensures Consistent(Post(t, body).tables)
  {
    if Truthy(body.slug) && Truthy(body.name) && Truthy(body.description)
       && !Taken(t.spreads, body.slug.value, OrElse(body.lang, "en")) {
      StoredConsistent(t, body);
    }
  }

  lemma StoredConsistent(t: Tables, body: SpreadBody)
    requires Consistent(t)
    requires Truthy(body.slug) && Truthy(body.name) && Truthy(body.description)
    requires !Taken(t.spreads, body.slug.value, OrElse(body.lang, "en"))
    ensures Consistent(Stored(t, body))
  {
    var row := NewSpreadRow(t.nextSpreadId, body);
    var withSpread := t.(spreads := t.spreads + [row], nextSpreadId := t.nextSpreadId + 1);
    AddSpreadKeepsConsistent(t, row);
    var raw := body.positions.GetOr([]);
    if raw != [] && AllComplete(raw) {
      assert withSpread.spreads[|t.spreads|] == row;
      AddPositionsKeepsConsistent(withSpread, row.id, raw);
      assert Stored(t, body) == withSpread.(
        positions := t.positions + PositionRows(t.nextPositionId, row.id, raw),
        nextPositionId := t.nextPositionId + |raw|);
    } else {
      assert Stored(t, body) == withSpread;
    }
  }

  lemma AddSpreadKeepsConsistent(t: Tables, row: SpreadRow)
    requires Consistent(t) && row.id == t.nextSpreadId && !Taken(t.spreads, row.slug, row.lang)
    ensures Consistent(t.(spreads := t.spreads + [row], nextSpreadId := t.nextSpreadId + 1))
  {
    var spreads := t.spreads + [row];
    forall i | 0 <= i < |t.positions| ensures HasSpread(spreads, t.positions[i].spreadId) {
      var k :| 0 <= k < |t.spreads| && t.spreads[k].id == t.positions[i].spreadId;
      assert spreads[k] == t.spreads[k];
    }
  }

  lemma AddPositionsKeepsConsistent(t: Tables, spreadId: nat, raw: seq<RawPosition>)
    requires Consistent(t) && HasSpread(t.spreads, spreadId) && AllComplete(raw)
    ensures Consistent(t.(positions := t.positions + PositionRows(t.nextPositionId, spreadId, raw),
                          nextPositionId := t.nextPositionId + |raw|))
  {
  }

  /** The spreads and spread_positions tables, changed in place by the POST handler. */
  class SpreadTable {
    var spreads: seq<SpreadRow>
    var positions: seq<PositionRow>
    var nextSpreadId: nat
    var nextPositionId: nat

    function Snapshot(): Tables
      reads this
    {
      Tables(spreads, positions, nextSpreadId, nextPositionId)
    }

    ghost predicate Valid()
      reads this
    {
      Consistent(Snapshot())
    }

    constructor ()
      ensures Valid() && spreads == [] && positions == []
    {
      spreads := [];
      positions := [];
      nextSpreadId := 1;
      nextPositionId := 1;
    }

    method Create(body: SpreadBody) returns (response: Response)
      requires Valid()
      modifies this
      ensures Valid()
      ensures PostResult(response, Snapshot()) == Post(old(Snapshot()), body)
    {
      ghost var before := Snapshot();
      PostPreservesConsistency(before, body);
      if !(Truthy(body.slug) && Truthy(body.name) && Truthy(body.description)) {
        return BadRequest(RequiredMessage);
      }
      if Taken(spreads, body.slug.value, OrElse(body.lang, "en")) {
        return BadRequest(DuplicateMessage);
      }
      var row := NewSpreadRow(nextSpreadId, body);
      spreads := spreads + [row];
      nextSpreadId := nextSpreadId + 1;
      var raw := body.positions.GetOr([]);
      if raw != [] {
        if !AllComplete(raw) {
          assert Snapshot() == Stored(before, body);
          return ServerError;
        }
        positions := positions + PositionRows(nextPositionId, row.id, raw);
        nextPositionId := nextPositionId + |raw|;
      }
      assert Snapshot() == Stored(before, body);
      response := Created(row);
    }
  }
}
