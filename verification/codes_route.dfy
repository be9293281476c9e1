/**
 * POST /api/admin/codes: generating a batch of redemption codes, each the
 * optional prefix followed by a 10-character generated id, and storing them
 * in the redemption_codes table. The id generator is a parameter: `gen(k)`
 * is what the k-th call of the generator returns.
 */
module CodesRoute {
  import opened Common

  /** What one generator call returns: ten characters. */
  type Suffix = s: string | |s| == 10 witness "0000000000"

  /** The fields of the body the route reads; a missing or null field is None. */
  datatype CodeBody = CodeBody(
    points: Option<int>,
    count: Option<int>,
    prefix: Option<string>,
    description: Option<string>,
    expiresAt: Option<string>)

  /** A code as the handler builds it, before the insert assigns an id. */
  datatype NewCode = NewCode(code: string, points: int, description: Option<string>, expiresAt: Option<string>)

  datatype CodeRow = CodeRow(id: nat, code: string, points: int, description: Option<string>, expiresAt: Option<string>, isUsed: bool)

  datatype Response = Created(count: nat) | BadRequest(message: string) | ServerError

  const InvalidPointsMessage: string := "Invalid points"

  /** `!points || points <= 0` fails: points present and positive. */
  predicate ValidPoints(points: Option<int>) {
    points.Some? && points.value > 0
  }

  /** The length `Array.from({ length: count || 1 })` gets: a negative length is clamped to 0. */
  function BatchSize(count: Option<int>): (n: nat)
    ensures (count.None? || count == Some(0)) ==> n == 1
    ensures count.Some? && count.value > 0 ==> n == count.value
    ensures count.Some? && count.value < 0 ==> n == 0
  {
    match count
    case None => 1
    case Some(c) => if c == 0 then 1 else if c < 0 then 0 else c
  }

  /** The codes built from the body, using generator calls `start`, `start + 1`, .... */
  function NewCodes(body: CodeBody, gen: nat -> Suffix, start: nat): (r: seq<NewCode>)
    requires ValidPoints(body.points)
    ensures |r| == BatchSize(body.count)
    ensures forall i :: 0 <= i < |r| ==>
      && r[i].code == OrElse(body.prefix, "") + gen(start + i)
      && r[i].points == body.points.value
      && r[i].description == OrNull(body.description)
      && r[i].expiresAt == OrNull(body.expiresAt)
  {
    seq(BatchSize(body.count), i requires 0 <= i < BatchSize(body.count) =>
      NewCode(OrElse(body.prefix, "") + gen(start + i), body.points.value, OrNull(body.description), OrNull(body.expiresAt)))
  }

  /** Every code is the prefix (or nothing) followed by exactly ten generated characters. */
  lemma CodesCarryPrefix(body: CodeBody, gen: nat -> Suffix, start: nat, i: nat)
    requires ValidPoints(body.points) && i < BatchSize(body.count)
    ensures var c := NewCodes(body, gen, start)[i].code; var p := OrElse(body.prefix, "");
      |c| == |p| + 10 && c[..|p|] == p && (body.prefix.Some? ==> c[..|body.prefix.value|] == body.prefix.value)
  {
  }

  /** The rows an insert of `batch` stores, with serial ids from `firstId` on and nothing used. */
  function InsertedRows(firstId: nat, batch: seq<NewCode>): (r: seq<CodeRow>)
    ensures |r| == |batch|
    ensures forall i :: 0 <= i < |r| ==>
      r[i] == CodeRow(firstId + i, batch[i].code, batch[i].points, batch[i].description, batch[i].expiresAt, false)
  {
    seq(|batch|, i requires 0 <= i < |batch| =>
      CodeRow(firstId + i, batch[i].code, batch[i].points, batch[i].description, batch[i].expiresAt, false))
  }

  /** Ids are increasing and below the next serial value, which is at least 1. */
  predicate IdsBelow(rows: seq<CodeRow>, nextId: nat) {
    && (forall i, j :: 0 <= i < j < |rows| ==> rows[i].id < rows[j].id)
    && (forall i :: 0 <= i < |rows| ==> 1 <= rows[i].id < nextId)
    && nextId >= 1
  }

  /** Appending an insert's rows at the next serial value keeps the ids in order. */
  lemma InsertKeepsIds(rows: seq<CodeRow>, nextId: nat, batch: seq<NewCode>)
    requires IdsBelow(rows, nextId)
    ensures IdsBelow(rows + InsertedRows(nextId, batch), nextId + |batch|)
  {
    var all := rows + InsertedRows(nextId, batch);
    forall i | 0 <= i < |all| ensures 1 <= all[i].id < nextId + |batch| && (i < |rows| ==> all[i].id < nextId) && (i >= |rows| ==> all[i].id == nextId + i - |rows|) {
      if i >= |rows| {
        assert all[i] == InsertedRows(nextId, batch)[i - |rows|];
      }
    }
  }

  /** The redemption_codes table, appended to by POST. */
  class CodeTable {
    var rows: seq<CodeRow>
    var nextId: nat
    /** How many generator calls have been made so far. */
    var generated: nat

    ghost predicate Valid()
      reads this
    {
      IdsBelow(rows, nextId)
    }

    constructor ()
      ensures Valid() && rows == []
    {
      rows := [];
      nextId := 1;
      generated := 0;
    }

    /**
     * POST: rejects missing, zero or negative points; otherwise builds the
     * batch and inserts it. An empty batch (negative count) makes the insert
     * fail with nothing stored.
     */
    method Generate(body: CodeBody, gen: nat -> Suffix) returns (response: Response)
      requires Valid()
      modifies this
      ensures Valid()
      ensures !ValidPoints(body.points) ==>
        response == BadRequest(InvalidPointsMessage) && rows == old(rows) && nextId == old(nextId)
      ensures ValidPoints(body.points) && BatchSize(body.count) == 0 ==> response == ServerError && rows == old(rows)
      ensures response.Created? <==> ValidPoints(body.points) && BatchSize(body.count) > 0
      ensures !response.Created? ==> rows == old(rows) && nextId == old(nextId)
      ensures response.Created? ==> nextId == old(nextId) + response.count
      ensures response.Created? ==>
        var batch := NewCodes(body, gen, old(generated));
        response.count == |batch| && rows == old(rows) + InsertedRows(old(nextId), batch)
    {
      if !ValidPoints(body.points) {
        return BadRequest(InvalidPointsMessage);
      }
      var batch := NewCodes(body, gen, generated);
      generated := generated + |batch|;
      if batch == [] {
        return ServerError;
      }
      var stored := InsertedRows(nextId, batch);
      InsertKeepsIds(rows, nextId, batch);
      rows := rows + stored;
      nextId := nextId + |batch|;
      response := Created(|batch|);
    }
  }
}
