/**
 * The spread editor form: two locale drafts ("en" and "zh") of one spread,
 * their position lists edited slot by slot, the layout copied from the active
 * locale to the other, tags kept as one comma-separated string, and the save
 * and delete request sequences.
 */
module EditForm {
  import opened Common
  import Text
  import opened Positions

  datatype Locale = En | Zh

  function LangCode(lang: Locale): string {
    match lang
    case En => "en"
    case Zh => "zh"
  }

  function Other(lang: Locale): (r: Locale)
    ensures r != lang
  {
    if lang == En then Zh else En
  }

  /** A spread row as the page loads it, with its positions. */
  datatype LoadedSpread = LoadedSpread(
    id: int,
    slug: string,
    lang: string,
    name: string,
    description: string,
    detail: Option<string>,
    difficulty: Option<string>,
    recommended: Option<bool>,
    tags: Option<seq<string>>,
    positions: seq<Position>)

  /** One locale's editable form state. */
  datatype Draft = Draft(
    id: Option<int>,
    name: string,
    description: string,
    detail: string,
    difficulty: string,
    tags: string,
    positions: seq<Position>)

  // ---- position list transforms --------------------------------------------

  /** A fresh slot appended to a list of `n` slots: label String(n + 1), no text, at (0, 0). */
  function NewSlot(n: nat): Position {
    Position(None, Text.NatToString(n + 1), "", "", 0, 0)
  }

  /** `[...positions, newPos]`: one slot more, everything before it unchanged. */
  function AddSlot(positions: seq<Position>): (r: seq<Position>)
    ensures |r| == |positions| + 1 && r[..|positions|] == positions
    ensures r[|positions|] == NewSlot(|positions|)
    ensures Key(r[|positions|]) == Some(|positions| + 1)
  {
    Text.ParseIntToString(|positions| + 1);
    positions + [NewSlot(|positions|)]
  }

  /** `positions.filter((_, i) => i !== index)`, read from element number `from` on. */
  function DropIndex(positions: seq<Position>, index: int, from: int): (r: seq<Position>)
    ensures from <= index < from + |positions| ==>
      r == positions[..index - from] + positions[index - from + 1..]
    ensures !(from <= index < from + |positions|) ==> r == positions
  {
    if positions == [] then []
    else
      var rest := DropIndex(positions[1..], index, from + 1);
      assert positions == [positions[0]] + positions[1..];
      if from == index then rest else [positions[0]] + rest
  }

  /**
   * Removes the slot at `index`, keeping the others in order with their labels;
   * an index outside the list removes nothing.
   */
  function RemoveSlot(positions: seq<Position>, index: int): (r: seq<Position>)
    ensures 0 <= index < |positions| ==> |r| == |positions| - 1
    ensures 0 <= index < |positions| ==> forall j :: 0 <= j < |r| ==>
      r[j] == positions[if j < index then j else j + 1]
    ensures !(0 <= index < |positions|) ==> r == positions
  {
    DropIndex(positions, index, 0)
  }

  /** Adding a slot and then removing it gives back the original list. */
  lemma AddThenRemove(positions: seq<Position>)
    ensures RemoveSlot(AddSlot(positions), |positions|) == positions
  {
    var added := AddSlot(positions);
    assert added[..|positions|] == positions;
  }

  /** The fields of a slot that the form edits. */
  datatype Field = IndexField | NameField | DescriptionField | XField | YField

  /** An edit of one field of one slot. */
  datatype PositionEdit =
    | SetIndex(newIndex: string)
    | SetName(text: string)
    | SetDescription(text: string)
    | SetX(value: int)
    | SetY(value: int)
  {
    function FieldOf(): Field {
      match this
      case SetIndex(_) => IndexField
      case SetName(_) => NameField
      case SetDescription(_) => DescriptionField
      case SetX(_) => XField
      case SetY(_) => YField
    }
  }

  /** `p` and `q` agree on the id and on every edited field except `f`. */
  predicate AgreeExcept(p: Position, q: Position, f: Field) {
    && p.id == q.id
    && (f != IndexField ==> p.positionIndex == q.positionIndex)
    && (f != NameField ==> p.name == q.name)
    && (f != DescriptionField ==> p.description == q.description)
    && (f != XField ==> p.x == q.x)
    && (f != YField ==> p.y == q.y)
  }

  /** `q` holds the value the edit writes. */
  predicate Carries(q: Position, e: PositionEdit) {
    match e
    case SetIndex(v) => q.positionIndex == v
    case SetName(v) => q.name == v
    case SetDescription(v) => q.description == v
    case SetX(v) => q.x == v
    case SetY(v) => q.y == v
  }

  /** `{ ...p, [field]: value }`. */
  function ApplyEdit(p: Position, e: PositionEdit): (q: Position)
    ensures AgreeExcept(p, q, e.FieldOf()) && Carries(q, e)
  {
    match e
    case SetIndex(v) => p.(positionIndex := v)
    case SetName(v) => p.(name := v)
    case SetDescription(v) => p.(description := v)
    case SetX(v) => p.(x := v)
    case SetY(v) => p.(y := v)
  }

  /** An edit is determined by its field and the value it leaves behind. */
  lemma ApplyEditDetermined(p: Position, q: Position, e: PositionEdit)
    requires AgreeExcept(p, q, e.FieldOf()) && Carries(q, e)
    ensures q == ApplyEdit(p, e)
  {
  }

  /**
   * The layout of `source` with the text of `target` laid over it slot by slot:
   * label and coordinates from source[i], name, description and id from
   * target[i] where the target has an i-th slot, blank otherwise.
   */
  function SyncPositions(source: seq<Position>, target: seq<Position>): (r: seq<Position>)
    ensures |r| == |source|
    ensures forall i :: 0 <= i < |r| ==>
      && r[i].positionIndex == source[i].positionIndex
      && r[i].x == source[i].x && r[i].y == source[i].y
    ensures forall i :: 0 <= i < |r| && i < |target| ==>
      r[i].name == target[i].name && r[i].description == target[i].description && r[i].id == target[i].id
    ensures forall i :: |target| <= i < |r| ==>
      r[i].name == "" && r[i].description == "" && r[i].id == None
  {
    seq(|source|, i requires 0 <= i < |source| =>
      var t := if i < |target| then Some(target[i]) else None;
      Position(
        if t.Some? then t.value.id else None,
        source[i].positionIndex,
        if t.Some? then t.value.name else "",
        if t.Some? then t.value.description else "",
        source[i].x,
        source[i].y))
  }

  /** Label and coordinates of a slot: what a layout sync copies. */
  function Geometry(p: Position): (string, int, int) {
    (p.positionIndex, p.x, p.y)
  }

  /** Locale text and row id of a slot: what a layout sync keeps. */
  function Wording(p: Position): (Option<int>, string, string) {
    (p.id, p.name, p.description)
  }

  /** After a sync both lists have the same layout. */
  lemma SyncCopiesLayout(source: seq<Position>, target: seq<Position>)
    ensures var r := SyncPositions(source, target);
      |r| == |source| && forall i :: 0 <= i < |r| ==> Geometry(r[i]) == Geometry(source[i])
  {
  }

  /** A sync between lists of equal length loses no text. */
  lemma SyncSameLengthKeepsText(source: seq<Position>, target: seq<Position>)
    requires |source| == |target|
    ensures var r := SyncPositions(source, target);
      forall i :: 0 <= i < |r| ==> Wording(r[i]) == Wording(target[i])
  {
  }

  /** Syncing twice is the same as syncing once. */
  lemma SyncIdempotent(source: seq<Position>, target: seq<Position>)
    ensures SyncPositions(source, SyncPositions(source, target)) == SyncPositions(source, target)
  {
    var once := SyncPositions(source, target);
    var twice := SyncPositions(source, once);
    forall i | 0 <= i < |once| ensures twice[i] == once[i] {
      assert Wording(twice[i]) == Wording(once[i]);
    }
  }

  /** Syncing the result back onto the source leaves the source exactly as it was. */
  lemma SyncBackRestoresSource(source: seq<Position>, target: seq<Position>)
    ensures SyncPositions(SyncPositions(source, target), source) == source
  {
    var there := SyncPositions(source, target);
    var back := SyncPositions(there, source);
    forall i | 0 <= i < |source| ensures back[i] == source[i] {
      assert Geometry(back[i]) == Geometry(source[i]) && Wording(back[i]) == Wording(source[i]);
    }
  }

  // ---- tags -----------------------------------------------------------------

  /** `tags.join(', ')`: how the form shows a spread's tags. */
  function JoinTags(tags: seq<string>): (r: string)
    ensures tags == [] ==> r == ""
    ensures |tags| == 1 ==> r == tags[0]
  {
    Text.Join(tags, ", ")
  }

  /** No piece holds a comma: what splitting at commas gives. */
  predicate CommaFree(pieces: seq<string>)
  {
    forall i :: 0 <= i < |pieces| ==> ',' !in pieces[i]
  }

  lemma CommaFreeAppend(a: seq<string>, b: seq<string>)
    requires CommaFree(a) && CommaFree(b)
    ensures CommaFree(a + b)
  {
    forall i | 0 <= i < |a + b| ensures ',' !in (a + b)[i] {
      if i < |a| { assert (a + b)[i] == a[i]; } else { assert (a + b)[i] == b[i - |a|]; }
    }
  }

  /** `.map(t => t.trim())`: every piece trimmed, in place. */
  function TrimAll(pieces: seq<string>): (r: seq<string>)
    ensures |r| == |pieces|
    ensures forall i :: 0 <= i < |r| ==> r[i] == Text.Trim(pieces[i])
  {
    seq(|pieces|, i requires 0 <= i < |pieces| => Text.Trim(pieces[i]))
  }

  /** `.filter(Boolean)` on strings: the non-empty ones, in their order. */
  function DropEmpty(xs: seq<string>): (r: seq<string>)
    ensures |r| <= |xs|
    ensures forall i :: 0 <= i < |r| ==> r[i] != "" && r[i] in xs
  {
    if xs == [] then [] else (if xs[0] == "" then [] else [xs[0]]) + DropEmpty(xs[1..])
  }

  /** Trimmed comma-free pieces are trimmed and still comma-free. */
  lemma TrimAllClean(pieces: seq<string>)
    requires CommaFree(pieces)
    ensures forall i :: 0 <= i < |pieces| ==> Text.IsTrimmed(TrimAll(pieces)[i]) && ',' !in TrimAll(pieces)[i]
  {
    forall i | 0 <= i < |pieces|
      ensures Text.IsTrimmed(TrimAll(pieces)[i]) && ',' !in TrimAll(pieces)[i]
    {
      TrimIsInfix(pieces[i], ',');
    }
  }

  /** Each piece trimmed, empty ones dropped. */
  function CleanPieces(pieces: seq<string>): (r: seq<string>)
    requires CommaFree(pieces)
    ensures |r| <= |pieces|
    ensures forall i :: 0 <= i < |r| ==> r[i] != "" && Text.IsTrimmed(r[i]) && ',' !in r[i]
  {
    TrimAllClean(pieces);
    DropEmpty(TrimAll(pieces))
  }

  /** `tags.split(',').map(t => t.trim()).filter(Boolean)`: only non-empty, trimmed tags. */
  function ParseTags(s: string): (r: seq<string>)
    ensures forall i :: 0 <= i < |r| ==> r[i] != "" && Text.IsTrimmed(r[i]) && ',' !in r[i]
  {
    CleanPieces(Text.Split(s, ','))
  }

  /** A single piece contributes its trimmed text, unless that is empty. */
  lemma CleanPiecesSingle(piece: string)
    requires ',' !in piece
    ensures CleanPieces([piece]) == if Text.Trim(piece) == "" then [] else [Text.Trim(piece)]
  {
    var t := Text.Trim(piece);
    assert TrimAll([piece]) == [t];
    assert [t][1..] == [];
  }

  /** Cleaning works piece by piece: the surviving tags keep the order of the pieces. */
  lemma CleanPiecesAppend(a: seq<string>, b: seq<string>)
    requires CommaFree(a) && CommaFree(b)
    ensures CommaFree(a + b) && CleanPieces(a + b) == CleanPieces(a) + CleanPieces(b)
  {
    CommaFreeAppend(a, b);
    assert TrimAll(a + b) == TrimAll(a) + TrimAll(b);
    DropEmptyAppend(TrimAll(a), TrimAll(b));
  }

  lemma {:induction false} DropEmptyAppend(a: seq<string>, b: seq<string>)
    ensures DropEmpty(a + b) == DropEmpty(a) + DropEmpty(b)
  {
    if a == [] {
      assert a + b == b;
    } else {
      var head := if a[0] == "" then [] else [a[0]];
      assert (a + b)[0] == a[0];
      assert (a + b)[1..] == a[1..] + b;
      DropEmptyAppend(a[1..], b);
      assert head + (DropEmpty(a[1..]) + DropEmpty(b)) == (head + DropEmpty(a[1..])) + DropEmpty(b);
    }
  }

  /** Filtering strings none of which is empty keeps them all. */
  lemma {:induction false} DropEmptyKeepsAll(xs: seq<string>)
    requires forall i :: 0 <= i < |xs| ==> xs[i] != ""
    ensures DropEmpty(xs) == xs
  {
    if xs != [] {
      DropEmptyKeepsAll(xs[1..]);
      assert xs == [xs[0]] + xs[1..];
    }
  }

  /**
   * Whatever an admin types is its comma-free pieces joined by commas, and
   * parsing it keeps exactly the pieces that do not trim to nothing, trimmed,
   * in order: with CleanPiecesAppend and CleanPiecesSingle this says which
   * tags "love, , career" gives.
   */
  lemma ParseTagsOfPieces(pieces: seq<string>)
    requires |pieces| >= 1
    requires CommaFree(pieces)
    ensures ParseTags(Text.Join(pieces, [','])) == CleanPieces(pieces)
  {
    Text.SplitJoin(pieces, ',');
  }

  /** Pieces that trim to non-empty tags clean up to exactly those tags. */
  lemma CleanPiecesExact(pieces: seq<string>, tags: seq<string>)
    requires CommaFree(pieces)
    requires |pieces| == |tags|
    requires forall i :: 0 <= i < |tags| ==> tags[i] != "" && Text.Trim(pieces[i]) == tags[i]
    ensures CleanPieces(pieces) == tags
  {
    assert TrimAll(pieces) == tags;
    DropEmptyKeepsAll(tags);
  }

  /** Trimming only removes characters. */
  lemma TrimIsInfix(s: string, c: char)
    requires c !in s
    ensures c !in Text.Trim(s)
  {
    var t := Text.TrimStart(s);
    SliceKeepsOut(s, |s| - |t|, |s|, c);
    SliceKeepsOut(t, 0, |Text.TrimEnd(t)|, c);
  }

  lemma SliceKeepsOut(s: string, i: int, j: int, c: char)
    requires 0 <= i <= j <= |s| && c !in s
    ensures c !in s[i..j]
  {
    assert forall k :: 0 <= k < j - i ==> s[i..j][k] == s[i + k];
  }

  /** Tags that are well formed are what a tag list is made of. */
  predicate WellFormedTag(t: string) {
    t != "" && ',' !in t && Text.IsTrimmed(t)
  }

  /** Every piece with a space in front. */
  function Spaced(xs: seq<string>): (r: seq<string>)
    ensures |r| == |xs|
    ensures forall i :: 0 <= i < |r| ==> r[i] == " " + xs[i]
  {
    if xs == [] then [] else [" " + xs[0]] + Spaced(xs[1..])
  }

  /** The tags after the first, each preceded by the space of the ", " separator. */
  function Padded(tags: seq<string>): (r: seq<string>)
    requires |tags| >= 1
    ensures |r| == |tags| && r[0] == tags[0]
    ensures forall i :: 1 <= i < |r| ==> r[i] == " " + tags[i]
  {
    [tags[0]] + Spaced(tags[1..])
  }

  lemma {:induction false} JoinPadded(tags: seq<string>)
    requires |tags| >= 1
    ensures Text.Join(tags, ", ") == Text.Join(Padded(tags), ",")
  {
    if |tags| > 1 {
      var p, q := Padded(tags), Padded(tags[1..]);
      JoinPadded(tags[1..]);
      PaddedTail(tags);
      var t, j := tags[0], Text.Join(q, ",");
      assert "," + " " == ", ";
      calc {
        Text.Join(p, ",");
        p[0] + "," + Text.Join(p[1..], ",");
        { JoinHeadPrefix(" ", q); }
        (t + ",") + (" " + j);
        { AppendAssoc(t + ",", " ", j); }
        ((t + ",") + " ") + j;
        { AppendAssoc(t, ",", " "); }
        (t + ", ") + j;
        Text.Join(tags, ", ");
      }
    }
  }

  /** Past its head, the padding of a tag list is the padding of its tail with a space before the first. */
  lemma PaddedTail(tags: seq<string>)
    requires |tags| > 1
    ensures Padded(tags)[1..] == [" " + Padded(tags[1..])[0]] + Padded(tags[1..])[1..]
  {
    assert Padded(tags)[1..] == Spaced(tags[1..]);
    assert tags[1..][1..] == tags[2..];
    assert Padded(tags[1..])[1..] == Spaced(tags[2..]);
  }

  /** Prefixing the first piece prefixes the joined string. */
  lemma JoinHeadPrefix(pre: string, xs: seq<string>)
    requires |xs| >= 1
    ensures Text.Join([pre + xs[0]] + xs[1..], ",") == pre + Text.Join(xs, ",")
  {
    var ys := [pre + xs[0]] + xs[1..];
    assert ys[0] == pre + xs[0] && ys[1..] == xs[1..];
    if |xs| > 1 {
      var rest := Text.Join(xs[1..], ",");
      assert Text.Join(ys, ",") == (pre + xs[0]) + "," + rest;
      assert Text.Join(xs, ",") == xs[0] + "," + rest;
      AppendAssoc(pre, xs[0] + ",", rest);
      assert pre + xs[0] + "," == pre + (xs[0] + ",");
    }
  }

  /**
   * Parsing the ", "-joined form of well-formed tags gives the same tags back,
   * so loading a spread and saving it unchanged keeps its tag list.
   */
  lemma TagsRoundTrip(tags: seq<string>)
    requires forall i :: 0 <= i < |tags| ==> WellFormedTag(tags[i])
    ensures ParseTags(JoinTags(tags)) == tags
  {
    if tags == [] {
      assert Text.Split("", ',') == [""];
      assert Text.Trim("") == "";
    } else {
      var padded := Padded(tags);
      JoinPadded(tags);
      PaddedPieces(tags);
      Text.SplitJoin(padded, ',');
      assert Text.Split(JoinTags(tags), ',') == padded;
      CleanPiecesExact(padded, tags);
    }
  }

  /** The padded pieces hold no comma, and trimming each gives its tag back. */
  lemma PaddedPieces(tags: seq<string>)
    requires |tags| >= 1
    requires forall i :: 0 <= i < |tags| ==> WellFormedTag(tags[i])
    ensures forall i :: 0 <= i < |tags| ==> ',' !in Padded(tags)[i]
    ensures forall i :: 0 <= i < |tags| ==> Text.Trim(Padded(tags)[i]) == tags[i]
  {
    var padded := Padded(tags);
    forall i | 0 <= i < |tags|
      ensures ',' !in padded[i] && Text.Trim(padded[i]) == tags[i]
    {
      var pad := if i == 0 then "" else " ";
      assert padded[i] == pad + tags[i];
      assert ',' !in pad;
      Text.TrimAfterPadding(pad, tags[i]);
    }
  }

  // ---- loading --------------------------------------------------------------

  /** `spreads.find(s => s.lang === lang)`: the first loaded row in that language. */
  function FindLang(spreads: seq<LoadedSpread>, lang: string): (r: Option<LoadedSpread>)
    ensures r.None? <==> forall i :: 0 <= i < |spreads| ==> spreads[i].lang != lang
    ensures r.Some? ==> r.value.lang == lang
    ensures r.Some? ==>
      exists i :: 0 <= i < |spreads| && spreads[i] == r.value && forall j :: 0 <= j < i ==> spreads[j].lang != lang
  {
    if spreads == [] then None
    else if spreads[0].lang == lang then Some(spreads[0])
    else
      var r := FindLang(spreads[1..], lang);
      assert forall i :: 1 <= i < |spreads| ==> spreads[i] == spreads[1..][i - 1];
      r
  }

  /** The form state a loaded row (or its absence) starts a draft with. */
  function DraftOf(s: Option<LoadedSpread>): (d: Draft)
    ensures s.None? ==> d == Draft(None, "", "", "", "", "", [])
    ensures s.Some? ==> (d.id == Some(s.value.id) && d.name == s.value.name &&
      d.description == s.value.description && d.positions == s.value.positions)
    ensures s.Some? ==> d.detail == s.value.detail.GetOr("") && d.difficulty == s.value.difficulty.GetOr("")
    ensures s.Some? ==> d.tags == (if s.value.tags.Some? then JoinTags(s.value.tags.value) else "")
  {
    match s
    case None => Draft(None, "", "", "", "", "", [])
    case Some(row) =>
      var tags := if row.tags.Some? then JoinTags(row.tags.value) else "";
      Draft(Some(row.id), row.name, row.description, row.detail.GetOr(""), row.difficulty.GetOr(""), tags, row.positions)
  }

  /** A draft opened from a row with well-formed tags saves exactly those tags back. */
  lemma LoadedTagsSurviveSave(row: LoadedSpread, slug: string, recommended: bool, lang: Locale)
    requires row.tags.Some? && forall i :: 0 <= i < |row.tags.value| ==> WellFormedTag(row.tags.value[i])
    ensures SaveRequestFor(slug, recommended, lang, DraftOf(Some(row))).payload.tags == row.tags.value
  {
    TagsRoundTrip(row.tags.value);
  }

  /** `enSpread || zhSpread || spreads[0]`: the row that supplies the shared slug and flag. */
  function DefaultSpread(spreads: seq<LoadedSpread>): (r: Option<LoadedSpread>)
    ensures r.None? <==> spreads == []
    ensures r.Some? ==> r.value in spreads
    ensures FindLang(spreads, "en").Some? ==> r == FindLang(spreads, "en")
    ensures FindLang(spreads, "en").None? && FindLang(spreads, "zh").Some? ==> r == FindLang(spreads, "zh")
    ensures FindLang(spreads, "en").None? && FindLang(spreads, "zh").None? && spreads != [] ==> r == Some(spreads[0])
  {
    var en := FindLang(spreads, "en");
    var zh := FindLang(spreads, "zh");
    if en.Some? then en else if zh.Some? then zh else if spreads != [] then Some(spreads[0]) else None
  }

  // ---- saving and deleting --------------------------------------------------

  datatype Method = Put | Post

  /** The JSON body sent for one locale; `lang` is sent as its code (`LangCode`). */
  datatype SpreadPayload = SpreadPayload(
    slug: string,
    lang: Locale,
    recommended: bool,
    name: string,
    description: string,
    detail: string,
    difficulty: string,
    tags: seq<string>,
    positions: seq<Position>)

  /** A save request: PUT to /api/admin/spreads/{id} or POST to /api/admin/spreads. */
  datatype SaveRequest = SaveRequest(verb: Method, itemId: Option<int>, payload: SpreadPayload)

  /** The locales whose request was sent, in order, and whether the whole save went through. */
  datatype SaveResult = SaveResult(attempted: seq<Locale>, succeeded: bool)

  /** `data.id ? ... : ...`: a present, non-zero id. */
  predicate HasId(id: Option<int>) {
    id.Some? && id.value != 0
  }

  /** The request `saveSpread(lang, data)` sends. */
  function SaveRequestFor(slug: string, recommended: bool, lang: Locale, d: Draft): (r: SaveRequest)
    ensures r.verb == Put <==> HasId(d.id)
    ensures r.itemId.Some? <==> HasId(d.id)
    ensures r.itemId.Some? ==> r.itemId == d.id
    ensures r.payload.lang == lang && r.payload.slug == slug && r.payload.positions == d.positions
    ensures r.payload.tags == ParseTags(d.tags)
    ensures r.payload.recommended == recommended && r.payload.name == d.name
    ensures r.payload.description == d.description && r.payload.detail == d.detail
    ensures r.payload.difficulty == d.difficulty
  {
    SaveRequest(
      if HasId(d.id) then Put else Post,
      if HasId(d.id) then d.id else None,
      SpreadPayload(slug, lang, recommended, d.name, d.description, d.detail, d.difficulty,
                    ParseTags(d.tags), d.positions))
  }

  /**
   * `handleSave`: en first, then zh, each only if its name is non-empty; a
   * rejected en request stops before zh. `accepted(lang)` is whether the server
   * answers that locale's request with success. The result lists the locales
   * whose request was sent, in order. The two requests are not one
   * transaction: en may be stored while zh fails.
   */
  function HandleSave(en: Draft, zh: Draft, accepted: Locale -> bool): (r: SaveResult)
    ensures En in r.attempted <==> en.name != ""
    ensures Zh in r.attempted <==> zh.name != "" && (en.name == "" || accepted(En))
    ensures |r.attempted| <= 2 && (|r.attempted| == 2 ==> r.attempted == [En, Zh])
    ensures r.succeeded <==> (en.name == "" || accepted(En)) && (zh.name == "" || accepted(Zh))
  {
    if en.name != "" && !accepted(En) then
      SaveResult([En], false)
    else if en.name != "" && zh.name != "" then
      SaveResult([En, Zh], accepted(Zh))
    else if en.name != "" then
      SaveResult([En], true)
    else if zh.name != "" then
      SaveResult([Zh], accepted(Zh))
    else
      SaveResult([], true)
  }

  /** The requests sent for the attempted locales, in the same order. */
  function SaveRequests(slug: string, recommended: bool, en: Draft, zh: Draft, attempted: seq<Locale>): (r: seq<SaveRequest>)
    ensures |r| == |attempted|
    ensures forall i :: 0 <= i < |r| ==>
      var d := if attempted[i] == En then en else zh;
      r[i] == SaveRequestFor(slug, recommended, attempted[i], d)
  {
    seq(|attempted|, i requires 0 <= i < |attempted| =>
      SaveRequestFor(slug, recommended, attempted[i], if attempted[i] == En then en else zh))
  }

  /** A save sends one request per named locale that is reached, the en one first and the zh one last. */
  lemma SaveOrder(slug: string, recommended: bool, en: Draft, zh: Draft, accepted: Locale -> bool)
    ensures var r := SaveRequests(slug, recommended, en, zh, HandleSave(en, zh, accepted).attempted);
      && |r| == (if en.name != "" then 1 else 0) + (if zh.name != "" && (en.name == "" || accepted(En)) then 1 else 0)
      && (en.name != "" ==> |r| >= 1 && r[0] == SaveRequestFor(slug, recommended, En, en))
      && (zh.name != "" && (en.name == "" || accepted(En)) ==> |r| >= 1 && r[|r| - 1] == SaveRequestFor(slug, recommended, Zh, zh))
  {
    var attempted := HandleSave(en, zh, accepted).attempted;
    if en.name != "" && !accepted(En) {
      assert attempted == [En];
    } else if en.name != "" && zh.name != "" {
      assert attempted == [En, Zh];
    } else if en.name != "" {
      assert attempted == [En];
    } else if zh.name != "" {
      assert attempted == [Zh];
    } else {
      assert attempted == [];
    }
  }

  /** A save that fails on en leaves zh unsent; one that fails on zh has already sent en. */
  lemma SaveNotAtomic(en: Draft, zh: Draft, accepted: Locale -> bool)
    requires en.name != "" && zh.name != ""
    ensures !accepted(En) ==> HandleSave(en, zh, accepted) == SaveResult([En], false)
    ensures accepted(En) && !accepted(Zh) ==> HandleSave(en, zh, accepted) == SaveResult([En, Zh], false)
  {
  }

  /** The requests `handleDelete` issues and whether it finished without a network failure. */
  datatype DeleteResult = DeleteResult(deleted: seq<int>, succeeded: bool)

  /**
   * `handleDelete`: nothing unless confirmed; then DELETE the loaded en row and
   * then the loaded zh row, each only if it has an id. `delivered(lang)` is
   * whether that fetch completes; a failed en fetch stops before zh.
   */
  function HandleDelete(confirmed: bool, enId: Option<int>, zhId: Option<int>, delivered: Locale -> bool): (r: DeleteResult)
    ensures !confirmed ==> r.deleted == [] && r.succeeded
    ensures |r.deleted| <= 2
    ensures confirmed && HasId(enId) ==> |r.deleted| >= 1 && r.deleted[0] == enId.value
    ensures confirmed && HasId(zhId) && (!HasId(enId) || delivered(En)) ==>
      |r.deleted| >= 1 && r.deleted[|r.deleted| - 1] == zhId.value
    ensures confirmed && HasId(enId) && !delivered(En) ==> r.deleted == [enId.value] && !r.succeeded
    ensures forall id :: id in r.deleted ==> (HasId(enId) && id == enId.value) || (HasId(zhId) && id == zhId.value)
    ensures confirmed && (!HasId(enId) || delivered(En)) ==>
      && r.deleted == (if HasId(enId) then [enId.value] else []) + (if HasId(zhId) then [zhId.value] else [])
      && (r.succeeded <==> !HasId(zhId) || delivered(Zh))
  {
    if !confirmed then DeleteResult([], true)
    else
      var first := if HasId(enId) then [enId.value] else [];
      if HasId(enId) && !delivered(En) then DeleteResult(first, false)
      else
        var second := if HasId(zhId) then [zhId.value] else [];
        DeleteResult(first + second, !HasId(zhId) || delivered(Zh))
  }

  // ---- the form as a whole ---------------------------------------------------

  /** A partial update of one draft's fields (`updateFormData`). */
  datatype FormUpdate =
    | NameUpdate(text: string)
    | DescriptionUpdate(text: string)
    | DetailUpdate(text: string)
    | DifficultyUpdate(text: string)
    | TagsUpdate(text: string)
    | PositionsUpdate(positions: seq<Position>)

  /** `{ ...prev, ...updates }`. */
  function ApplyUpdate(d: Draft, u: FormUpdate): (r: Draft)
    ensures r.id == d.id
    ensures u.NameUpdate? ==> r.name == u.text && r.(name := d.name) == d
    ensures u.DescriptionUpdate? ==> r.description == u.text && r.(description := d.description) == d
    ensures u.DetailUpdate? ==> r.detail == u.text && r.(detail := d.detail) == d
    ensures u.DifficultyUpdate? ==> r.difficulty == u.text && r.(difficulty := d.difficulty) == d
    ensures u.TagsUpdate? ==> r.tags == u.text && r.(tags := d.tags) == d
    ensures u.PositionsUpdate? ==> r.positions == u.positions && r.(positions := d.positions) == d
  {
    match u
    case NameUpdate(v) => d.(name := v)
    case DescriptionUpdate(v) => d.(description := v)
    case DetailUpdate(v) => d.(detail := v)
    case DifficultyUpdate(v) => d.(difficulty := v)
    case TagsUpdate(v) => d.(tags := v)
    case PositionsUpdate(v) => d.(positions := v)
  }

  class SpreadEditor {
    var slug: string
    var recommended: bool
    var en: Draft
    var zh: Draft
    var activeTab: Locale
    /** Ids of the rows the editor was opened with; delete uses these. */
    const enSpreadId: Option<int>
    const zhSpreadId: Option<int>

    function DraftFor(lang: Locale): Draft
      reads this
    {
      if lang == En then en else zh
    }

    constructor (spreads: seq<LoadedSpread>)
      ensures en == DraftOf(FindLang(spreads, "en")) && zh == DraftOf(FindLang(spreads, "zh"))
      ensures var d := DefaultSpread(spreads);
        slug == (if d.Some? then d.value.slug else "")
        && recommended == (d.Some? && d.value.recommended == Some(true))
      ensures activeTab == En
      ensures enSpreadId == DraftOf(FindLang(spreads, "en")).id
      ensures zhSpreadId == DraftOf(FindLang(spreads, "zh")).id
    {
      var d := DefaultSpread(spreads);
      var enRow, zhRow := FindLang(spreads, "en"), FindLang(spreads, "zh");
      slug := if d.Some? then d.value.slug else "";
      recommended := d.Some? && d.value.recommended == Some(true);
      en := DraftOf(enRow);
      zh := DraftOf(zhRow);
      activeTab := En;
      enSpreadId := DraftOf(enRow).id;
      zhSpreadId := DraftOf(zhRow).id;
    }

    /** Replaces one draft by `update`; the other draft and the shared fields stay as they are. */
    method UpdateFormData(lang: Locale, update: FormUpdate)
      modifies this
      ensures DraftFor(lang) == ApplyUpdate(old(DraftFor(lang)), update)
      ensures DraftFor(Other(lang)) == old(DraftFor(Other(lang)))
      ensures slug == old(slug) && recommended == old(recommended) && activeTab == old(activeTab)
    {
      if lang == En {
        en := ApplyUpdate(en, update);
      } else {
        zh := ApplyUpdate(zh, update);
      }
    }

    /** Copies the slot list, overwrites one field of slot `index` in the copy, stores the copy. */
    method HandlePositionChange(lang: Locale, index: nat, edit: PositionEdit)
      requires index < |DraftFor(lang).positions|
      modifies this
      ensures var before := old(DraftFor(lang).positions);
        DraftFor(lang).positions == before[index := ApplyEdit(before[index], edit)]
      ensures DraftFor(lang) == old(DraftFor(lang)).(positions := DraftFor(lang).positions)
      ensures DraftFor(Other(lang)) == old(DraftFor(Other(lang)))
      ensures slug == old(slug) && recommended == old(recommended) && activeTab == old(activeTab)
    {
      var current := DraftFor(lang).positions;
      var copy := new Position[|current|](i requires 0 <= i < |current| => current[i]);
      copy[index] := ApplyEdit(copy[index], edit);
      assert copy[..] == current[index := ApplyEdit(current[index], edit)];
      UpdateFormData(lang, PositionsUpdate(copy[..]));
    }

    method AddPosition(lang: Locale)
      modifies this
      ensures DraftFor(lang) == old(DraftFor(lang)).(positions := AddSlot(old(DraftFor(lang).positions)))
      ensures DraftFor(Other(lang)) == old(DraftFor(Other(lang)))
      ensures slug == old(slug) && recommended == old(recommended) && activeTab == old(activeTab)
    {
      UpdateFormData(lang, PositionsUpdate(AddSlot(DraftFor(lang).positions)));
    }

    method RemovePosition(lang: Locale, index: int)
      modifies this
      ensures DraftFor(lang) == old(DraftFor(lang)).(positions := RemoveSlot(old(DraftFor(lang).positions), index))
      ensures DraftFor(Other(lang)) == old(DraftFor(Other(lang)))
      ensures slug == old(slug) && recommended == old(recommended) && activeTab == old(activeTab)
    {
      UpdateFormData(lang, PositionsUpdate(RemoveSlot(DraftFor(lang).positions, index)));
    }

    /** Copies the active draft's layout onto the other draft; nothing else changes. */
    method SyncLayout()
      modifies this
      ensures var source, target := old(DraftFor(activeTab)), old(DraftFor(Other(activeTab)));
        DraftFor(Other(activeTab)) == target.(positions := SyncPositions(source.positions, target.positions))
      ensures DraftFor(activeTab) == old(DraftFor(activeTab))
      ensures slug == old(slug) && recommended == old(recommended) && activeTab == old(activeTab)
    {
      var source := DraftFor(activeTab);
      var target := DraftFor(Other(activeTab));
      UpdateFormData(Other(activeTab), PositionsUpdate(SyncPositions(source.positions, target.positions)));
    }

    method SetActiveTab(lang: Locale)
      modifies this
      ensures activeTab == lang
      ensures en == old(en) && zh == old(zh) && slug == old(slug) && recommended == old(recommended)
    {
      activeTab := lang;
    }

    method SetSlug(value: string)
      modifies this
      ensures slug == value
      ensures en == old(en) && zh == old(zh) && recommended == old(recommended) && activeTab == old(activeTab)
    {
      slug := value;
    }

    method SetRecommended(value: bool)
      modifies this
      ensures recommended == value
      ensures en == old(en) && zh == old(zh) && slug == old(slug) && activeTab == old(activeTab)
    {
      recommended := value;
    }

    /** The requests a save issues from the current form state. */
    function Save(accepted: Locale -> bool): (r: seq<SaveRequest>)
      reads this
      ensures r == SaveRequests(slug, recommended, en, zh, HandleSave(en, zh, accepted).attempted)
      ensures |r| == (if en.name != "" then 1 else 0) + (if zh.name != "" && (en.name == "" || accepted(En)) then 1 else 0)
      ensures en.name != "" ==> |r| >= 1 && r[0] == SaveRequestFor(slug, recommended, En, en)
      ensures zh.name != "" && (en.name == "" || accepted(En)) ==>
        |r| >= 1 && r[|r| - 1] == SaveRequestFor(slug, recommended, Zh, zh)
    {
      SaveOrder(slug, recommended, en, zh, accepted);
      SaveRequests(slug, recommended, en, zh, HandleSave(en, zh, accepted).attempted)
    }

    /** The requests "Delete All" issues for the rows the editor was opened with. */
    function Delete(confirmed: bool, delivered: Locale -> bool): (r: DeleteResult)
      reads this
      ensures r == HandleDelete(confirmed, enSpreadId, zhSpreadId, delivered)
      ensures !confirmed ==> r.deleted == []
      ensures confirmed && (!HasId(enSpreadId) || delivered(En)) ==>
        r.deleted == (if HasId(enSpreadId) then [enSpreadId.value] else []) + (if HasId(zhSpreadId) then [zhSpreadId.value] else [])
    {
      HandleDelete(confirmed, enSpreadId, zhSpreadId, delivered)
    }
  }
}
