/**
 * The export dialog for redemption codes: the unused codes, the distinct
 * point values offered as a filter, the codes shown for a selection, and the
 * newline-separated text copied to the clipboard.
 */
module ExportCodes {
  import opened Common
  import Text

  datatype Code = Code(id: int, code: string, points: int, isUsed: bool)

  /** `codes.filter(c => !c.isUsed)`. */
  function UnusedCodes(codes: seq<Code>): (r: seq<Code>)
    ensures forall c :: c in r <==> c in codes && !c.isUsed
    ensures |r| <= |codes|
  {
    if codes == [] then []
    else (if codes[0].isUsed then [] else [codes[0]]) + UnusedCodes(codes[1..])
  }

  /** The filter works element by element, so it keeps the original order. */
  lemma {:induction false} UnusedAppend(a: seq<Code>, b: seq<Code>)
    ensures UnusedCodes(a + b) == UnusedCodes(a) + UnusedCodes(b)
  {
    if a == [] {
      assert a + b == b;
    } else {
      var head := if a[0].isUsed then [] else [a[0]];
      calc {
        UnusedCodes(a + b);
        { assert (a + b)[0] == a[0] && (a + b)[1..] == a[1..] + b; }
        head + UnusedCodes(a[1..] + b);
        { UnusedAppend(a[1..], b); }
        head + (UnusedCodes(a[1..]) + UnusedCodes(b));
        (head + UnusedCodes(a[1..])) + UnusedCodes(b);
      }
    }
  }

  /** A list of unused codes passes the filter unchanged. */
  lemma {:induction false} UnusedKeepsUnused(codes: seq<Code>)
    requires forall i :: 0 <= i < |codes| ==> !codes[i].isUsed
    ensures UnusedCodes(codes) == codes
  {
    if codes != [] {
      UnusedKeepsUnused(codes[1..]);
    }
  }

  predicate StrictlyAscending(s: seq<int>) {
    forall i, j :: 0 <= i < j < |s| ==> s[i] < s[j]
  }

  function InsertDistinct(x: int, s: seq<int>): (r: seq<int>)
    requires StrictlyAscending(s)
    ensures StrictlyAscending(r)
    ensures forall y :: y in r <==> y == x || y in s
    ensures |r| >= 1 && r[0] == if s != [] && s[0] < x then s[0] else x
  {
    if s == [] then [x]
    else if x == s[0] then s
    else if x < s[0] then [x] + s
    else
      var t := InsertDistinct(x, s[1..]);
      assert s[0] < t[0];
      [s[0]] + t
  }

  /** `Array.from(new Set(xs)).sort((a, b) => a - b)`. */
  function SortedDistinct(xs: seq<int>): (r: seq<int>)
    ensures StrictlyAscending(r)
    ensures forall y :: y in r <==> y in xs
  {
    if xs == [] then []
    else InsertDistinct(xs[|xs| - 1], SortedDistinct(xs[..|xs| - 1]))
  }

  function PointsOf(codes: seq<Code>): (r: seq<int>)
    ensures forall p :: p in r <==> exists c :: c in codes && c.points == p
  {
    if codes == [] then [] else [codes[0].points] + PointsOf(codes[1..])
  }

  /** Each point value of an unused code, once, in ascending numeric order. */
  function PointOptions(codes: seq<Code>): (r: seq<int>)
    ensures StrictlyAscending(r)
    ensures forall p :: p in r <==> exists c :: c in codes && !c.isUsed && c.points == p
  {
    SortedDistinct(PointsOf(UnusedCodes(codes)))
  }

  /** `unusedCodes.filter(c => c.points === points)`. */
  function WithPoints(codes: seq<Code>, points: int): (r: seq<Code>)
    ensures forall c :: c in r <==> c in codes && c.points == points
  {
    if codes == [] then []
    else (if codes[0].points == points then [codes[0]] else []) + WithPoints(codes[1..], points)
  }

  /**
   * The filter works element by element: a code is kept once, where it stands,
   * exactly when it has the points, so order and repetitions are those of the input.
   */
  lemma {:induction false} WithPointsAppend(a: seq<Code>, b: seq<Code>, points: int)
    ensures WithPoints(a + b, points) == WithPoints(a, points) + WithPoints(b, points)
  {
    if a == [] {
      assert a + b == b;
    } else {
      var head := if a[0].points == points then [a[0]] else [];
      var x, y := WithPoints(a[1..], points), WithPoints(b, points);
      assert (a + b)[0] == a[0] && (a + b)[1..] == a[1..] + b;
      assert WithPoints(a + b, points) == head + WithPoints(a[1..] + b, points);
      WithPointsAppend(a[1..], b, points);
      AppendAssoc(head, x, y);
    }
  }

  /** A single code is kept exactly when it has the points. */
  lemma WithPointsSingle(c: Code, points: int)
    ensures WithPoints([c], points) == if c.points == points then [c] else []
  {
    assert [c][1..] == [];
  }

  /**
   * The codes shown for the selected filter value: all unused codes for
   * "all", otherwise the unused codes whose points equal parseInt(selected)
   * (none when it is NaN).
   */
  function FilteredCodes(codes: seq<Code>, selected: string): (r: seq<Code>)
    ensures selected == "all" ==> r == UnusedCodes(codes)
    ensures selected != "all" ==> forall c :: c in r <==>
      c in codes && !c.isUsed && Text.ParseInt(selected) == Some(c.points)
    ensures selected != "all" && Text.ParseInt(selected).Some? ==>
      r == WithPoints(UnusedCodes(codes), Text.ParseInt(selected).value)
    ensures selected != "all" && Text.ParseInt(selected).None? ==> r == []
    ensures forall c :: c in r ==> c in UnusedCodes(codes) && !c.isUsed
  {
    if selected == "all" then UnusedCodes(codes)
    else
      match Text.ParseInt(selected)
      case None => []
      case Some(p) => WithPoints(UnusedCodes(codes), p)
  }

  /** Selecting a listed point value shows exactly the unused codes worth that many points. */
  lemma SelectingPointValue(codes: seq<Code>, points: int)
    ensures FilteredCodes(codes, Text.IntToString(points)) == WithPoints(UnusedCodes(codes), points)
  {
    Text.ParseIntToString(points);
    var s := Text.IntToString(points);
    assert s[0] == '-' || Text.DigitValue(s[0], 10).Some?;
    assert s != "all";
  }

  function CodeStrings(codes: seq<Code>): (r: seq<string>)
    ensures |r| == |codes| && forall i :: 0 <= i < |r| ==> r[i] == codes[i].code
  {
    seq(|codes|, i requires 0 <= i < |codes| => codes[i].code)
  }

  /** The clipboard text: nothing for an empty selection, else the codes one per line in order. */
  function CopyText(codes: seq<Code>): (r: Option<string>)
    ensures r.None? <==> codes == []
    ensures |codes| == 1 ==> r == Some(codes[0].code)
  {
    if codes == [] then None else Some(Text.Join(CodeStrings(codes), "\n"))
  }

  /** Splitting the copied text at line breaks gives back the codes, in order. */
  lemma CopyTextRoundTrip(codes: seq<Code>)
    requires codes != []
    requires forall i :: 0 <= i < |codes| ==> '\n' !in codes[i].code
    ensures Text.Split(CopyText(codes).value, '\n') == CodeStrings(codes)
  {
    Text.SplitJoin(CodeStrings(codes), '\n');
  }
}
