/**
 * Binding values into a statement: `Drizzle::parseQuery` (src/drizzle.cc),
 * which binds only booleans, numbers and strings, and the later
 * `Query::parseQuery` with `Query::value` (src/query.cc), which also binds
 * dates and (nested) arrays.
 */
module Statements {
  import opened Wrappers
  import opened Placeholders
  import opened Texts

  /**
   * A JavaScript value handed in for a placeholder. `Number` carries the text
   * `std::ostream << double` prints for it, `Date` the local-time text
   * `Query::fromDate` prints, `Str` the characters of the string; `Other`
   * is null, undefined, a function or a plain object.
   */
  datatype Value =
    | Boolean(b: bool)
    | Number(text: string)
    | Str(s: string)
    | Array(items: seq<Value>)
    | Date(local: string)
    | Other

  /**
   * The literal `Drizzle::parseQuery` writes for one value; anything but a
   * boolean, number or string writes nothing. A string is read back from its
   * UTF-8 buffer as a C string, so it is bound only up to its first NUL.
   */
  function RenderScalar(v: Value, escape: string -> string): string {
    match v
    case Boolean(b) => if b then "1" else "0"
    case Number(text) => text
    case Str(s) => "'" + escape(UpToNul(s)) + "'"
    case _ => ""
  }

  /** What `Query::value` writes before the child at index `i` of an array. */
  function Separator(items: seq<Value>, i: nat): string
    requires i < |items|
  {
    if items[i].Array? && i > 0 then "),("
    else if i > 0 then ","
    else ""
  }

  /** The literal `Query::value(v, inArray)` writes. */
  function Render(v: Value, inArray: bool, escape: string -> string): string
    decreases v, 1
  {
    match v
    case Array(items) =>
      (if inArray then "" else "(") + RenderList(v, |items|, escape) + (if inArray then "" else ")")
    case Date(local) => "'" + local + "'"
    case _ => RenderScalar(v, escape)
  }

  /** The first `n` children of an array, each with the separator before it. */
  function RenderList(v: Value, n: nat, escape: string -> string): string
    requires v.Array? && n <= |v.items|
    decreases v, 0, n
  {
    if n == 0 then ""
    else RenderList(v, n - 1, escape) + Separator(v.items, n - 1) + Render(v.items[n - 1], true, escape)
  }

  lemma RenderListStep(v: Value, i: nat, escape: string -> string)
    requires v.Array? && i < |v.items|
    ensures RenderList(v, i + 1, escape) == RenderList(v, i, escape) + Separator(v.items, i) + Render(v.items[i], true, escape)
  {
  }

  lemma RenderArray(v: Value, inArray: bool, escape: string -> string)
    requires v.Array?
    ensures Render(v, inArray, escape)
         == (if inArray then "" else "(") + RenderList(v, |v.items|, escape) + (if inArray then "" else ")")
  {
  }

  lemma ConcatAssoc(a: string, b: string, c: string, d: string)
    ensures a + b + c + d == a + (b + c + d)
  {
  }

  /** `Query::value`, with its loop over the children of an array. */
  method RenderValue(v: Value, inArray: bool, escape: string -> string) returns (text: string)
    ensures text == Render(v, inArray, escape)
    decreases v
  {
    match v {
      case Array(items) =>
        var open := if inArray then "" else "(";
        text := open;
        var i := 0;
        while i < |items|
          invariant 0 <= i <= |items|
          invariant text == open + RenderList(v, i, escape)
        {
          var child := items[i];
          RenderListStep(v, i, escape);
          ghost var before := text;
          if child.Array? && i > 0 {
            text := text + "),(";
          } else if i > 0 {
            text := text + ",";
          }
          assert text == before + Separator(items, i);
          var c := RenderValue(child, true, escape);
          ConcatAssoc(open, RenderList(v, i, escape), Separator(items, i), c);
          text := text + c;
          i := i + 1;
        }
        RenderArray(v, inArray, escape);
        if !inArray {
          text := text + ")";
        }
      case Date(local) =>
        text := "'" + local + "'";
      case _ =>
        text := RenderScalar(v, escape);
    }
  }

  // ------------------------------------------------------------------
  // The two revisions of parseQuery

  function ScalarTexts(values: seq<Value>, escape: string -> string): (r: seq<string>)
    ensures |r| == |values|
  {
    seq(|values|, k requires 0 <= k < |values| => RenderScalar(values[k], escape))
  }

  function ValueTexts(values: seq<Value>, escape: string -> string): (r: seq<string>)
    ensures |r| == |values|
  {
    seq(|values|, k requires 0 <= k < |values| => Render(values[k], false, escape))
  }

  /**
   * `Drizzle::parseQuery`: the statement with each placeholder bound, or the
   * count error when the number of placeholders is not the number of values.
   * The splice is the corrected one (see `Placeholders.SpliceAsWritten`).
   */
  method ParseQueryV1(query: string, values: seq<Value>, escape: string -> string)
    returns (r: Result<string, string>)
    ensures var ps := Pieces(query, Unquoted);
      if |Holes(ps)| != |values| then r == Failure(WrongCount)
      else r == Success(Fill(ps, ScalarTexts(values, escape)))
  {
    var parsed, positions := ScanQuery(query);
    if |positions| != |values| {
      return Failure(WrongCount);
    }
    var texts := ScalarTexts(values, escape);
    FillIsSubstitute(Pieces(query, Unquoted), texts);
    parsed := Splice(parsed, positions, texts);
    return Success(parsed);
  }

  /** The values of `Query::parseQuery`: an empty handle counts as no values. */
  function ValuesOf(values: Option<seq<Value>>): seq<Value> {
    match values
    case None => []
    case Some(vs) => vs
  }

  /** The rendering of every value, in order, as the second loop of `Query::parseQuery` computes it. */
  method RenderAll(values: seq<Value>, escape: string -> string) returns (texts: seq<string>)
    ensures texts == ValueTexts(values, escape)
  {
    texts := [];
    var k := 0;
    while k < |values|
      invariant 0 <= k <= |values|
      invariant texts == ValueTexts(values[..k], escape)
    {
      var t := RenderValue(values[k], false, escape);
      assert values[..k + 1][..k] == values[..k];
      texts := texts + [t];
      k := k + 1;
    }
    assert values[..k] == values;
  }

  /** `Query::parseQuery`: as `ParseQueryV1`, binding arrays and dates as well. */
  method ParseQueryV2(query: string, values: Option<seq<Value>>, escape: string -> string)
    returns (r: Result<string, string>)
    ensures var ps := Pieces(query, Unquoted);
      if |Holes(ps)| != |ValuesOf(values)| then r == Failure(WrongCount)
      else r == Success(Fill(ps, ValueTexts(ValuesOf(values), escape)))
  {
    var parsed, positions := ScanQuery(query);
    var vs := ValuesOf(values);
    if |positions| != |vs| {
      return Failure(WrongCount);
    }
    var texts := RenderAll(vs, escape);
    FillIsSubstitute(Pieces(query, Unquoted), texts);
    parsed := Splice(parsed, positions, texts);
    return Success(parsed);
  }

  // ------------------------------------------------------------------
  // Properties of the rendering

  /** On booleans, numbers, strings and unsupported values the two revisions bind the same text. */
  lemma RevisionsAgreeOnScalars(values: seq<Value>, escape: string -> string)
    requires forall k :: 0 <= k < |values| ==> !values[k].Array? && !values[k].Date?
    ensures ScalarTexts(values, escape) == ValueTexts(values, escape)
  {
    forall k | 0 <= k < |values|
      ensures ScalarTexts(values, escape)[k] == ValueTexts(values, escape)[k]
    {
      match values[k]
      case Boolean(_) =>
      case Number(_) =>
      case Str(_) =>
      case Other =>
    }
  }

  /** What each child of an array renders as inside it. */
  function ChildTexts(items: seq<Value>, escape: string -> string): (r: seq<string>)
    ensures |r| == |items|
  {
    seq(|items|, j requires 0 <= j < |items| => Render(items[j], true, escape))
  }

  /**
   * When the children of an array are all arrays, or none is, their renderings
   * are joined with `),(` or `,` respectively.
   */
  lemma {:induction false} RenderListUniform(v: Value, n: nat, nested: bool, escape: string -> string)
    requires v.Array? && n <= |v.items|
    requires forall j :: 0 <= j < |v.items| ==> v.items[j].Array? == nested
    ensures RenderList(v, n, escape) == Join(if nested then "),(" else ",", ChildTexts(v.items, escape)[..n])
  {
    var xs := ChildTexts(v.items, escape);
    if n == 1 {
      assert RenderList(v, 0, escape) == "";
    } else if n > 1 {
      RenderListUniform(v, n - 1, nested, escape);
      assert xs[..n][..n - 1] == xs[..n - 1];
    }
  }

  /** A flat array binds as one parenthesised, comma-separated list: `IN ?` with `[1, 2, 3]`. */
  lemma FlatArrayRendering(items: seq<Value>, escape: string -> string)
    requires forall j :: 0 <= j < |items| ==> !items[j].Array?
    ensures Render(Array(items), false, escape) == "(" + Join(",", ChildTexts(items, escape)) + ")"
  {
    RenderListUniform(Array(items), |items|, false, escape);
    assert ChildTexts(items, escape)[..|items|] == ChildTexts(items, escape);
  }

  function RowTexts(rows: seq<seq<Value>>, escape: string -> string): (r: seq<string>)
    ensures |r| == |rows|
  {
    seq(|rows|, i requires 0 <= i < |rows| => Join(",", ChildTexts(rows[i], escape)))
  }

  function Rows(rows: seq<seq<Value>>): (r: seq<Value>)
    ensures |r| == |rows|
  {
    seq(|rows|, i requires 0 <= i < |rows| => Array(rows[i]))
  }

  /**
   * An array of flat arrays binds as a list of tuples, for a multi-row
   * `INSERT ... VALUES ?` with `[[1, 2], [3, 4]]` giving `(1,2),(3,4)`.
   */
  lemma TupleListRendering(rows: seq<seq<Value>>, escape: string -> string)
    requires forall i, j :: 0 <= i < |rows| && 0 <= j < |rows[i]| ==> !rows[i][j].Array?
    ensures Render(Array(Rows(rows)), false, escape) == "(" + Join("),(", RowTexts(rows, escape)) + ")"
  {
    var v := Array(Rows(rows));
    RenderListUniform(v, |rows|, true, escape);
    forall i | 0 <= i < |rows|
      ensures ChildTexts(Rows(rows), escape)[i] == RowTexts(rows, escape)[i]
    {
      RenderListUniform(Array(rows[i]), |rows[i]|, false, escape);
      assert ChildTexts(rows[i], escape)[..|rows[i]|] == ChildTexts(rows[i], escape);
    }
    assert ChildTexts(Rows(rows), escape)[..|rows|] == RowTexts(rows, escape);
  }

  /** A two-element array of numbers inside an array renders without its own parentheses. */
  lemma PairInside(y: string, z: string, escape: string -> string)
    ensures Render(Array([Number(y), Number(z)]), true, escape) == y + "," + z
  {
    var v := Array([Number(y), Number(z)]);
    RenderListStep(v, 0, escape);
    RenderListStep(v, 1, escape);
    assert RenderList(v, 1, escape) == y;
  }

  /**
   * Mixed arrays: the separator depends only on the child that follows it,
   * so `[1, [2, 3]]` binds as `(1),(2,3)` and `[[1, 2], 3]` as `(1,2,3)`.
   */
  lemma MixedArrayRendering(x: string, y: string, z: string, escape: string -> string)
    ensures Render(Array([Number(x), Array([Number(y), Number(z)])]), false, escape) == "(" + x + "),(" + y + "," + z + ")"
    ensures Render(Array([Array([Number(x), Number(y)]), Number(z)]), false, escape) == "(" + x + "," + y + "," + z + ")"
  {
    ArrayLast(x, y, z, escape);
    ArrayFirst(x, y, z, escape);
  }

  lemma ArrayLast(x: string, y: string, z: string, escape: string -> string)
    ensures RenderList(Array([Number(x), Array([Number(y), Number(z)])]), 2, escape) == x + "),(" + (y + "," + z)
  {
    var a := Array([Number(x), Array([Number(y), Number(z)])]);
    PairInside(y, z, escape);
    RenderListStep(a, 0, escape);
    RenderListStep(a, 1, escape);
    assert RenderList(a, 1, escape) == x;
  }

  lemma ArrayFirst(x: string, y: string, z: string, escape: string -> string)
    ensures RenderList(Array([Array([Number(x), Number(y)]), Number(z)]), 2, escape) == x + "," + y + "," + z
  {
    var b := Array([Array([Number(x), Number(y)]), Number(z)]);
    PairInside(x, y, escape);
    RenderListStep(b, 0, escape);
    RenderListStep(b, 1, escape);
    assert RenderList(b, 1, escape) == x + "," + y;
  }

  /** The earlier revision binds arrays and dates as nothing at all. */
  lemma EarlierRevisionDropsArrays(items: seq<Value>, local: string, escape: string -> string)
    ensures RenderScalar(Array(items), escape) == ""
    ensures RenderScalar(Date(local), escape) == ""
    ensures Render(Date(local), false, escape) == "'" + local + "'"
  {
  }

  /** Booleans are tested before numbers and bind as `1` or `0`; strings bind quoted around their escaped text. */
  lemma ScalarLiterals(b: bool, s: string, escape: string -> string)
    ensures Render(Boolean(b), false, escape) == RenderScalar(Boolean(b), escape) == (if b then "1" else "0")
    ensures Render(Str(s), false, escape) == RenderScalar(Str(s), escape) == "'" + escape(UpToNul(s)) + "'"
  {
  }

  /**
   * A string is bound up to its first NUL, in both revisions: `a` followed by
   * a NUL and anything binds as `a` alone, and a string without a NUL binds whole.
   */
  lemma BoundStringUpToNul(a: string, b: string, escape: string -> string)
    requires '\0' !in a
    ensures Render(Str(a + ['\0'] + b), false, escape) == RenderScalar(Str(a + ['\0'] + b), escape) == "'" + escape(a) + "'"
    ensures Render(Str(a), false, escape) == RenderScalar(Str(a), escape) == "'" + escape(a) + "'"
  {
    var t := a + ['\0'] + b;
    assert t[..|a|] == a && t[|a|] == '\0';
    UpToNulAt(t, |a|);
    NulFreeWhole(a);
  }

  lemma OtherTexts(escape: string -> string)
    ensures ValueTexts([Other], escape) == [""]
  {
    var vs := ValueTexts([Other], escape);
    assert vs[0] == Render(Other, false, escape) == "";
  }

  /** A value of no supported kind renders as nothing, so its placeholder vanishes: `a?b` with null binds as `ab`. */
  lemma UnsupportedValueVanishes(x: string, y: string, escape: string -> string)
    requires forall i :: 0 <= i < |x| ==> Plain(x[i])
    requires forall i :: 0 <= i < |y| ==> Plain(y[i])
    ensures Render(Other, false, escape) == "" && RenderScalar(Other, escape) == ""
    ensures Holes(Pieces(x + "?" + y, Unquoted)) == [|x|]
    ensures Fill(Pieces(x + "?" + y, Unquoted), ValueTexts([Other], escape)) == x + y
  {
    OnePlaceholder(x, y, "");
    assert x + "" == x;
    OtherTexts(escape);
  }
}
