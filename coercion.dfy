/**
 * Turning one fetched row into the JavaScript row object: `Drizzle::row`
 * (src/drizzle.cc) and `Query::row` (src/query.cc), with the arithmetic of
 * `parseTime` and of the local-time offset `gmtDelta`.
 */
module Coercion {
  import opened Wrappers
  import opened Columns
  import opened Texts

  /** Which binding converts the row: `Drizzle::row` or `Query::row`. */
  datatype Revision = Drizzle | Query

  /**
   * The JavaScript value a cell becomes. Conversions that go through libc or V8
   * number parsing keep the cell text they start from: `Integer` is
   * `String(text)->ToInteger()`, `Number` is `atof(text)`, `DateOf` is the date
   * that revision `rev` parses from `text` (with or without a time part):
   * `parseDate` reads the fields with `sscanf` and hands `mktime` the `tm` that
   * `gmtime_r` filled, so `tm_isdst` is 0; `toDate` reads them with stream
   * extraction, which takes any separator character, and hands `mktime` the
   * `tm` of `localtime_r`, with the current daylight-saving flag. `TimeOf` the date
   * `Query::toTime` builds. `Stamp` is the date taken as `stamp` milliseconds
   * since the epoch; `Indeterminate` stands for a date built from fields
   * `sscanf` could not fill.
   */
  datatype HostValue =
    | Null
    | Bool(b: bool)
    | Integer(text: string)
    | Number(text: string)
    | DateOf(text: string, withTime: bool, rev: Revision)
    | Stamp(stamp: nat)
    | TimeOf(text: string)
    | Indeterminate
    | Buffer(bytes: string)
    | List(items: seq<string>)
    | Text(s: string)

  // ------------------------------------------------------------------
  // SET cells

  /**
   * The segments between commas, the last one possibly empty: what repeated
   * `std::getline(stream, item, ',')` reads, plus the empty tail it stops at.
   */
  function Segments(s: string): (r: seq<string>)
    ensures |r| >= 1
  {
    if s == [] then [[]]
    else
      var prev := Segments(s[..|s| - 1]);
      var c := s[|s| - 1];
      if c == ',' then prev + [[]]
      else prev[..|prev| - 1] + [prev[|prev| - 1] + [c]]
  }

  /** The non-empty strings of `xs`, in order. */
  function NonEmpty(xs: seq<string>): seq<string> {
    if xs == [] then []
    else NonEmpty(xs[..|xs| - 1]) + (if xs[|xs| - 1] == [] then [] else [xs[|xs| - 1]])
  }

  /** The array a SET cell becomes: its non-empty comma-separated items. */
  function SetItems(s: string): seq<string> {
    NonEmpty(Segments(s))
  }

  lemma NonEmptyAppend(xs: seq<string>, x: string)
    ensures NonEmpty(xs + [x]) == NonEmpty(xs) + (if x == [] then [] else [x])
  {
    assert (xs + [x])[..|xs|] == xs;
  }

  lemma SegmentsStep(s: string, c: char)
    ensures var prev := Segments(s);
      Segments(s + [c]) == if c == ',' then prev + [[]] else prev[..|prev| - 1] + [prev[|prev| - 1] + [c]]
  {
    assert (s + [c])[..|s|] == s;
  }

  /** What one more character does to the finished items and the item being read. */
  lemma SegmentsNext(s: string, c: char)
    ensures var segs := Segments(s); var next := Segments(s + [c]);
      var done := NonEmpty(segs[..|segs| - 1]); var item := segs[|segs| - 1];
      if c == ',' then
        NonEmpty(next[..|next| - 1]) == done + (if item == [] then [] else [item]) && next[|next| - 1] == []
      else
        NonEmpty(next[..|next| - 1]) == done && next[|next| - 1] == item + [c]
  {
    var segs := Segments(s);
    SegmentsStep(s, c);
    if c == ',' {
      assert (segs + [[]])[..|segs|] == segs;
      assert segs[..|segs| - 1] + [segs[|segs| - 1]] == segs;
      NonEmptyAppend(segs[..|segs| - 1], segs[|segs| - 1]);
    } else {
      assert (segs[..|segs| - 1] + [segs[|segs| - 1] + [c]])[..|segs| - 1] == segs[..|segs| - 1];
    }
  }

  /** The items of a SET cell, from the finished items and the item being read at its end. */
  lemma SegmentsLast(s: string)
    ensures var segs := Segments(s); var item := segs[|segs| - 1];
      SetItems(s) == NonEmpty(segs[..|segs| - 1]) + (if item == [] then [] else [item])
  {
    var segs := Segments(s);
    assert segs[..|segs| - 1] + [segs[|segs| - 1]] == segs;
    NonEmptyAppend(segs[..|segs| - 1], segs[|segs| - 1]);
  }

  /** The `getline` loop before the character at `i`: the finished items and the item being read. */
  ghost predicate SplitState(cell: string, i: nat, items: seq<string>, item: string) {
    && i <= |cell|
    && var segs := Segments(cell[..i]);
       items == NonEmpty(segs[..|segs| - 1]) && item == segs[|segs| - 1]
  }

  lemma SplitStep(cell: string, i: nat, items: seq<string>, item: string)
    requires i < |cell| && SplitState(cell, i, items, item)
    ensures cell[i] == ',' ==> SplitState(cell, i + 1, items + (if item == [] then [] else [item]), [])
    ensures cell[i] != ',' ==> SplitState(cell, i + 1, items, item + [cell[i]])
  {
    SegmentsNext(cell[..i], cell[i]);
    assert cell[..i + 1] == cell[..i] + [cell[i]];
  }

  lemma SplitDone(cell: string, items: seq<string>, item: string)
    requires SplitState(cell, |cell|, items, item)
    ensures items + (if item == [] then [] else [item]) == SetItems(cell)
  {
    assert cell[..|cell|] == cell;
    SegmentsLast(cell);
  }

  /**
   * The SET case of `row()`: the `getline` loop over comma-separated items,
   * appending each non-empty item to the array.
   */
  method SplitSet(cell: string) returns (items: seq<string>)
    ensures items == SetItems(cell)
  {
    items := [];
    var item := "";
    var i := 0;
    assert Segments(cell[..0]) == [[]];
    while i < |cell|
      invariant SplitState(cell, i, items, item)
    {
      var c := cell[i];
      SplitStep(cell, i, items, item);
      if c == ',' {
        if item != [] {
          items := items + [item];
        } else {
          assert items + [] == items;
        }
        item := "";
      } else {
        item := item + [c];
      }
      i := i + 1;
    }
    SplitDone(cell, items, item);
    if item != [] {
      items := items + [item];
    } else {
      assert items + [] == items;
    }
  }

  predicate CommaFree(s: string) {
    forall i :: 0 <= i < |s| ==> s[i] != ','
  }

  /** No segment holds a comma. */
  lemma {:induction false} SegmentsCommaFree(s: string)
    ensures forall k :: 0 <= k < |Segments(s)| ==> CommaFree(Segments(s)[k])
  {
    if s != [] {
      SegmentsCommaFree(s[..|s| - 1]);
    }
  }

  lemma {:induction false} NonEmptyKeeps(xs: seq<string>, P: string -> bool)
    requires forall k :: 0 <= k < |xs| ==> P(xs[k])
    ensures forall k :: 0 <= k < |NonEmpty(xs)| ==> NonEmpty(xs)[k] != [] && P(NonEmpty(xs)[k])
  {
    if xs != [] {
      NonEmptyKeeps(xs[..|xs| - 1], P);
    }
  }

  /** Every item of a SET value is non-empty and comma-free. */
  lemma SetItemsWellFormed(s: string)
    ensures forall k :: 0 <= k < |SetItems(s)| ==> SetItems(s)[k] != [] && CommaFree(SetItems(s)[k])
  {
    SegmentsCommaFree(s);
    NonEmptyKeeps(Segments(s), CommaFree);
  }

  /** Extending the last of `init + [last]` by `c`. */
  lemma ExtendLast(init: seq<string>, last: string, more: string, c: char)
    ensures var segs := init + [last + more];
      segs[..|segs| - 1] + [segs[|segs| - 1] + [c]] == init + [last + (more + [c])]
  {
    var segs := init + [last + more];
    assert segs[..|segs| - 1] == init;
    assert (last + more) + [c] == last + (more + [c]);
  }

  /** Characters without a comma extend the last segment. */
  lemma {:induction false} SegmentsAppendPlain(a: string, x: string)
    requires CommaFree(x)
    ensures var prev := Segments(a);
      Segments(a + x) == prev[..|prev| - 1] + [prev[|prev| - 1] + x]
    decreases |x|
  {
    var prev := Segments(a);
    var n := |prev|;
    if x == [] {
      assert a + x == a;
      assert prev[n - 1] + x == prev[n - 1];
      assert prev[..n - 1] + [prev[n - 1]] == prev;
    } else {
      var init := x[..|x| - 1];
      var c := x[|x| - 1];
      assert init + [c] == x;
      assert CommaFree(init) by {
        forall i | 0 <= i < |init| ensures init[i] != ',' {
          assert init[i] == x[i];
        }
      }
      SegmentsAppendPlain(a, init);
      AppendPlainStep(a, init, c, prev[..n - 1], prev[n - 1]);
    }
  }

  lemma AppendPlainStep(a: string, init: string, c: char, done: seq<string>, last: string)
    requires c != ','
    requires Segments(a + init) == done + [last + init]
    ensures Segments(a + (init + [c])) == done + [last + (init + [c])]
  {
    assert a + (init + [c]) == (a + init) + [c];
    SegmentsStep(a + init, c);
    ExtendLast(done, last, init, c);
  }

  /** Joining non-empty comma-free items with `,` and reading the SET back gives the items. */
  lemma {:induction false} SetItemsRoundTrip(items: seq<string>)
    requires forall k :: 0 <= k < |items| ==> items[k] != [] && CommaFree(items[k])
    ensures SetItems(Join(",", items)) == items
  {
    if items == [] {
    } else {
      var init := items[..|items| - 1];
      var x := items[|items| - 1];
      assert init + [x] == items;
      JoinAppend(",", init, x);
      if init == [] {
        SegmentsAppendPlain([], x);
        assert [] + x == x;
        NonEmptyAppend([], x);
      } else {
        SetItemsRoundTrip(init);
        var a := Join(",", init);
        SegmentsStep(a, ',');
        SegmentsAppendPlain(a + [','], x);
        assert a + "," + x == (a + [',']) + x;
        var with := Segments(a + [',']);
        assert with == Segments(a) + [[]];
        assert with[..|with| - 1] == Segments(a);
        assert with[|with| - 1] + x == x;
        assert Segments(a + "," + x) == Segments(a) + [x];
        NonEmptyAppend(Segments(a), x);
        assert SetItems(Join(",", items)) == SetItems(a) + [x];
      }
    }
  }

  /** A SET text with empty items: `a,,b,` reads as `a` and `b`. */
  lemma SegmentsExample(a: char, b: char)
    requires a != ',' && b != ','
    ensures Segments([a, ',', ',', b, ',']) == [[a], [], [b], []]
  {
    var s0: string := [];
    var s1 := s0 + [a];
    var s2 := s1 + [','];
    var s3 := s2 + [','];
    var s4 := s3 + [b];
    var s5 := s4 + [','];
    assert s5 == [a, ',', ',', b, ','];
    SegmentsStep(s0, a);
    assert Segments(s1) == [[a]];
    SegmentsStep(s1, ',');
    assert Segments(s2) == [[a], []];
    SegmentsStep(s2, ',');
    assert Segments(s3) == [[a], [], []];
    SegmentsStep(s3, b);
    assert Segments(s4) == [[a], []] + [[] + [b]];
    assert [] + [b] == [b];
    SegmentsStep(s4, ',');
  }

  lemma NonEmptyExample(a: char, b: char)
    ensures NonEmpty([[a], [], [b], []]) == [[a], [b]]
  {
    var x0: seq<string> := [];
    var x1 := x0 + [[a]];
    var x2 := x1 + [[]];
    var x3 := x2 + [[b]];
    var x4 := x3 + [[]];
    assert x4 == [[a], [], [b], []];
    NonEmptyAppend(x0, [a]);
    NonEmptyAppend(x1, []);
    NonEmptyAppend(x2, [b]);
    NonEmptyAppend(x3, []);
  }

  /** Empty items, including a trailing one, are dropped. */
  lemma SetItemsExample(a: char, b: char)
    requires a != ',' && b != ','
    ensures SetItems([a, ',', ',', b, ',']) == [[a], [b]]
  {
    SegmentsExample(a, b);
    NonEmptyExample(a, b);
  }

  // ------------------------------------------------------------------
  // TIME cells in Drizzle::row: sscanf("%d:%d:%d") and parseTime

  predicate IsDigit(c: char) {
    '0' <= c <= '9'
  }

  function DigitValue(c: char): nat
    requires IsDigit(c)
  {
    c as int - '0' as int
  }

  /** The decimal value of `acc` followed by the digits of `ds`. */
  function DecimalFrom(ds: string, acc: nat): nat
    requires forall i :: 0 <= i < |ds| ==> IsDigit(ds[i])
  {
    if ds == [] then acc else DecimalFrom(ds[1..], acc * 10 + DigitValue(ds[0]))
  }

  /** The longest run of digits at the start of `s`, as a number, and what follows it. */
  function ScanNat(s: string, acc: nat): (string, nat) {
    if s != [] && IsDigit(s[0]) then ScanNat(s[1..], acc * 10 + DigitValue(s[0]))
    else (s, acc)
  }

  /** One `%d` conversion on an unsigned decimal: the value and the rest, or nothing without a digit. */
  function ScanField(s: string): Option<(nat, string)> {
    if s != [] && IsDigit(s[0]) then
      var (rest, n) := ScanNat(s, 0);
      Some((n, rest))
    else None
  }

  /** The literal `:` of the format, then one `%d`. */
  function ScanColonField(s: string): Option<(nat, string)> {
    if s == [] || s[0] != ':' then None else ScanField(s[1..])
  }

  /** The `%d:%d:%d` scan of `parseTime`, when all three fields are read. */
  function ScanTime(text: string): Option<(nat, nat, nat)> {
    match ScanField(text)
    case None => None
    case Some((h, r1)) =>
      match ScanColonField(r1)
      case None => None
      case Some((m, r2)) =>
        match ScanColonField(r2)
        case None => None
        case Some((sec, _)) => Some((h, m, sec))
  }

  const U16: nat := 0x1_0000

  /** `parseTime`: the count of seconds, converted to its `uint16_t` return type. */
  function ParseTime(hour: int, min: int, sec: int): (r: nat)
    ensures r < U16
    ensures (r - (hour * 3600 + min * 60 + sec)) % U16 == 0
  {
    (hour * 3600 + min * 60 + sec) % U16
  }

  /** Any time from 18:12:16 on wraps: that one becomes 0 and is taken as a timestamp of 0 ms. */
  lemma ParseTimeWraps()
    ensures ScanTime("18:12:16") == Some((18, 12, 16))
    ensures ParseTime(18, 12, 16) == 0
    ensures ParseTime(18, 12, 15) == U16 - 1
  {
    ScanTimeExample();
  }

  lemma ScanTimeExample()
    ensures ScanTime("18:12:16") == Some((18, 12, 16))
  {
    ScanTimeRoundTrip(18, 12, 16);
    assert NatText(18) == "18" && NatText(12) == "12" && NatText(16) == "16";
    assert "18" + ":" + "12" + ":" + "16" == "18:12:16";
  }

  /** The decimal text of `n`. */
  function NatText(n: nat): (s: string)
    ensures |s| >= 1 && forall i :: 0 <= i < |s| ==> IsDigit(s[i])
  {
    var d := ['0' + (n % 10) as char];
    if n < 10 then d else NatText(n / 10) + d
  }

  lemma {:induction false} ScanNatDigits(ds: string, rest: string, acc: nat)
    requires forall i :: 0 <= i < |ds| ==> IsDigit(ds[i])
    requires rest == [] || !IsDigit(rest[0])
    ensures ScanNat(ds + rest, acc) == (rest, DecimalFrom(ds, acc))
    decreases |ds|
  {
    if ds == [] {
      assert ds + rest == rest;
    } else {
      assert (ds + rest)[1..] == ds[1..] + rest;
      ScanNatDigits(ds[1..], rest, acc * 10 + DigitValue(ds[0]));
    }
  }

  lemma {:induction false} DecimalFromAppend(ds: string, d: char, acc: nat)
    requires forall i :: 0 <= i < |ds| ==> IsDigit(ds[i])
    requires IsDigit(d)
    ensures forall i :: 0 <= i < |ds + [d]| ==> IsDigit((ds + [d])[i])
    ensures DecimalFrom(ds + [d], acc) == DecimalFrom(ds, acc) * 10 + DigitValue(d)
    decreases |ds|
  {
    if ds == [] {
      assert (ds + [d])[1..] == [];
    } else {
      assert (ds + [d])[1..] == ds[1..] + [d];
      DecimalFromAppend(ds[1..], d, acc * 10 + DigitValue(ds[0]));
    }
  }

  lemma {:induction false} NatTextValue(n: nat)
    ensures DecimalFrom(NatText(n), 0) == n
  {
    var d := '0' + (n % 10) as char;
    if n >= 10 {
      NatTextValue(n / 10);
      DecimalFromAppend(NatText(n / 10), d, 0);
    }
  }

  /** One `%d` reads back a number written in decimal. */
  lemma ScanFieldNatText(n: nat, rest: string)
    requires rest == [] || !IsDigit(rest[0])
    ensures ScanField(NatText(n) + rest) == Some((n, rest))
  {
    ScanNatDigits(NatText(n), rest, 0);
    NatTextValue(n);
  }

  lemma ScanColonFieldNatText(n: nat, rest: string)
    requires rest == [] || !IsDigit(rest[0])
    ensures ScanColonField(":" + NatText(n) + rest) == Some((n, rest))
  {
    assert (":" + NatText(n) + rest)[1..] == NatText(n) + rest;
    ScanFieldNatText(n, rest);
  }

  lemma ScanTimeFields(t: string, h: nat, r1: string, m: nat, r2: string, sec: nat, r3: string)
    requires ScanField(t) == Some((h, r1))
    requires ScanColonField(r1) == Some((m, r2))
    requires ScanColonField(r2) == Some((sec, r3))
    ensures ScanTime(t) == Some((h, m, sec))
  {
  }

  lemma TimeText(th: string, tm: string, ts: string)
    ensures th + ":" + tm + ":" + ts == th + (":" + tm + (":" + ts))
  {
    AppendAssoc(th + ":" + tm, ":", ts);
    AppendAssoc(th + ":", tm, ":" + ts);
    AppendAssoc(th, ":", tm + (":" + ts));
    AppendAssoc(":", tm, ":" + ts);
  }

  /** `hh:mm:ss` written in decimal is read back field by field. */
  lemma ScanTimeRoundTrip(h: nat, m: nat, s: nat)
    ensures ScanTime(NatText(h) + ":" + NatText(m) + ":" + NatText(s)) == Some((h, m, s))
  {
    var th, tm, ts := NatText(h), NatText(m), NatText(s);
    var r2 := ":" + ts;
    var r1 := ":" + tm + r2;
    TimeText(th, tm, ts);
    ScanFieldNatText(h, r1);
    ScanColonFieldNatText(m, r2);
    assert r2 == ":" + ts + [];
    ScanColonFieldNatText(s, []);
    ScanTimeFields(th + r1, h, r1, m, r2, s, []);
  }

  // ------------------------------------------------------------------
  // The local-time offset

  /**
   * `Query::gmtDelta`: the offset of local time from UTC in seconds, from the
   * broken-down local (less an hour under daylight saving) and UTC clocks,
   * brought into (-12h, 12h] by one step of a day.
   */
  function GmtDelta(localHour: int, dst: bool, localMin: int, gmtHour: int, gmtMin: int): int {
    var raw := ((localHour - (if dst then 1 else 0) - gmtHour) * 60 + (localMin - gmtMin)) * 60;
    if raw <= -(12 * 60 * 60) then raw + 24 * 60 * 60
    else if raw > 12 * 60 * 60 then raw - 24 * 60 * 60
    else raw
  }

  /** The same normalisation inside `Drizzle::parseDate`, written as two independent `if`s. */
  function GmtDeltaInParseDate(localHour: int, dst: bool, localMin: int, gmtHour: int, gmtMin: int): int {
    var raw := ((localHour - (if dst then 1 else 0) - gmtHour) * 60 + (localMin - gmtMin)) * 60;
    var once := if raw <= -(12 * 60 * 60) then raw + 24 * 60 * 60 else raw;
    if once > 12 * 60 * 60 then once - 24 * 60 * 60 else once
  }

  /** The two normalisations never differ: after adding a day the value is at most 12h. */
  lemma GmtDeltaRevisionsAgree(localHour: int, dst: bool, localMin: int, gmtHour: int, gmtMin: int)
    ensures GmtDelta(localHour, dst, localMin, gmtHour, gmtMin)
         == GmtDeltaInParseDate(localHour, dst, localMin, gmtHour, gmtMin)
  {
  }

  /** For clock readings in range the offset lies in (-12h, 12h] and is a whole number of minutes. */
  lemma GmtDeltaBounds(localHour: int, dst: bool, localMin: int, gmtHour: int, gmtMin: int)
    requires 0 <= localHour < 24 && 0 <= gmtHour < 24
    requires 0 <= localMin < 60 && 0 <= gmtMin < 60
    ensures var d := GmtDelta(localHour, dst, localMin, gmtHour, gmtMin);
      -43200 < d <= 43200 && d % 60 == 0
  {
    var lh := localHour - (if dst then 1 else 0);
    var raw := ((lh - gmtHour) * 60 + (localMin - gmtMin)) * 60;
    assert raw == ((lh - gmtHour) * 60 + (localMin - gmtMin)) * 60;
    assert -89940 <= raw <= 86340;
  }

  // ------------------------------------------------------------------
  // One cell and one row

  /** The value `row()` stores for one cell of a column of type `t`; `None` is a NULL cell. */
  function CellValue(t: ColumnType, cell: Option<string>, cast: bool, rev: Revision): (r: HostValue)
    ensures r == Null <==> cell.None?
    ensures cell.Some? && !cast ==> r == Text(cell.value)
    ensures cell.Some? && cast && t == BOOL ==> r == Bool(cell.value != "0")
    ensures cell.Some? && cast && t == SET ==> r.List? && r.items == SetItems(cell.value)
    ensures cell.Some? && cast && (t == DATE || t == DATETIME) ==> r.DateOf? && r.rev == rev
  {
    match cell
    case None => Null
    case Some(text) =>
      if !cast then Text(text)
      else match t
        case BOOL => Bool(text == [] || text != "0")
        case INT => Integer(text)
        case NUMBER => Number(text)
        case DATE => DateOf(text, false, rev)
        case TIME =>
          if rev == Query then TimeOf(text)
          else (match ScanTime(text)
            case Some((h, m, s)) => Stamp(ParseTime(h, m, s))
            case None => Indeterminate)
        case DATETIME => DateOf(text, true, rev)
        case TEXT => Buffer(text)
        case SET => List(SetItems(text))
        case _ => Text(text)
  }

  /** Apart from TIME, DATE and DATETIME the two revisions convert every cell alike. */
  lemma CellRevisionsAgree(t: ColumnType, cell: Option<string>, cast: bool)
    requires t != TIME && t != DATE && t != DATETIME
    ensures CellValue(t, cell, cast, Drizzle) == CellValue(t, cell, cast, Query)
  {
  }

  /** The row object after the first `n` columns: each column's value stored under its name, a later column overwriting an earlier one of the same name. */
  function RowOf(cols: seq<Column>, cells: seq<Option<string>>, n: nat, cast: bool, rev: Revision)
    : map<string, HostValue>
    requires |cols| == |cells| && n <= |cols|
  {
    if n == 0 then map[]
    else RowOf(cols, cells, n - 1, cast, rev)[cols[n - 1].name := CellValue(cols[n - 1].columnType, cells[n - 1], cast, rev)]
  }

  /** `row()`: the loop over the columns of the current row. */
  method RowObject(cols: seq<Column>, cells: seq<Option<string>>, cast: bool, rev: Revision)
    returns (row: map<string, HostValue>)
    requires |cols| == |cells|
    ensures row == RowOf(cols, cells, |cols|, cast, rev)
  {
    row := map[];
    var j := 0;
    while j < |cols|
      invariant 0 <= j <= |cols|
      invariant row == RowOf(cols, cells, j, cast, rev)
    {
      var value := CellValue(cols[j].columnType, cells[j], cast, rev);
      row := row[cols[j].name := value];
      j := j + 1;
    }
  }

  /** The row object has one key per distinct column name. */
  lemma {:induction false} RowOfKeys(cols: seq<Column>, cells: seq<Option<string>>, n: nat, cast: bool, rev: Revision)
    requires |cols| == |cells| && n <= |cols|
    ensures RowOf(cols, cells, n, cast, rev).Keys == set j | 0 <= j < n :: cols[j].name
  {
    if n > 0 {
      RowOfKeys(cols, cells, n - 1, cast, rev);
      var before := set j | 0 <= j < n - 1 :: cols[j].name;
      var after := set j | 0 <= j < n :: cols[j].name;
      assert after == before + {cols[n - 1].name};
    }
  }

  /** Each key holds the value of the last column carrying that name. */
  lemma {:induction false} RowOfLastWins(cols: seq<Column>, cells: seq<Option<string>>, n: nat, j: nat, cast: bool, rev: Revision)
    requires |cols| == |cells| && j < n <= |cols|
    requires forall k :: j < k < n ==> cols[k].name != cols[j].name
    ensures cols[j].name in RowOf(cols, cells, n, cast, rev)
    ensures RowOf(cols, cells, n, cast, rev)[cols[j].name] == CellValue(cols[j].columnType, cells[j], cast, rev)
  {
    if j < n - 1 {
      RowOfLastWins(cols, cells, n - 1, j, cast, rev);
    }
  }
}
