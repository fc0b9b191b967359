/**
 * Placeholder rewriting: `parseQuery` in src/drizzle.cc and src/query.cc, and the
 * literal rendering `Query::value` of src/query.cc.
 *
 * The first pass scans the template once, deleting the backslash of every `\?`
 * and recording where each placeholder `?` lands in the rewritten text. The
 * second pass replaces those positions, left to right, by the rendered values.
 * `Pieces` is the reference meaning of the first pass, written with one
 * character of lookahead instead of the source's `escaped` flag; `ScanQuery`
 * is the source's loop, proved to agree with it.
 */
module Placeholders {
  import opened Wrappers
  import opened Texts

  /** The literal the scan is inside, if any (`char quote`, 0 meaning none). */
  datatype Quote = Unquoted | Quoted(mark: char)

  /** One character of the rewritten template, or a recognised placeholder. */
  datatype Piece = Chr(c: char) | Hole

  const WrongCount := "Wrong number of values to escape"

  // ------------------------------------------------------------------
  // Reference meaning of the scan

  /**
   * A backslash takes the next character with it whatever the quote state:
   * `\?` becomes a literal `?`, any other pair is kept as it is and its second
   * character neither opens or closes a quote nor is a placeholder. Outside a
   * literal a `'` or `"` opens one, which only the same character closes, and
   * a `?` is a placeholder.
   */
  function Pieces(q: string, quote: Quote): seq<Piece>
    decreases |q|
  {
    if q == [] then []
    else if q[0] == '\\' then
      if |q| == 1 then [Chr('\\')]
      else if q[1] == '?' then [Chr('?')] + Pieces(q[2..], quote)
      else [Chr('\\'), Chr(q[1])] + Pieces(q[2..], quote)
    else if quote.Quoted? && q[0] == quote.mark then [Chr(q[0])] + Pieces(q[1..], Unquoted)
    else if quote.Unquoted? && (q[0] == '\'' || q[0] == '"') then [Chr(q[0])] + Pieces(q[1..], Quoted(q[0]))
    else if quote.Unquoted? && q[0] == '?' then [Hole] + Pieces(q[1..], quote)
    else [Chr(q[0])] + Pieces(q[1..], quote)
  }

  function CharOf(p: Piece): char {
    match p
    case Chr(c) => c
    case Hole => '?'
  }

  /** The text after the first pass: every placeholder still reads `?`. */
  function Text(ps: seq<Piece>): (s: string)
    ensures |s| == |ps|
  {
    seq(|ps|, i requires 0 <= i < |ps| => CharOf(ps[i]))
  }

  /** The positions, in `Text(ps)`, of the placeholders, left to right (`positions`). */
  function Holes(ps: seq<Piece>): (hs: seq<nat>)
  {
    if ps == [] then []
    else Holes(ps[..|ps| - 1]) + (if ps[|ps| - 1] == Hole then [|ps| - 1] else [])
  }

  /** The reference result: each piece in order, the k-th placeholder replaced by `vs[k]`. */
  function Fill(ps: seq<Piece>, vs: seq<string>): string
    requires |vs| == |Holes(ps)|
  {
    if ps == [] then []
    else
      var init := ps[..|ps| - 1];
      match ps[|ps| - 1]
      case Chr(c) => Fill(init, vs) + [c]
      case Hole => Fill(init, vs[..|vs| - 1]) + vs[|vs| - 1]
  }

  // ------------------------------------------------------------------
  // One step of the reference scan

  /** The piece a character other than a backslash contributes in the given quote state. */
  function PieceOf(quote: Quote, c: char): Piece {
    if quote.Unquoted? && c == '?' then Hole else Chr(c)
  }

  /** The quote state after a character other than a backslash. */
  function NextQuote(quote: Quote, c: char): Quote {
    if quote.Quoted? && c == quote.mark then Unquoted
    else if quote.Unquoted? && (c == '\'' || c == '"') then Quoted(c)
    else quote
  }

  /** The pieces of a backslash followed by `c`. */
  function EscapePieces(c: char): seq<Piece> {
    if c == '?' then [Chr('?')] else [Chr('\\'), Chr(c)]
  }

  lemma PlainStep(rest: string, quote: Quote)
    requires |rest| >= 1 && rest[0] != '\\'
    ensures Pieces(rest, quote) == [PieceOf(quote, rest[0])] + Pieces(rest[1..], NextQuote(quote, rest[0]))
  {
  }

  lemma EscapeStep(rest: string, quote: Quote)
    requires |rest| >= 2 && rest[0] == '\\'
    ensures Pieces(rest, quote) == EscapePieces(rest[1]) + Pieces(rest[2..], quote)
  {
  }

  lemma TextAppend(ps: seq<Piece>, p: Piece)
    ensures Text(ps + [p]) == Text(ps) + [CharOf(p)]
  {
  }

  lemma HolesAppend(ps: seq<Piece>, p: Piece)
    ensures Holes(ps + [p]) == Holes(ps) + (if p == Hole then [|ps|] else [])
  {
    assert (ps + [p])[..|ps|] == ps;
  }

  /** The reference scan at a character that is not a backslash. */
  lemma PiecesAtPlain(query: string, from: nat, quote: Quote)
    requires from < |query| && query[from] != '\\'
    ensures Pieces(query[from..], quote)
         == [PieceOf(quote, query[from])] + Pieces(query[from + 1..], NextQuote(quote, query[from]))
  {
    assert query[from..][1..] == query[from + 1..];
    PlainStep(query[from..], quote);
  }

  /** The reference scan at a backslash that has a character after it. */
  lemma PiecesAtEscape(query: string, from: nat, quote: Quote)
    requires from + 1 < |query| && query[from] == '\\'
    ensures Pieces(query[from..], quote) == EscapePieces(query[from + 1]) + Pieces(query[from + 2..], quote)
  {
    assert query[from..][1] == query[from + 1];
    assert query[from..][2..] == query[from + 2..];
    EscapeStep(query[from..], quote);
  }

  /** Keeping the scanned character in `parsed`. */
  lemma KeepOne(parsed: string, done: seq<Piece>, query: string, from: nat, p: Piece)
    requires from < |query| && CharOf(p) == query[from]
    requires parsed == Text(done) + query[from..]
    ensures parsed == Text(done + [p]) + query[from + 1..]
  {
    TextAppend(done, p);
    assert query[from..] == [query[from]] + query[from + 1..];
  }

  /** Keeping a backslash and the character after it in `parsed`. */
  lemma KeepPair(parsed: string, done: seq<Piece>, query: string, from: nat)
    requires from + 1 < |query| && query[from] == '\\' && query[from + 1] != '?'
    requires parsed == Text(done) + query[from..]
    ensures parsed == Text(done + EscapePieces(query[from + 1])) + query[from + 2..]
  {
    var c := query[from + 1];
    TextAppend(done, Chr('\\'));
    TextAppend(done + [Chr('\\')], Chr(c));
    assert done + [Chr('\\')] + [Chr(c)] == done + EscapePieces(c);
    assert query[from..] == ['\\', c] + query[from + 2..];
  }

  /** Deleting the backslash of `\?` from `parsed`, at its position less the deletions so far. */
  lemma DropBackslash(parsed: string, done: seq<Piece>, query: string, from: nat)
    requires from + 1 < |query| && query[from] == '\\' && query[from + 1] == '?'
    requires parsed == Text(done) + query[from..]
    ensures |done| < |parsed|
    ensures parsed[..|done|] + parsed[|done| + 1..] == Text(done + EscapePieces('?')) + query[from + 2..]
  {
    TextAppend(done, Chr('?'));
    assert parsed[..|done|] == Text(done);
    assert parsed[|done| + 1..] == query[from + 1..];
    assert query[from + 1..] == ['?'] + query[from + 2..];
  }

  lemma Regroup<T>(whole: seq<T>, done: seq<T>, e: seq<T>, rest: seq<T>)
    requires whole == done + (e + rest)
    ensures whole == (done + e) + rest
  {
  }

  /** The reference scan across an escaped pair, with what it does to the placeholder positions. */
  lemma ScanEscaped(whole: seq<Piece>, done: seq<Piece>, query: string, from: nat, quote: Quote)
    requires from + 1 < |query| && query[from] == '\\'
    requires whole == done + Pieces(query[from..], quote)
    ensures whole == (done + EscapePieces(query[from + 1])) + Pieces(query[from + 2..], quote)
    ensures Holes(done + EscapePieces(query[from + 1])) == Holes(done)
  {
    PiecesAtEscape(query, from, quote);
    Regroup(whole, done, EscapePieces(query[from + 1]), Pieces(query[from + 2..], quote));
    EscapeHoles(done, query[from + 1]);
  }

  /** The reference scan across a character that is not a backslash. */
  lemma ScanPlain(whole: seq<Piece>, done: seq<Piece>, query: string, from: nat, quote: Quote)
    requires from < |query| && query[from] != '\\'
    requires whole == done + Pieces(query[from..], quote)
    ensures var p := PieceOf(quote, query[from]);
      && whole == (done + [p]) + Pieces(query[from + 1..], NextQuote(quote, query[from]))
      && Holes(done + [p]) == Holes(done) + (if p == Hole then [|done|] else [])
  {
    var p := PieceOf(quote, query[from]);
    PiecesAtPlain(query, from, quote);
    Regroup(whole, done, [p], Pieces(query[from + 1..], NextQuote(quote, query[from])));
    HolesAppend(done, p);
  }

  lemma EscapeHoles(ps: seq<Piece>, c: char)
    ensures Holes(ps + EscapePieces(c)) == Holes(ps)
  {
    HolesAppend(ps, Chr('?'));
    HolesAppend(ps, Chr('\\'));
    HolesAppend(ps + [Chr('\\')], Chr(c));
    assert (ps + [Chr('\\')]) + [Chr(c)] == ps + [Chr('\\'), Chr(c)];
  }

  // ------------------------------------------------------------------
  // The first pass, as the source runs it

  /**
   * The state of the scanning loop before the character at `i`: `from` is
   * where the unscanned part of the template starts (one before `i` while a
   * backslash is pending), `done` the pieces scanned so far, `delta` the
   * backslashes deleted so far, and `parsed` the rewritten prefix followed by
   * the untouched rest of the template.
   */
  ghost predicate ScanState(query: string, i: nat, escaped: bool, quote: Quote, from: nat, delta: nat,
                            done: seq<Piece>, parsed: string, positions: seq<nat>)
  {
    && i <= |query|
    && from == (if escaped then i - 1 else i)
    && from <= i
    && (escaped ==> from < |query| && query[from] == '\\')
    && from == delta + |done|
    && Pieces(query, Unquoted) == done + Pieces(query[from..], quote)
    && parsed == Text(done) + query[from..]
    && positions == Holes(done)
  }

  /** The character after a pending backslash: `\?` loses its backslash, any other pair is kept. */
  lemma ScanAfterBackslash(query: string, i: nat, quote: Quote, from: nat, delta: nat,
                           done: seq<Piece>, parsed: string, positions: seq<nat>)
    requires i < |query| && ScanState(query, i, true, quote, from, delta, done, parsed, positions)
    ensures query[i] == '?' ==>
      && 0 <= i - 1 - delta < |parsed|
      && ScanState(query, i + 1, false, quote, i + 1, delta + 1, done + EscapePieces('?'),
                   parsed[..i - 1 - delta] + parsed[i - delta..], positions)
    ensures query[i] != '?' ==>
      ScanState(query, i + 1, false, quote, i + 1, delta, done + EscapePieces(query[i]), parsed, positions)
  {
    ScanEscaped(Pieces(query, Unquoted), done, query, from, quote);
    if query[i] == '?' {
      DropBackslash(parsed, done, query, from);
    } else {
      KeepPair(parsed, done, query, from);
    }
  }

  /** A backslash outside a pending escape: nothing is written yet. */
  lemma ScanBackslash(query: string, i: nat, quote: Quote, delta: nat,
                      done: seq<Piece>, parsed: string, positions: seq<nat>)
    requires i < |query| && query[i] == '\\'
    requires ScanState(query, i, false, quote, i, delta, done, parsed, positions)
    ensures ScanState(query, i + 1, true, quote, i, delta, done, parsed, positions)
  {
  }

  /** Any other character: kept, possibly opening or closing a literal, or recorded as a placeholder. */
  lemma ScanOther(query: string, i: nat, quote: Quote, delta: nat,
                  done: seq<Piece>, parsed: string, positions: seq<nat>)
    requires i < |query| && query[i] != '\\'
    requires ScanState(query, i, false, quote, i, delta, done, parsed, positions)
    ensures var p := PieceOf(quote, query[i]);
      ScanState(query, i + 1, false, NextQuote(quote, query[i]), i + 1, delta, done + [p], parsed,
                positions + (if p == Hole then [i - delta] else []))
  {
    ScanPlain(Pieces(query, Unquoted), done, query, i, quote);
    KeepOne(parsed, done, query, i, PieceOf(quote, query[i]));
  }

  /** At the end of the template the scan is complete; a final lone backslash is kept. */
  lemma ScanDone(query: string, escaped: bool, quote: Quote, from: nat, delta: nat,
                 done: seq<Piece>, parsed: string, positions: seq<nat>)
    requires ScanState(query, |query|, escaped, quote, from, delta, done, parsed, positions)
    ensures parsed == Text(Pieces(query, Unquoted))
    ensures positions == Holes(Pieces(query, Unquoted))
  {
    var whole := Pieces(query, Unquoted);
    if escaped {
      assert query[from..] == ['\\'];
      assert Pieces(['\\'], quote) == [Chr('\\')];
      assert whole == done + [Chr('\\')];
      TextAppend(done, Chr('\\'));
      HolesAppend(done, Chr('\\'));
    } else {
      assert query[from..] == [];
      assert whole == done + [];
      assert done + [] == done;
    }
  }

  /**
   * The scanning loop of `parseQuery` (identical in both revisions): `parsed`
   * starts as a copy of the template, each `\?` loses its backslash in place,
   * and `delta` counts the deletions so that `i - delta` is the position in
   * `parsed` of the character at `i` in the template.
   */
  method ScanQuery(query: string) returns (parsed: string, positions: seq<nat>)
    ensures parsed == Text(Pieces(query, Unquoted))
    ensures positions == Holes(Pieces(query, Unquoted))
  {
    parsed := query;
    positions := [];
    var quote := Unquoted;
    var escaped := false;
    var delta := 0;
    ghost var done: seq<Piece> := [];
    ghost var from := 0;
    assert query[0..] == query;
    var i := 0;
    while i < |query|
      invariant ScanState(query, i, escaped, quote, from, delta, done, parsed, positions)
    {
      var c := query[i];
      if escaped {
        ScanAfterBackslash(query, i, quote, from, delta, done, parsed, positions);
        if c == '?' {
          parsed := parsed[..i - 1 - delta] + parsed[i - delta..];
          delta := delta + 1;
        }
        done := done + EscapePieces(c);
        escaped := false;
        from := i + 1;
      } else if c == '\\' {
        ScanBackslash(query, i, quote, delta, done, parsed, positions);
        escaped := true;
      } else {
        ScanOther(query, i, quote, delta, done, parsed, positions);
        ghost var p := PieceOf(quote, c);
        if quote.Quoted? && c == quote.mark {
          quote := Unquoted;
        } else if quote.Unquoted? && (c == '\'' || c == '"') {
          quote := Quoted(c);
        } else if quote.Unquoted? && c == '?' {
          positions := positions + [i - delta];
        }
        done := done + [p];
        from := i + 1;
      }
      i := i + 1;
    }
    ScanDone(query, escaped, quote, from, delta, done, parsed, positions);
  }

  // ------------------------------------------------------------------
  // The second pass: splicing rendered values into the rewritten text

  /** Placeholder positions as the first pass yields them: inside the text and strictly increasing. */
  predicate ValidPositions(s: string, positions: seq<nat>) {
    && (forall k :: 0 <= k < |positions| ==> positions[k] < |s|)
    && (forall j, k :: 0 <= j < k < |positions| ==> positions[j] < positions[k])
  }

  /**
   * `s` with the character at each of `positions` replaced by the string of
   * `vs` at the same index, and every other character kept in order.
   */
  function Substitute(s: string, positions: seq<nat>, vs: seq<string>): string
    requires |positions| == |vs| && ValidPositions(s, positions)
    decreases |positions|
  {
    if positions == [] then s
    else
      var n := |positions| - 1;
      Substitute(s[..positions[n]], positions[..n], vs[..n]) + vs[n] + s[positions[n] + 1..]
  }

  /** The last replacement of a substitution, taken apart. */
  lemma SubstituteLast(s: string, positions: seq<nat>, vs: seq<string>)
    requires |positions| == |vs| && ValidPositions(s, positions) && positions != []
    ensures var n := |positions| - 1;
      && ValidPositions(s[..positions[n]], positions[..n])
      && Substitute(s, positions, vs) == Substitute(s[..positions[n]], positions[..n], vs[..n]) + vs[n] + s[positions[n] + 1..]
  {
  }

  lemma ValidAppend(s: string, t: string, positions: seq<nat>)
    requires ValidPositions(s, positions)
    ensures ValidPositions(s + t, positions)
  {
    forall k | 0 <= k < |positions| ensures positions[k] < |s + t| {
    }
  }

  /** Text after the last position plays no part in the substitution. */
  lemma SubstituteAppend(s: string, t: string, positions: seq<nat>, vs: seq<string>)
    requires |positions| == |vs| && ValidPositions(s, positions)
    ensures ValidPositions(s + t, positions)
    ensures Substitute(s + t, positions, vs) == Substitute(s, positions, vs) + t
  {
    ValidAppend(s, t, positions);
    if positions != [] {
      var n := |positions| - 1;
      var p := positions[n];
      SubstituteLast(s, positions, vs);
      SubstituteLast(s + t, positions, vs);
      SliceAppend(s, t, p);
      var head := Substitute(s[..p], positions[..n], vs[..n]) + vs[n];
      AppendAssoc(head, s[p + 1..], t);
    }
  }

  lemma SliceAppend<T>(s: seq<T>, t: seq<T>, p: nat)
    requires p < |s|
    ensures (s + t)[..p] == s[..p] && (s + t)[p + 1..] == s[p + 1..] + t
  {
  }

  /** The state of the splice loop before and after its k-th replacement. */
  lemma SpliceStep(s: string, positions: seq<nat>, vs: seq<string>, k: nat)
    requires |positions| == |vs| && ValidPositions(s, positions) && k < |positions|
    ensures ValidPositions(s[..positions[k]], positions[..k])
    ensures ValidPositions(s, positions[..k]) && ValidPositions(s, positions[..k + 1])
    ensures var a := Substitute(s[..positions[k]], positions[..k], vs[..k]);
      && Substitute(s, positions[..k], vs[..k]) == a + s[positions[k]..]
      && Substitute(s, positions[..k + 1], vs[..k + 1]) == a + vs[k] + s[positions[k] + 1..]
  {
    var p := positions[k];
    SubstituteAppend(s[..p], s[p..], positions[..k], vs[..k]);
    assert s[..p] + s[p..] == s;
    assert positions[..k + 1][..k] == positions[..k];
    assert vs[..k + 1][..k] == vs[..k];
  }

  /**
   * The substitution loop of `parseQuery` with `delta` kept as a signed
   * integer: each placeholder, shifted by `delta`, is replaced by its value,
   * and `delta` grows by the value's length less one.
   */
  method Splice(s: string, positions: seq<nat>, vs: seq<string>) returns (out: string)
    requires |positions| == |vs| && ValidPositions(s, positions)
    ensures out == Substitute(s, positions, vs)
  {
    out := s;
    var delta: int := 0;
    var k := 0;
    while k < |positions|
      invariant 0 <= k <= |positions|
      invariant ValidPositions(s, positions[..k])
      invariant out == Substitute(s, positions[..k], vs[..k])
      invariant delta == |out| - |s|
    {
      SpliceStep(s, positions, vs, k);
      var at := positions[k] + delta;
      out := out[..at] + vs[k] + out[at + 1..];
      delta := delta + |vs[k]| - 1;
      k := k + 1;
    }
    assert positions[..k] == positions && vs[..k] == vs;
  }

  lemma {:induction false} HolesInText(ps: seq<Piece>)
    ensures ValidPositions(Text(ps), Holes(ps))
  {
    if ps != [] {
      var init := ps[..|ps| - 1];
      HolesInText(init);
      assert init + [ps[|ps| - 1]] == ps;
      HolesAppend(init, ps[|ps| - 1]);
    }
  }

  /** A kept character at the end is kept after the substitution too. */
  lemma FillChrStep(init: seq<Piece>, c: char, vs: seq<string>)
    requires |vs| == |Holes(init)| && ValidPositions(Text(init), Holes(init))
    requires Substitute(Text(init), Holes(init), vs) == Fill(init, vs)
    ensures var ps := init + [Chr(c)];
      && |vs| == |Holes(ps)| && ValidPositions(Text(ps), Holes(ps))
      && Substitute(Text(ps), Holes(ps), vs) == Fill(ps, vs)
  {
    var ps := init + [Chr(c)];
    assert ps[..|ps| - 1] == init;
    HolesAppend(init, Chr(c));
    TextAppend(init, Chr(c));
    HolesInText(ps);
    SubstituteAppend(Text(init), [c], Holes(init), vs);
    assert Holes(ps) == Holes(init);
    assert Fill(ps, vs) == Fill(init, vs) + [c];
  }

  /** A placeholder at the end is replaced by the last value. */
  lemma FillHoleStep(init: seq<Piece>, vs: seq<string>)
    requires |vs| == |Holes(init)| + 1
    requires ValidPositions(Text(init), Holes(init))
    requires Substitute(Text(init), Holes(init), vs[..|vs| - 1]) == Fill(init, vs[..|vs| - 1])
    ensures var ps := init + [Hole];
      && |vs| == |Holes(ps)| && ValidPositions(Text(ps), Holes(ps))
      && Substitute(Text(ps), Holes(ps), vs) == Fill(ps, vs)
  {
    var ps := init + [Hole];
    assert ps[..|ps| - 1] == init;
    HolesAppend(init, Hole);
    TextAppend(init, Hole);
    HolesInText(ps);
    var n := |vs| - 1;
    var hs := Holes(ps);
    assert hs[..n] == Holes(init);
    assert Text(ps)[..hs[n]] == Text(init);
    assert Text(ps)[hs[n] + 1..] == [];
  }

  /** Splicing values at the recorded positions of the rewritten text gives the reference result. */
  lemma {:induction false} FillIsSubstitute(ps: seq<Piece>, vs: seq<string>)
    requires |vs| == |Holes(ps)|
    ensures ValidPositions(Text(ps), Holes(ps))
    ensures Substitute(Text(ps), Holes(ps), vs) == Fill(ps, vs)
  {
    HolesInText(ps);
    if ps != [] {
      var init := ps[..|ps| - 1];
      var last := ps[|ps| - 1];
      assert init + [last] == ps;
      HolesAppend(init, last);
      HolesInText(init);
      match last
      case Chr(c) =>
        FillIsSubstitute(init, vs);
        FillChrStep(init, c, vs);
      case Hole =>
        FillIsSubstitute(init, vs[..|vs| - 1]);
        FillHoleStep(init, vs);
    }
  }

  // ------------------------------------------------------------------
  // The substitution loop as written: 32-bit `delta`, 64-bit positions

  const U32: nat := 0x1_0000_0000

  /**
   * The substitution loop exactly as both revisions write it. `delta` is a
   * `uint32_t`, so adding the value's length less one wraps modulo 2^32 when a
   * value renders empty; the next shifted position is computed in the 64-bit
   * `size_t`, and `std::string::replace` throws `std::out_of_range` for a
   * position past the end of the string.
   */
  function SpliceAsWritten(out: string, positions: seq<nat>, vs: seq<string>, k: nat, delta: nat)
    : Result<string, string>
    requires |positions| == |vs| && k <= |positions| && delta < U32
    decreases |positions| - k
  {
    if k == |positions| then Success(out)
    else
      var at := positions[k] + delta;
      if at > |out| then Failure("basic_string::replace")
      else
        var tail := if at < |out| then out[at + 1..] else [];
        SpliceAsWritten(out[..at] + vs[k] + tail, positions, vs, k + 1, (delta + |vs[k]| - 1) % U32)
  }

  /** The net change of length the values bring: the sum of `|v| - 1`. */
  function Growth(vs: seq<string>): int {
    if vs == [] then 0 else Growth(vs[..|vs| - 1]) + |vs[|vs| - 1]| - 1
  }

  lemma {:induction false} SubstituteLength(s: string, positions: seq<nat>, vs: seq<string>)
    requires |positions| == |vs| && ValidPositions(s, positions)
    ensures |Substitute(s, positions, vs)| == |s| + Growth(vs)
    decreases |positions|
  {
    if positions != [] {
      var n := |positions| - 1;
      SubstituteLength(s[..positions[n]], positions[..n], vs[..n]);
    }
  }

  lemma {:induction false} GrowthMonotone(vs: seq<string>, k: nat)
    requires k <= |vs| && forall j :: 0 <= j < |vs| ==> |vs[j]| >= 1
    ensures 0 <= Growth(vs[..k]) <= Growth(vs)
    decreases |vs|
  {
    if k < |vs| {
      assert vs[..|vs| - 1][..k] == vs[..k];
      GrowthMonotone(vs[..|vs| - 1], k);
    } else {
      assert vs[..k] == vs;
      if vs != [] {
        GrowthMonotone(vs[..|vs| - 1], |vs| - 1);
        assert vs[..|vs| - 1][..|vs| - 1] == vs[..|vs| - 1];
      }
    }
  }

  /** While no value renders empty, `delta` before and after the k-th replacement is the growth so far. */
  lemma SpliceGrowth(vs: seq<string>, k: nat)
    requires k < |vs| && forall j :: 0 <= j < |vs| ==> |vs[j]| >= 1
    requires Growth(vs) < U32
    ensures 0 <= Growth(vs[..k]) < U32 && 0 <= Growth(vs[..k + 1]) < U32
    ensures Growth(vs[..k + 1]) == Growth(vs[..k]) + |vs[k]| - 1
  {
    GrowthMonotone(vs, k);
    GrowthMonotone(vs, k + 1);
    assert vs[..k + 1][..k] == vs[..k];
  }

  /** The k-th placeholder, shifted by the growth so far, is where the k-th value goes. */
  lemma SpliceShift(s: string, positions: seq<nat>, vs: seq<string>, k: nat)
    requires |positions| == |vs| && ValidPositions(s, positions) && k < |positions|
    ensures ValidPositions(s, positions[..k]) && ValidPositions(s, positions[..k + 1])
    ensures var out := Substitute(s, positions[..k], vs[..k]); var at := positions[k] + Growth(vs[..k]);
      && 0 <= at < |out|
      && out[..at] + vs[k] + out[at + 1..] == Substitute(s, positions[..k + 1], vs[..k + 1])
  {
    SpliceStep(s, positions, vs, k);
    var p := positions[k];
    var out := Substitute(s, positions[..k], vs[..k]);
    var a := Substitute(s[..p], positions[..k], vs[..k]);
    SubstituteLength(s, positions[..k], vs[..k]);
    var at := p + Growth(vs[..k]);
    assert at == |a|;
    assert out[..at] == a;
    assert out[at + 1..] == s[p + 1..];
  }

  /** One replacement of the loop as written, at a position inside the string. */
  lemma SpliceAsWrittenLink(out: string, next: string, positions: seq<nat>, vs: seq<string>, k: nat, d: nat, d1: nat)
    requires |positions| == |vs| && k < |positions| && d < U32 && d1 < U32
    requires positions[k] + d < |out|
    requires out[..positions[k] + d] + vs[k] + out[positions[k] + d + 1..] == next
    requires d + |vs[k]| - 1 == d1
    ensures SpliceAsWritten(out, positions, vs, k, d) == SpliceAsWritten(next, positions, vs, k + 1, d1)
  {
    assert (d + |vs[k]| - 1) % U32 == d1;
  }

  lemma {:induction false} SpliceAsWrittenFrom(s: string, positions: seq<nat>, vs: seq<string>, k: nat)
    requires |positions| == |vs| && ValidPositions(s, positions) && k <= |positions|
    requires forall j :: 0 <= j < |vs| ==> |vs[j]| >= 1
    requires Growth(vs) < U32
    ensures ValidPositions(s, positions[..k])
    ensures 0 <= Growth(vs[..k]) < U32
    ensures SpliceAsWritten(Substitute(s, positions[..k], vs[..k]), positions, vs, k, Growth(vs[..k]))
         == Success(Substitute(s, positions, vs))
    decreases |positions| - k
  {
    GrowthMonotone(vs, k);
    if k == |positions| {
      assert positions[..k] == positions && vs[..k] == vs;
    } else {
      SpliceGrowth(vs, k);
      SpliceShift(s, positions, vs, k);
      var out := Substitute(s, positions[..k], vs[..k]);
      var next := Substitute(s, positions[..k + 1], vs[..k + 1]);
      SpliceAsWrittenLink(out, next, positions, vs, k, Growth(vs[..k]), Growth(vs[..k + 1]));
      SpliceAsWrittenFrom(s, positions, vs, k + 1);
    }
  }

  /** As long as no value renders empty, the loop as written computes the substitution. */
  lemma SpliceAsWrittenAgrees(s: string, positions: seq<nat>, vs: seq<string>)
    requires |positions| == |vs| && ValidPositions(s, positions)
    requires forall j :: 0 <= j < |vs| ==> |vs[j]| >= 1
    requires Growth(vs) < U32
    ensures SpliceAsWritten(s, positions, vs, 0, 0) == Success(Substitute(s, positions, vs))
  {
    SpliceAsWrittenFrom(s, positions, vs, 0);
    assert positions[..0] == [] && vs[..0] == [];
  }

  lemma PlaceholderSpaceScan()
    ensures Pieces("? ?", Unquoted) == [Hole, Chr(' '), Hole]
  {
    PlainStep("? ?", Unquoted);
    assert "? ?"[1..] == " ?";
    PlainStep(" ?", Unquoted);
    assert " ?"[1..] == "?";
    PlainStep("?", Unquoted);
    assert "?"[1..] == "";
  }

  lemma PlaceholdersAround(c: char)
    ensures Holes([Hole, Chr(c), Hole]) == [0, 2]
    ensures Text([Hole, Chr(c), Hole]) == ['?', c, '?']
  {
    var p1 := [Hole];
    var p2 := p1 + [Chr(c)];
    var p3 := p2 + [Hole];
    assert p3 == [Hole, Chr(c), Hole];
    HolesAppend([], Hole);
    assert [] + [Hole] == p1;
    HolesAppend(p1, Chr(c));
    HolesAppend(p2, Hole);
  }

  lemma EmptyFirstSubstitute()
    ensures ValidPositions("? ?", [0, 2])
    ensures Substitute("? ?", [0, 2], ["", "1"]) == " 1"
  {
    assert [0, 2][..1] == [0] && ["", "1"][..1] == [""];
    assert [0][..0] == [] && [""][..0] == [];
    assert "? ?"[..2] == "? " && "? ?"[3..] == "";
    assert "? "[..0] == "" && "? "[1..] == " ";
    assert Substitute("? ", [0], [""]) == "" + "" + " ";
  }

  lemma EmptyFirstSpliceFails()
    ensures SpliceAsWritten("? ?", [0, 2], ["", "1"], 0, 0).Failure?
  {
    assert "? ?"[..0] == "" && "? ?"[1..] == " ?";
    assert "" + "" + " ?" == " ?";
    assert (0 + |""| - 1) % U32 == U32 - 1;
    assert SpliceAsWritten("? ?", [0, 2], ["", "1"], 0, 0)
        == SpliceAsWritten(" ?", [0, 2], ["", "1"], 1, U32 - 1);
  }

  /**
   * `"? ?"` with an unsupported first value (which renders empty) and `1`:
   * the intended statement is `" 1"`, but the loop as written wraps `delta`
   * to 2^32 - 1 and the second `replace` is asked for position 2^32 + 1.
   */
  lemma EmptyRenderingThrows()
    ensures Holes(Pieces("? ?", Unquoted)) == [0, 2]
    ensures Text(Pieces("? ?", Unquoted)) == "? ?"
    ensures Substitute("? ?", [0, 2], ["", "1"]) == " 1"
    ensures SpliceAsWritten("? ?", [0, 2], ["", "1"], 0, 0).Failure?
  {
    PlaceholderSpaceScan();
    PlaceholdersAround(' ');
    EmptyFirstSubstitute();
    EmptyFirstSpliceFails();
  }

  // ------------------------------------------------------------------
  // Facts about the reference scan

  /** Every character kept as itself. */
  function Chrs(s: string): (ps: seq<Piece>)
    ensures |ps| == |s|
  {
    seq(|s|, i requires 0 <= i < |s| => Chr(s[i]))
  }

  lemma {:induction false} ChrsPlain(s: string)
    ensures Holes(Chrs(s)) == [] && Text(Chrs(s)) == s && Fill(Chrs(s), []) == s
  {
    if s != [] {
      var init := s[..|s| - 1];
      var c := s[|s| - 1];
      var ps := Chrs(s);
      ChrsPlain(init);
      assert ps == Chrs(init) + [Chr(c)];
      assert ps[..|ps| - 1] == Chrs(init);
      HolesAppend(Chrs(init), Chr(c));
      TextAppend(Chrs(init), Chr(c));
      assert init + [c] == s;
      assert Fill(ps, []) == Fill(Chrs(init), []) + [c];
    }
  }

  /** Without a backslash or a `?`, the scan keeps the template as it is, in any quote state. */
  lemma {:induction false} PlainTemplate(q: string, quote: Quote)
    requires forall i :: 0 <= i < |q| ==> q[i] != '\\' && q[i] != '?'
    ensures Pieces(q, quote) == Chrs(q)
    decreases |q|
  {
    if q != [] {
      PlainStep(q, quote);
      PlainTemplate(q[1..], NextQuote(quote, q[0]));
      assert Chrs(q) == [Chr(q[0])] + Chrs(q[1..]);
    }
  }

  /** A template without a placeholder or an escape comes out unchanged, with no value to bind. */
  lemma NoPlaceholderUnchanged(q: string)
    requires forall i :: 0 <= i < |q| ==> q[i] != '\\' && q[i] != '?'
    ensures Holes(Pieces(q, Unquoted)) == []
    ensures Fill(Pieces(q, Unquoted), []) == q
  {
    PlainTemplate(q, Unquoted);
    ChrsPlain(q);
  }

  /** Inside a literal, characters other than its quote and a backslash are copied: a `?` there is text. */
  lemma {:induction false} QuotedBody(body: string, mark: char, rest: string)
    requires mark == '\'' || mark == '"'
    requires forall i :: 0 <= i < |body| ==> body[i] != mark && body[i] != '\\'
    ensures Pieces(body + [mark] + rest, Quoted(mark)) == Chrs(body) + [Chr(mark)] + Pieces(rest, Unquoted)
    decreases |body|
  {
    var q := body + [mark] + rest;
    PlainStep(q, Quoted(mark));
    if body == [] {
      assert q[1..] == rest;
    } else {
      var tail := [mark] + rest;
      AppendAssoc(body, [mark], rest);
      TailAppend(body, tail);
      AppendAssoc(body[1..], [mark], rest);
      QuotedBody(body[1..], mark, rest);
      var after := [Chr(mark)] + Pieces(rest, Unquoted);
      ChrsCons(body);
      AppendAssoc([Chr(body[0])], Chrs(body[1..]), after);
      AppendAssoc(Chrs(body[1..]), [Chr(mark)], Pieces(rest, Unquoted));
      AppendAssoc(Chrs(body), [Chr(mark)], Pieces(rest, Unquoted));
    }
  }

  lemma TailAppend<T>(x: seq<T>, y: seq<T>)
    requires x != []
    ensures (x + y)[0] == x[0] && (x + y)[1..] == x[1..] + y
  {
  }

  lemma ChrsCons(s: string)
    requires s != []
    ensures Chrs(s) == [Chr(s[0])] + Chrs(s[1..])
  {
  }

  /** A whole quoted literal is copied verbatim and the scan resumes outside any literal. */
  lemma QuotedLiteralVerbatim(body: string, mark: char, rest: string)
    requires mark == '\'' || mark == '"'
    requires forall i :: 0 <= i < |body| ==> body[i] != mark && body[i] != '\\'
    ensures Pieces([mark] + body + [mark] + rest, Unquoted) == Chrs([mark] + body + [mark]) + Pieces(rest, Unquoted)
  {
    var q := [mark] + body + [mark] + rest;
    PlainStep(q, Unquoted);
    assert q[1..] == body + [mark] + rest;
    QuotedBody(body, mark, rest);
    assert Chrs([mark] + body + [mark]) == [Chr(mark)] + Chrs(body) + [Chr(mark)];
  }

  /** A character the scan copies as itself from outside a literal and after which it is still outside. */
  predicate Plain(c: char) {
    c != '\\' && c != '?' && c != '\'' && c != '"'
  }

  /** A stretch of plain characters outside a literal is copied and the scan stays outside. */
  lemma {:induction false} OutsidePlain(x: string, rest: string)
    requires forall i :: 0 <= i < |x| ==> Plain(x[i])
    ensures Pieces(x + rest, Unquoted) == Chrs(x) + Pieces(rest, Unquoted)
    decreases |x|
  {
    if x != [] {
      TailAppend(x, rest);
      assert Plain(x[0]);
      PlainStep(x + rest, Unquoted);
      assert Pieces(x + rest, Unquoted) == [Chr(x[0])] + Pieces(x[1..] + rest, Unquoted);
      assert forall i :: 0 <= i < |x[1..]| ==> Plain(x[1..][i]);
      OutsidePlain(x[1..], rest);
      ChrsCons(x);
      AppendAssoc([Chr(x[0])], Chrs(x[1..]), Pieces(rest, Unquoted));
    } else {
      assert x + rest == rest && Chrs(x) == [];
    }
  }

  lemma TextConcat(a: seq<Piece>, b: seq<Piece>)
    ensures Text(a + b) == Text(a) + Text(b)
  {
  }

  lemma OnePlaceholderPieces(x: string, y: string)
    requires forall i :: 0 <= i < |x| ==> Plain(x[i])
    requires forall i :: 0 <= i < |y| ==> Plain(y[i])
    ensures Pieces(x + "?" + y, Unquoted) == Chrs(x) + ([Hole] + Chrs(y))
  {
    AppendAssoc(x, "?", y);
    OutsidePlain(x, "?" + y);
    TailAppend("?", y);
    PlainStep("?" + y, Unquoted);
    PlainTemplate(y, Unquoted);
  }

  lemma OnePlaceholderHoles(x: string, y: string)
    ensures Holes(Chrs(x) + ([Hole] + Chrs(y))) == [|x|]
  {
    var h := [Hole] + Chrs(y);
    ChrsPlain(y);
    HolesConcat([Hole], Chrs(y));
    assert Holes([Hole]) == [0] by {
      HolesAppend([], Hole);
      assert [] + [Hole] == [Hole];
    }
    assert Shift([], 1) == [];
    assert Holes(h) == [0];
    ChrsPlain(x);
    HolesConcat(Chrs(x), h);
    assert Shift([0], |x|) == [|x|];
  }

  lemma OnePlaceholderText(x: string, y: string)
    ensures Text(Chrs(x) + ([Hole] + Chrs(y))) == x + (['?'] + y)
  {
    TextConcat(Chrs(x), [Hole] + Chrs(y));
    TextConcat([Hole], Chrs(y));
    ChrsPlain(x);
    ChrsPlain(y);
  }

  /**
   * A template with a single placeholder between plain text: the placeholder
   * sits right after `x`, and binding `v` puts `v` between `x` and `y`.
   */
  lemma OnePlaceholder(x: string, y: string, v: string)
    requires forall i :: 0 <= i < |x| ==> Plain(x[i])
    requires forall i :: 0 <= i < |y| ==> Plain(y[i])
    ensures Holes(Pieces(x + "?" + y, Unquoted)) == [|x|]
    ensures Fill(Pieces(x + "?" + y, Unquoted), [v]) == x + v + y
  {
    OnePlaceholderPieces(x, y);
    var ps := Chrs(x) + ([Hole] + Chrs(y));
    OnePlaceholderHoles(x, y);
    OnePlaceholderText(x, y);
    var t := x + (['?'] + y);
    FillIsSubstitute(ps, [v]);
    SubstituteLast(t, [|x|], [v]);
    assert t[..|x|] == x && t[|x| + 1..] == y;
    assert Substitute(x, [], []) == x;
  }

  /** The statement grows by the rendered lengths, less one for each placeholder they replace. */
  lemma FilledLength(ps: seq<Piece>, vs: seq<string>)
    requires |vs| == |Holes(ps)|
    ensures |Fill(ps, vs)| == |ps| + Growth(vs)
  {
    FillIsSubstitute(ps, vs);
    SubstituteLength(Text(ps), Holes(ps), vs);
  }

  function Shift(hs: seq<nat>, offset: nat): (r: seq<nat>)
    ensures |r| == |hs|
  {
    seq(|hs|, i requires 0 <= i < |hs| => hs[i] + offset)
  }

  /** The placeholders of a concatenation: those of the left part, then those of the right part moved along. */
  lemma {:induction false} HolesConcat(a: seq<Piece>, b: seq<Piece>)
    ensures Holes(a + b) == Holes(a) + Shift(Holes(b), |a|)
    decreases |b|
  {
    if b == [] {
      assert a + b == a;
    } else {
      var init := b[..|b| - 1];
      var last := b[|b| - 1];
      assert init + [last] == b;
      assert a + b == (a + init) + [last];
      HolesConcat(a, init);
      HolesAppend(a + init, last);
      HolesAppend(init, last);
      var e := if last == Hole then [|init|] else [];
      ShiftAppend(Holes(init), e, |a|);
      assert Shift(e, |a|) == if last == Hole then [|a + init|] else [];
      AppendAssoc(Holes(a), Shift(Holes(init), |a|), Shift(e, |a|));
    }
  }

  lemma ShiftAppend(x: seq<nat>, y: seq<nat>, offset: nat)
    ensures Shift(x + y, offset) == Shift(x, offset) + Shift(y, offset)
  {
  }

  /** `\? ?` with one value: the escaped mark is text, the bare one is bound. */
  lemma EscapedMarkExample()
    ensures Holes(Pieces("\\? ?", Unquoted)) == [2]
    ensures Fill(Pieces("\\? ?", Unquoted), ["5"]) == "? 5"
  {
    var ps := Pieces("\\? ?", Unquoted);
    assert ps == [Chr('?'), Chr(' '), Hole];
    assert [Chr('?'), Chr(' '), Hole][..2] == [Chr('?'), Chr(' ')];
    assert [Chr('?'), Chr(' ')][..1] == [Chr('?')];
  }
}
