/** Small facts about strings shared by the rendering, the cell coercion and the buffering, and how a C string is read. */
module Texts {

  /** `xs` joined with `sep` between neighbours. */
  function Join(sep: string, xs: seq<string>): string {
    if |xs| == 0 then ""
    else if |xs| == 1 then xs[0]
    else Join(sep, xs[..|xs| - 1]) + sep + xs[|xs| - 1]
  }

  lemma JoinAppend(sep: string, xs: seq<string>, x: string)
    ensures Join(sep, xs + [x]) == if xs == [] then x else Join(sep, xs) + sep + x
  {
    assert (xs + [x])[..|xs|] == xs;
  }

  lemma AppendAssoc<T>(a: seq<T>, b: seq<T>, c: seq<T>)
    ensures a + (b + c) == (a + b) + c
  {
  }

  // ------------------------------------------------------------------
  // C strings

  /** The text before the first NUL. */
  function UpToNul(t: string): (r: string)
    ensures |r| <= |t| && r == t[..|r|] && '\0' !in r
    ensures |r| < |t| ==> t[|r|] == '\0'
  {
    if t == [] || t[0] == '\0' then ""
    else [t[0]] + UpToNul(t[1..])
  }

  /** The first NUL of `t` is at `k` (or `t` has none and `k` is its length). */
  lemma UpToNulAt(t: string, k: nat)
    requires k <= |t| && '\0' !in t[..k]
    requires k < |t| ==> t[k] == '\0'
    ensures UpToNul(t) == t[..k]
  {
  }

  /** A text without a NUL of its own is read back whole. */
  lemma NulFreeWhole(t: string)
    requires '\0' !in t
    ensures UpToNul(t) == t
  {
    UpToNulAt(t, |t|);
    assert t[..|t|] == t;
  }
}
