/** Histories of accepted steps, and what can be asked of them. */
module Histories {
  import opened Common

  /** The last step of a kind. */
  function Last<S>(h: seq<S>, p: S -> bool): Option<S> {
    if h == [] then None
    else if p(h[|h| - 1]) then Some(h[|h| - 1])
    else Last(h[..|h| - 1], p)
  }

  /** The first step of a kind. */
  function First<S>(h: seq<S>, p: S -> bool): Option<S> {
    if h == [] then None
    else
      var before := First(h[..|h| - 1], p);
      if before.Some? then before else if p(h[|h| - 1]) then Some(h[|h| - 1]) else None
  }

  function Count<S>(h: seq<S>, p: S -> bool): nat {
    if h == [] then 0 else Count(h[..|h| - 1], p) + (if p(h[|h| - 1]) then 1 else 0)
  }

  /** The steps after the last of a kind. */
  function Since<S>(h: seq<S>, p: S -> bool): seq<S> {
    if h == [] then []
    else if p(h[|h| - 1]) then []
    else Since(h[..|h| - 1], p) + [h[|h| - 1]]
  }

  predicate Has<S>(h: seq<S>, p: S -> bool) {
    Last(h, p).Some?
  }

  lemma Append<S>(h: seq<S>, s: S, p: S -> bool)
    ensures Last(h + [s], p) == if p(s) then Some(s) else Last(h, p)
    ensures First(h + [s], p) == if First(h, p).Some? then First(h, p) else if p(s) then Some(s) else None
    ensures Count(h + [s], p) == Count(h, p) + (if p(s) then 1 else 0)
    ensures Since(h + [s], p) == if p(s) then [] else Since(h, p) + [s]
  {
    assert (h + [s])[..|h|] == h;
  }

  lemma {:induction false} LastIs<S>(h: seq<S>, p: S -> bool)
    ensures Has(h, p) <==> exists i :: 0 <= i < |h| && p(h[i])
    ensures Has(h, p) ==> p(Last(h, p).value) && Last(h, p).value in h
    decreases h
  {
    if h != [] {
      LastIs(h[..|h| - 1], p);
      if Has(h[..|h| - 1], p) {
        var i :| 0 <= i < |h| - 1 && p(h[..|h| - 1][i]);
        assert p(h[i]);
      }
    }
  }
}
