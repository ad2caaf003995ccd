/** What several modules need to know about sequences and rings. */
module Sequences {
  lemma Reassociate<T>(x: seq<T>, y: seq<T>, z: seq<T>)
    ensures x + (y + z) == (x + y) + z
  {}

  lemma NothingAround<T>(s: seq<T>)
    ensures [] + s == s && s + [] == s
  {}

  lemma FirstAndRest<T>(s: seq<T>)
    requires s != []
    ensures s == [s[0]] + s[1..]
  {}

  lemma TailOfCons<T>(x: T, s: seq<T>)
    ensures ([x] + s)[1..] == s && |[x] + s| == 1 + |s|
  {}

  lemma FrontParts<T>(s: seq<T>, t: seq<T>, n: nat, m: nat)
    requires n <= |s| && m <= |s|
    ensures (s + t)[..n] == s[..n] && (s + t)[m..] == s[m..] + t
  {}

  lemma MoveFirst<T>(s: seq<T>, t: seq<T>)
    requires t != []
    ensures (s + [t[0]]) + t[1..] == s + t
  {}

  /** Where an index into a ring of `n` slots comes back when it has run past the end. */
  function Wrap(x: nat, n: nat): (r: nat)
    requires x < 2 * n
    ensures r < n
  {
    if x < n then x else x - n
  }
}
