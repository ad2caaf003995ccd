/** Searching in strings. A byte of the C code is a `char` here. */
module Text {
  const CR := '\r'
  const LF := '\n'
  const NUL := '\0'

  /** The first position of `c`, or the length. */
  function Find(s: string, c: char): (k: nat)
    ensures k <= |s| && c !in s[..k] && (k < |s| ==> s[k] == c)
  {
    if s == [] || s[0] == c then 0
    else
      var k := 1 + Find(s[1..], c);
      assert s[..k] == [s[0]] + s[1..][..k - 1];
      k
  }

  lemma {:induction false} FindIs(s: string, c: char, k: nat)
    requires k <= |s| && c !in s[..k] && (k < |s| ==> s[k] == c)
    ensures Find(s, c) == k
  {
    if k > 0 {
      assert s[..k] == [s[0]] + s[1..][..k - 1];
      FindIs(s[1..], c, k - 1);
    }
  }

  /** A C string: the characters before the first NUL. */
  function CStr(s: string): string { s[..Find(s, NUL)] }

  lemma CStrClean(s: string)
    requires NUL !in s
    ensures CStr(s) == s
  {
    FindIs(s, NUL, |s|);
  }

  predicate CrlfAt(s: string, k: nat) { k + 1 < |s| && s[k] == CR && s[k + 1] == LF }

  /** The first position where CR LF starts, or the length. */
  function FindCrlf(s: string): (k: nat)
    ensures k <= |s| && (k < |s| ==> CrlfAt(s, k))
    ensures forall i | 0 <= i < k :: !CrlfAt(s, i)
  {
    if s == [] || CrlfAt(s, 0) then 0
    else
      var k := FindCrlf(s[1..]);
      assert forall i | 0 < i < k + 1 :: CrlfAt(s, i) == CrlfAt(s[1..], i - 1);
      k + 1
  }

  lemma {:induction false} FindCrlfIs(s: string, k: nat)
    requires k <= |s| && (k < |s| ==> CrlfAt(s, k))
    requires forall i | 0 <= i < k :: !CrlfAt(s, i)
    ensures FindCrlf(s) == k
  {
    if k > 0 {
      assert !CrlfAt(s, 0);
      forall i | 0 <= i < k - 1 ensures !CrlfAt(s[1..], i) {
        assert !CrlfAt(s, i + 1);
      }
      FindCrlfIs(s[1..], k - 1);
    }
  }
}
