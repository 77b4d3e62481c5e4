/** Character substitution over strings, the model of JavaScript's
    `s.replace(/c/g, rep)` with a one-character pattern. */
module Text {

  /** Every occurrence of `c` in `s` replaced by `rep`, all other characters kept in order. */
  function Substitute(s: string, c: char, rep: string): (r: string)
    ensures c !in rep ==> c !in r
    ensures forall x :: x in r ==> (x in s && x != c) || x in rep
  {
    if s == [] then [] else (if s[0] == c then rep else [s[0]]) + Substitute(s[1..], c, rep)
  }

  /** The number of occurrences of `c` in `s`. */
  function Count(s: string, c: char): nat
  {
    if s == [] then 0 else (if s[0] == c then 1 else 0) + Count(s[1..], c)
  }

  /** Substitution distributes over concatenation, so it can be applied piece by piece. */
  lemma {:induction false} SubstituteAppend(a: string, b: string, c: char, rep: string)
    ensures Substitute(a + b, c, rep) == Substitute(a, c, rep) + Substitute(b, c, rep)
  {
    if a == [] {
      assert a + b == b;
    } else {
      assert (a + b)[1..] == a[1..] + b;
      SubstituteAppend(a[1..], b, c, rep);
    }
  }

  /** A string without `c` is left as it is. */
  lemma {:induction false} SubstituteAbsent(s: string, c: char, rep: string)
    ensures c !in s ==> Substitute(s, c, rep) == s
  {
    if s != [] && c !in s {
      SubstituteAbsent(s[1..], c, rep);
    }
  }

  /** Replacing a character by a single character keeps the length and acts position by position. */
  lemma {:induction false} SubstituteCharwise(s: string, c: char, d: char)
    ensures |Substitute(s, c, [d])| == |s|
    ensures forall i :: 0 <= i < |s| ==> Substitute(s, c, [d])[i] == if s[i] == c then d else s[i]
  {
    if s != [] {
      SubstituteCharwise(s[1..], c, d);
    }
  }

  /** Each occurrence of `c` grows (or shrinks) the string by `|rep| - 1`. */
  lemma {:induction false} SubstituteLength(s: string, c: char, rep: string)
    ensures |Substitute(s, c, rep)| == |s| + Count(s, c) * (|rep| - 1)
  {
    if s != [] {
      SubstituteLength(s[1..], c, rep);
    }
  }

  /** Escaping one character as a three-character code (such as "%2f"): the character is
      gone, each occurrence lengthens the string by two, and a string without it is kept. */
  lemma SubstituteEscape(s: string, c: char, code: string)
    requires |code| == 3 && c !in code
    ensures c !in Substitute(s, c, code)
    ensures |Substitute(s, c, code)| == |s| + 2 * Count(s, c)
    ensures c !in s ==> Substitute(s, c, code) == s
  {
    SubstituteLength(s, c, code);
    SubstituteAbsent(s, c, code);
  }

  /** A common prefix can be cancelled from both sides of an equation. */
  lemma CancelPrefix(a: string, x: string, y: string)
    requires a + x == a + y
    ensures x == y
  {
    assert x == (a + x)[|a|..];
    assert y == (a + y)[|a|..];
  }

  /** Replacing `c` by `d` and then `d` by `c` gives back a string that had no `d`. */
  lemma {:induction false} SubstituteRoundTrip(s: string, c: char, d: char)
    requires d !in s
    ensures Substitute(Substitute(s, c, [d]), d, [c]) == s
  {
    if s != [] {
      var h, t := s[..1], s[1..];
      assert s == h + t;
      SubstituteAppend(h, t, c, [d]);
      SubstituteAppend(Substitute(h, c, [d]), Substitute(t, c, [d]), d, [c]);
      SubstituteRoundTrip(t, c, d);
    }
  }
}
