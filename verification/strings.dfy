/** Searching text for a character (`String.indexOf(char)`, with "not found"
    reported as the length of the text instead of -1). */
module Strings {

  /** Index of the first occurrence of `c` in `s`, or `|s|` when there is none. */
  function IndexOf(s: string, c: char): (i: nat)
    ensures i <= |s|
    ensures i < |s| ==> s[i] == c
    ensures c !in s[..i]
    ensures i == |s| <==> c !in s
  {
    if |s| == 0 then 0
    else if s[0] == c then 0
    else
      var j := IndexOf(s[1..], c);
      assert s[..j + 1] == [s[0]] + s[1..][..j];
      j + 1
  }

  /** Searching a concatenation searches the first part, then the second. */
  lemma {:induction false} IndexOfConcat(x: string, y: string, c: char)
    ensures IndexOf(x + y, c) == if c in x then IndexOf(x, c) else |x| + IndexOf(y, c)
    decreases |x|
  {
    if |x| > 0 {
      assert (x + y)[1..] == x[1..] + y;
      IndexOfConcat(x[1..], y, c);
    } else {
      assert x + y == y;
    }
  }

  /** The first occurrence is found. */
  lemma {:induction false} IndexOfAt(s: string, c: char, n: nat)
    requires n < |s| && s[n] == c
    requires forall j :: 0 <= j < n ==> s[j] != c
    ensures IndexOf(s, c) == n
    decreases n
  {
    if n > 0 {
      IndexOfAt(s[1..], c, n - 1);
    }
  }
}
