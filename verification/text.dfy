/** Small helpers shared by the modelled components. */
module Text {

  datatype Option<+T> = None | Some(value: T)

  /** types.NamespacedName */
  datatype NamespacedName = NamespacedName(ns: string, name: string)

  function LowerChar(c: char): char {
    if 'A' <= c <= 'Z' then (c as int + 32) as char else c
  }

  function Lower(s: string): string {
    seq(|s|, i requires 0 <= i < |s| => LowerChar(s[i]))
  }

  /** Case-insensitive comparison with a lower-case literal. */
  predicate EqualFold(s: string, lower: string) {
    Lower(s) == lower
  }

  /** The same letters, whatever their case: the second argument has none in upper case. */
  predicate SameLetters(s: string, lower: string) {
    |s| == |lower| &&
    forall i | 0 <= i < |s| :: s[i] == lower[i] || ('A' <= s[i] <= 'Z' &&
      s[i] as int + ('a' as int - 'A' as int) == lower[i] as int)
  }

  lemma {:induction false} FoldIsSameLetters(s: string, lower: string)
    requires forall c | c in lower :: !('A' <= c <= 'Z')
    ensures EqualFold(s, lower) <==> SameLetters(s, lower)
  {
    assert forall i | 0 <= i < |lower| :: lower[i] in lower;
    assert |s| == |lower| ==> forall i | 0 <= i < |s| :: Lower(s)[i] == LowerChar(s[i]);
    if SameLetters(s, lower) {
      assert Lower(s) == lower;
    }
  }

  /** Index of the first occurrence of c, or the length. */
  function IndexOf(s: string, c: char): (i: nat)
    ensures i <= |s| && c !in s[..i] && (i < |s| ==> s[i] == c)
  {
    if s == [] || s[0] == c then 0 else
    var i := IndexOf(s[1..], c);
    assert s[..i + 1] == [s[0]] + s[1..][..i];
    i + 1
  }

  function Count(s: string, c: char): nat {
    if s == [] then 0 else (if s[0] == c then 1 else 0) + Count(s[1..], c)
  }

  lemma {:induction false} CountIsZero(s: string, c: char)
    ensures Count(s, c) == 0 <==> c !in s
  {
    if s != [] {
      CountIsZero(s[1..], c);
      assert s == [s[0]] + s[1..];
    }
  }

  /** Behind the first occurrence there is one fewer. */
  lemma {:induction false} CountBehindFirst(s: string, c: char)
    ensures var i := IndexOf(s, c); Count(s, c) == if i == |s| then 0 else 1 + Count(s[i + 1..], c)
  {
    if s != [] && s[0] != c {
      CountBehindFirst(s[1..], c);
      var i := IndexOf(s[1..], c);
      assert i < |s[1..]| ==> s[1..][i + 1..] == s[i + 2..];
    }
  }

  lemma {:induction false} IndexOfFirst(a: string, c: char, b: string)
    requires c !in a
    ensures IndexOf(a + [c] + b, c) == |a|
  {
    if a == "" {
      assert (a + [c] + b)[0] == c;
    } else {
      IndexOfFirst(a[1..], c, b);
      assert (a + [c] + b)[1..] == a[1..] + [c] + b;
    }
  }
}
