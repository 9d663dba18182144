/** Searching and splitting strings, as Python's find and split do it. */
module Text {

  /** Where `c` first stands in `s`; |s| when it does not. */
  function IndexOf(s: string, c: char): (i: nat)
    ensures i <= |s|
    ensures i < |s| ==> s[i] == c
    ensures forall j | 0 <= j < i :: s[j] != c
  {
    if s == "" || s[0] == c then 0 else IndexOf(s[1..], c) + 1
  }

  function Split(s: string, c: char): (parts: seq<string>)
    ensures parts != []
    decreases |s|
  {
    var i := IndexOf(s, c);
    if i == |s| then [s] else [s[..i]] + Split(s[i + 1..], c)
  }

  /** `part in whole`. */
  predicate Contains<T(==)>(whole: seq<T>, part: seq<T>) {
    exists i | 0 <= i <= |whole| :: part <= whole[i..]
  }

  lemma IndexOfFirst(a: string, c: char, b: string)
    requires c !in a
    ensures IndexOf(a, c) == |a|
    ensures IndexOf(a + [c] + b, c) == |a|
  {
    var s := a + [c] + b;
    assert forall j | 0 <= j < |a| :: s[j] == a[j] != c;
    assert s[|a|] == c;
  }

  lemma SplitFirst(a: string, c: char, b: string)
    requires c !in a
    ensures Split(a, c) == [a]
    ensures Split(a + [c] + b, c) == [a] + Split(b, c)
  {
    IndexOfFirst(a, c, b);
    var s := a + [c] + b;
    assert s[..|a|] == a && s[|a| + 1..] == b;
  }

  lemma {:induction false} SplitKeepsOut(s: string, c: char)
    ensures forall i | 0 <= i < |Split(s, c)| :: c !in Split(s, c)[i]
    decreases |s|
  {
    var i := IndexOf(s, c);
    if i < |s| { SplitKeepsOut(s[i + 1..], c); }
  }

  lemma SplitOnce(s: string, c: char)
    ensures var i := IndexOf(s, c);
            && (i == |s| ==> Split(s, c) == [s])
            && (i < |s| ==> |Split(s, c)| >= 2 && Split(s, c)[0] == s[..i] && Split(s, c)[1..] == Split(s[i + 1..], c))
  {
    var i := IndexOf(s, c);
    if i < |s| { HeadAndTail(s[..i], Split(s[i + 1..], c)); }
  }

  lemma HeadAndTail<T>(x: T, rest: seq<T>)
    ensures ([x] + rest)[0] == x && ([x] + rest)[1..] == rest
  {
  }

  lemma CutAt(s: string, i: nat)
    requires i < |s|
    ensures s == s[..i] + [s[i]] + s[i + 1..]
  {
  }

  lemma {:induction false} SplitIsInjective(s: string, t: string, c: char)
    requires Split(s, c) == Split(t, c)
    ensures s == t
    decreases |s|
  {
    var i, j := IndexOf(s, c), IndexOf(t, c);
    SplitOnce(s, c);
    SplitOnce(t, c);
    if i < |s| && j < |t| {
      SplitIsInjective(s[i + 1..], t[j + 1..], c);
      CutAt(s, i);
      CutAt(t, j);
    }
  }
}
