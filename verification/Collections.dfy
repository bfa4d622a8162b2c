/** Sequences as collections. */
module Collections {
  ghost predicate Distinct<T>(s: seq<T>)
  {
    forall i, j | 0 <= i < j < |s| :: s[i] != s[j]
  }

  function Elements<T>(s: seq<T>): set<T>
  {
    set x | x in s
  }

  /** Nothing after the position repeats it. */
  ghost predicate IsLast<T>(s: seq<T>, i: nat)
    requires i < |s|
  {
    forall j | i < j < |s| :: s[j] != s[i]
  }

  /** The element at a position is new to those before it. */
  lemma NextIsNew<T>(s: seq<T>, i: nat)
    requires Distinct(s) && i < |s|
    ensures s[i] !in s[..i] && s[i] in Elements(s) && s[..i + 1] == s[..i] + [s[i]]
  {
  }
}
