/** A value that may be missing. */
module Options {

  datatype Option<+T> = None | Some(value: T)
}

/** Reading a sequence from its end. */
module Sequences {

  function Reversed<T>(s: seq<T>): (r: seq<T>)
    ensures |r| == |s|
    ensures forall i :: 0 <= i < |s| ==> r[i] == s[|s| - 1 - i]
  {
    seq(|s|, i requires 0 <= i < |s| => s[|s| - 1 - i])
  }

  lemma ReversedTwice<T>(s: seq<T>)
    ensures Reversed(Reversed(s)) == s
  {
  }

  lemma ReversedCut<T>(s: seq<T>, cut: nat)
    requires cut <= |s|
    ensures Reversed(s)[..|s| - cut] == Reversed(s[cut..])
    ensures Reversed(s)[|s| - cut..] == Reversed(s[..cut])
    ensures Reversed(s) == Reversed(s[cut..]) + Reversed(s[..cut])
  {
  }

  lemma ReversedSnoc<T>(s: seq<T>, last: T)
    ensures Reversed(s + [last]) == [last] + Reversed(s)
  {
  }
}
