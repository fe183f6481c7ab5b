/** Byte strings, as the wire, the keys and the values use them, and the order Python gives them. */
module Bytes {

  newtype byte = x: int | 0 <= x < 256

  type Bytes = seq<byte>

  /** Lexicographic order on byte strings: a proper prefix comes first. */
  predicate BytesLess(a: Bytes, b: Bytes) {
    b != [] && (a == [] || a[0] < b[0] || (a[0] == b[0] && BytesLess(a[1..], b[1..])))
  }

  lemma {:induction false} BytesLessTransitive(a: Bytes, b: Bytes, c: Bytes)
    requires BytesLess(a, b) && BytesLess(b, c)
    ensures BytesLess(a, c)
  {
    if a != [] && a[0] == b[0] == c[0] {
      BytesLessTransitive(a[1..], b[1..], c[1..]);
    }
  }

  lemma {:induction false} BytesLessTotal(a: Bytes, b: Bytes)
    ensures BytesLess(a, b) || a == b || BytesLess(b, a)
    ensures !(BytesLess(a, b) && BytesLess(b, a))
    ensures !BytesLess(a, a)
  {
    if a != [] && b != [] {
      BytesLessTotal(a[1..], b[1..]);
      assert a == [a[0]] + a[1..] && b == [b[0]] + b[1..];
    }
    if a != [] {
      BytesLessTotal(a[1..], a[1..]);
    }
  }

  /** The order tells by the first byte that differs; a string that ends before that comes first. */
  lemma {:induction false} FirstDifference(a: Bytes, b: Bytes)
    ensures BytesLess(a, b) <==>
            exists i :: 0 <= i <= |a| && i < |b| && a[..i] == b[..i] && (i == |a| || a[i] < b[i])
  {
    if a != [] && b != [] && a[0] == b[0] {
      FirstDifference(a[1..], b[1..]);
      if BytesLess(a, b) {
        var i :| 0 <= i <= |a| - 1 && i < |b| - 1 && a[1..][..i] == b[1..][..i] && (i == |a| - 1 || a[1..][i] < b[1..][i]);
        assert a[..i + 1] == [a[0]] + a[1..][..i] && b[..i + 1] == [b[0]] + b[1..][..i];
      }
      if i :| 0 <= i <= |a| && i < |b| && a[..i] == b[..i] && (i == |a| || a[i] < b[i]) {
        assert i > 0;
        assert a[1..][..i - 1] == a[..i][1..] && b[1..][..i - 1] == b[..i][1..];
      }
    } else if a != [] && b != [] {
      assert a[..0] == b[..0];
      forall i | 0 < i <= |a| && i < |b|
        ensures a[..i] != b[..i]
      {
        assert a[..i][0] != b[..i][0];
      }
    } else if b != [] {
      assert a[..0] == b[..0];
    }
  }

  /** The bytes of an ASCII word. */
  function Ascii(word: string): Bytes {
    seq(|word|, k requires 0 <= k < |word| => (word[k] as int % 256) as byte)
  }
}
