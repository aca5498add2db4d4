/** The absence-or-value type and the sequence facts the modules share. */
module Wrappers {
  datatype Option<+T> = None | Some(value: T)

  /** Concatenation is associative; the verifier needs to be told where. */
  lemma Assoc<T>(a: seq<T>, b: seq<T>, c: seq<T>)
    ensures (a + b) + c == a + (b + c)
  {
  }

  lemma RestOfRest<T>(s: seq<T>, at: nat, k: nat)
    requires at + k <= |s|
    ensures s[at..][k..] == s[at + k..]
  {
  }

  /** A slice of a slice is a slice. */
  lemma SliceOfSlice<T>(s: seq<T>, at: nat, length: nat, k: nat, width: nat)
    requires at + length <= |s| && k + width <= length
    ensures s[at..at + length][k..k + width] == s[at + k..at + k + width]
  {
    var a, b := s[at..at + length][k..k + width], s[at + k..at + k + width];
    forall i | 0 <= i < width
      ensures a[i] == b[i]
    {
      assert a[i] == s[at..at + length][k + i];
    }
  }
}
