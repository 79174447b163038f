/** Position-wise insertion and removal, the evident contracts of the editor's memmove shifts. */
module Seqs {
  /** `s` with `x` placed at index `pos`; what follows moves up one index. */
  function InsertAt<T>(s: seq<T>, pos: nat, x: T): (r: seq<T>)
    requires pos <= |s|
    ensures |r| == |s| + 1 && r[pos] == x
    ensures forall i :: 0 <= i < pos ==> r[i] == s[i]
    ensures forall i :: pos < i < |r| ==> r[i] == s[i - 1]
  {
    s[..pos] + [x] + s[pos..]
  }

  /** `s` without the element at index `pos`; what follows moves down one index. */
  function RemoveAt<T>(s: seq<T>, pos: nat): (r: seq<T>)
    requires pos < |s|
    ensures |r| == |s| - 1
    ensures forall i :: 0 <= i < pos ==> r[i] == s[i]
    ensures forall i :: pos <= i < |r| ==> r[i] == s[i + 1]
  {
    s[..pos] + s[pos + 1..]
  }

  /** Removing what was just inserted gives back the original. */
  lemma RemoveInsert<T>(s: seq<T>, pos: nat, x: T)
    requires pos <= |s|
    ensures RemoveAt(InsertAt(s, pos, x), pos) == s
  {
  }
}
