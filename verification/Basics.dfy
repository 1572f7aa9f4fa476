/** What several parts of the project share. */
module Basics {
  datatype Option<+T> = None | Some(value: T)

  type Byte = x: int | 0 <= x < 256 witness 0

  function InsertAt<T>(s: seq<T>, i: nat, x: T): (r: seq<T>)
    requires i <= |s|
    ensures |r| == |s| + 1
    ensures forall j :: 0 <= j < i ==> r[j] == s[j]
    ensures r[i] == x
    ensures forall j :: i < j < |r| ==> r[j] == s[j - 1]
  {
    s[..i] + [x] + s[i..]
  }
}
