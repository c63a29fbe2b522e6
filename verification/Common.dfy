/** What several models share. */
module Common {

  datatype Option<+T> = None | Some(value: T)

  /** The first position of `c` at or after `from`, or the length. */
  function FindChar(s: string, c: char, from: nat): (r: nat)
    requires from <= |s|
    ensures from <= r <= |s|
    ensures forall k :: from <= k < r ==> s[k] != c
    ensures r < |s| ==> s[r] == c
    decreases |s| - from
  {
    if from == |s| || s[from] == c then from else FindChar(s, c, from + 1)
  }
}
