/** What lies in flight between two ends is a sequence, oldest message first. */
module Channels {
  /** A channel without the message at index i. */
  function Without<T>(xs: seq<T>, i: nat): (ys: seq<T>)
    requires i < |xs|
    ensures |ys| == |xs| - 1
    ensures forall j :: 0 <= j < |ys| ==> ys[j] == xs[if j < i then j else j + 1]
  {
    xs[..i] + xs[i + 1..]
  }
}
