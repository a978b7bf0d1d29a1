/** Types every part of the model uses, and two facts about slices. */
module Common {
  type Byte = b: int | 0 <= b < 256

  type Ip4 = a: seq<Byte> | |a| == 4 witness [0, 0, 0, 0]

  datatype Option<+T> = None | Some(value: T)

  lemma SliceOfSuffix<T>(b: seq<T>, at: nat, p: nat, q: nat)
    requires p <= q && at + q <= |b|
    ensures b[at + p..at + q] == b[at..][p..q]
  {
  }

  lemma SliceOfPrefix<T>(s: seq<T>, k: nat, p: nat, q: nat)
    requires p <= q <= k <= |s|
    ensures s[..k][p..q] == s[p..q]
  {
  }
}
