/** Types shared by every part of the model: an optional value and node ranks. */
module Prelude {
  datatype Option<+T> = None | Some(value: T)

  // Ranks are 32-bit in the library; the model never computes with them, so any natural number will do.
  type Rank = nat

  lemma SeqSplit<T>(s: seq<T>, i: nat)
    requires i <= |s|
    ensures s == s[..i] + s[i..]
  {
  }

  lemma SeqSnoc<T>(s: seq<T>, i: nat)
    requires i < |s|
    ensures s[..i + 1] == s[..i] + [s[i]]
    ensures s[i..] == [s[i]] + s[i + 1..] && s[i..][0] == s[i] && s[i..][1..] == s[i + 1..]
  {
  }
}
