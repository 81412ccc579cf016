/** Sequence rearrangements used by the proofs, kept apart so that each is checked once. */
module Seqs {

  lemma Around<T>(s: seq<T>, c: nat)
    requires c < |s|
    ensures s == s[..c] + [s[c]] + s[c + 1..]
  {
  }

  lemma Parts<T>(s: seq<T>, c: nat)
    requires c <= |s|
    ensures s == s[..c] + s[c..]
  {
  }

  lemma TakeNext<T>(s: seq<T>, c: nat)
    requires c < |s|
    ensures s[..c + 1] == s[..c] + [s[c]]
  {
  }

  lemma DropFirst<T>(s: seq<T>, c: nat)
    requires c < |s|
    ensures s[c..] == [s[c]] + s[c + 1..]
  {
  }

  lemma Assoc<T>(a: seq<T>, b: seq<T>, c: seq<T>)
    ensures a + b + c == a + (b + c)
  {
  }

  lemma Empty<T>(a: seq<T>)
    ensures a + [] == a && [] + a == a
  {
  }

  lemma TakeMore<T>(s: seq<T>, i: nat, j: nat)
    requires i <= j <= |s|
    ensures s[..i] + s[i..j] == s[..j]
  {
  }

  lemma TakeAll<T>(s: seq<T>)
    ensures s[..|s|] == s
  {
  }

  lemma AroundPair<T>(s: seq<T>, i: nat)
    requires i + 1 < |s|
    ensures s == s[..i] + ([s[i], s[i + 1]] + s[i + 2..])
  {
  }

  lemma FromStart<T>(s: seq<T>)
    ensures s[0..] == s
  {
  }

  lemma Snoc<T>(s: seq<T>, x: T)
    ensures (s + [x])[..|s + [x]| - 1] == s && (s + [x])[|s + [x]| - 1] == x
  {
  }
}
