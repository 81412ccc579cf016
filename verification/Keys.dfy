/** Keys and values are byte strings; keys are ordered lexicographically (bytes.Compare). */
module Keys {

  type byte = x: int | 0 <= x < 256
  type Bytes = seq<byte>
  type Key = Bytes

  /** The three-way comparison of bytes.Compare: negative, zero or positive. */
  function Compare(a: Key, b: Key): int {
    if a == [] && b == [] then 0
    else if a == [] then -1
    else if b == [] then 1
    else if a[0] < b[0] then -1
    else if b[0] < a[0] then 1
    else Compare(a[1..], b[1..])
  }

  /** The position of a key on the real line. Reading the bytes (plus one) as digits in base 257
      turns lexicographic order into the order of the reals, so that the tree proofs can leave
      every question about key order to linear arithmetic. */
  ghost function Rank(k: Key): (r: real)
    ensures 0.0 <= r < 1.0
  {
    if k == [] then 0.0 else (k[0] as real + 1.0 + Rank(k[1..])) / 257.0
  }

  /** Rank embeds the order of bytes.Compare exactly; distinct keys have distinct ranks. */
  lemma {:induction false} RankOrder(a: Key, b: Key)
    ensures Compare(a, b) < 0 <==> Rank(a) < Rank(b)
    ensures Compare(a, b) > 0 <==> Rank(a) > Rank(b)
    ensures Compare(a, b) == 0 <==> a == b
    ensures Rank(a) == Rank(b) <==> a == b
  {
    if a != [] && b != [] {
      var ra, rb := Rank(a[1..]), Rank(b[1..]);
      if a[0] < b[0] {
        assert a[0] as real + 1.0 + ra < b[0] as real + 1.0 + rb;
      } else if b[0] < a[0] {
        assert b[0] as real + 1.0 + rb < a[0] as real + 1.0 + ra;
      } else {
        RankOrder(a[1..], b[1..]);
        assert a == [a[0]] + a[1..] && b == [b[0]] + b[1..];
      }
    }
  }

  /** Lexicographic order, byte by byte: a proper prefix comes first, and otherwise the first byte in which the
      keys differ decides. */
  ghost predicate Precedes(a: Key, b: Key) {
    || (|a| < |b| && b[..|a|] == a)
    || exists i :: 0 <= i < |a| && i < |b| && a[..i] == b[..i] && a[i] < b[i]
  }

  lemma SameHead(a: Key, b: Key, i: nat)
    requires 0 < i <= |a| && i <= |b| && a[..i] == b[..i]
    ensures a[0] == b[0]
  {
    assert a[..i][0] == a[0] && b[..i][0] == b[0];
  }

  lemma HeadsInOrder(a: Key, b: Key)
    requires a != [] && b != [] && Precedes(a, b)
    ensures a[0] <= b[0]
  {
    if |a| < |b| && b[..|a|] == a {
      SameHead(a, b, |a|);
    } else {
      var i :| 0 <= i < |a| && i < |b| && a[..i] == b[..i] && a[i] < b[i];
      if i > 0 { SameHead(a, b, i); }
    }
  }

  lemma PrecedesHead(a: Key, b: Key)
    requires a != [] && b != [] && a[0] != b[0]
    ensures Precedes(a, b) <==> a[0] < b[0]
  {
    if Precedes(a, b) { HeadsInOrder(a, b); }
    if a[0] < b[0] { assert a[..0] == b[..0]; }
  }

  lemma PrecedesTail(a: Key, b: Key)
    requires a != [] && b != [] && a[0] == b[0]
    ensures Precedes(a, b) <==> Precedes(a[1..], b[1..])
  {
    var x, y := a[1..], b[1..];
    assert a == [a[0]] + x && b == [b[0]] + y;
    if Precedes(x, y) {
      if |x| < |y| && y[..|x|] == x {
        assert b[..|a|] == [b[0]] + y[..|x|];
      } else {
        var i :| 0 <= i < |x| && i < |y| && x[..i] == y[..i] && x[i] < y[i];
        assert a[..i + 1] == [a[0]] + x[..i] && b[..i + 1] == [b[0]] + y[..i];
      }
    }
    if Precedes(a, b) {
      if |a| < |b| && b[..|a|] == a {
        assert y[..|x|] == b[..|a|][1..];
      } else {
        var i :| 0 <= i < |a| && i < |b| && a[..i] == b[..i] && a[i] < b[i];
        assert x[..i - 1] == a[..i][1..] && y[..i - 1] == b[..i][1..];
        assert x[i - 1] < y[i - 1];
      }
    }
  }

  /** bytes.Compare, and with it the order of all trees, is lexicographic order. */
  lemma {:induction false} Lexicographic(a: Key, b: Key)
    ensures Compare(a, b) < 0 <==> Precedes(a, b)
    ensures Compare(a, b) > 0 <==> Precedes(b, a)
    ensures Rank(a) < Rank(b) <==> Precedes(a, b)
    decreases |a|
  {
    RankOrder(a, b);
    hide Rank, Precedes;
    if a == [] || b == [] {
      EmptyPrecedes(a, b);
    } else if a[0] == b[0] {
      Lexicographic(a[1..], b[1..]);
      PrecedesTail(a, b);
      PrecedesTail(b, a);
    } else {
      PrecedesHead(a, b);
      PrecedesHead(b, a);
    }
  }

  lemma EmptyPrecedes(a: Key, b: Key)
    requires a == [] || b == []
    ensures Precedes(a, b) <==> a == [] && b != []
    ensures Precedes(b, a) <==> b == [] && a != []
  {
  }

  /** Strictly increasing keys: what every page keeps. */
  ghost predicate Increasing(keys: seq<Key>) {
    forall i, j :: 0 <= i < j < |keys| ==> Rank(keys[i]) < Rank(keys[j])
  }
}
