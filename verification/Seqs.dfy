// Facts about concatenation, stated once for sequences of anything so that the
// protocol proofs need not look inside the sequences they move around.
module Seqs {
  lemma Assoc<T>(a: seq<T>, b: seq<T>, c: seq<T>)
    ensures (a + b) + c == a + (b + c)
  {
  }

  lemma DropFront<T>(a: seq<T>, b: seq<T>)
    ensures (a + b)[|a|..] == b
    ensures (a + b)[..|a|] == a
  {
  }

  lemma DropWithin<T>(a: seq<T>, b: seq<T>, n: nat)
    requires n <= |a|
    ensures (a + b)[n..] == a[n..] + b
    ensures (a + b)[..n] == a[..n]
  {
  }

  lemma DropDrop<T>(a: seq<T>, n: nat, m: nat)
    requires n + m <= |a|
    ensures a[n..][m..] == a[n + m..]
  {
  }

  lemma DropSlice<T>(a: seq<T>, n: nat, i: nat, j: nat)
    requires i <= j && n + j <= |a|
    ensures a[n..][i..j] == a[n + i..n + j]
  {
  }

  lemma HeadTail<T>(a: seq<T>)
    requires a != []
    ensures a == [a[0]] + a[1..]
  {
  }

  lemma TailAt<T>(a: seq<T>, n: nat)
    requires n < |a|
    ensures a[n..][0] == a[n] && a[n..][1..] == a[n + 1..]
    ensures a[..n + 1] == a[..n] + [a[n]]
  {
  }

  lemma Unit<T>(a: seq<T>)
    ensures [] + a == a == a + []
  {
  }

  lemma SameFront<T>(a: seq<T>, b: seq<T>)
    requires |a| <= |b| && forall k | 0 <= k < |a| :: a[k] == b[k]
    ensures a == b[..|a|]
  {
  }

  lemma LastOfSum<T>(a: seq<T>, b: seq<T>)
    requires b != []
    ensures (a + b)[..|a + b| - 1] == a + b[..|b| - 1]
    ensures (a + b)[|a + b| - 1] == b[|b| - 1]
  {
  }

  lemma Cut<T>(a: seq<T>, n: nat)
    requires n <= |a|
    ensures a == a[..n] + a[n..]
  {
  }
}
