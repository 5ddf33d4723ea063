/** Regrouping of concatenations, proved once so that other proofs need not compare sequences
    element by element. */
module Sequences {

  function Repeat<T>(element: T, n: nat): (repeated: seq<T>)
    ensures |repeated| == n
  {
    seq(n, _ => element)
  }

  lemma Associate<T>(a: seq<T>, b: seq<T>, c: seq<T>)
    ensures a + b + c == a + (b + c)
  {
  }

  lemma Nothing<T>(a: seq<T>)
    ensures a + [] == a && [] + a == a
  {
  }

  lemma Whole<T>(a: seq<T>, n: nat)
    requires n <= |a|
    ensures a == a[..n] + a[n..]
  {
  }

  lemma Ends<T>(a: seq<T>)
    requires |a| > 1
    ensures a[1..] == a[1..|a| - 1] + [a[|a| - 1]]
    ensures a == [a[0]] + (a[1..|a| - 1] + [a[|a| - 1]])
  {
  }

  lemma All<T>(a: seq<T>)
    ensures a[0..] == a[..|a|] == a
  {
  }

  lemma CutLeft<T>(a: seq<T>, b: seq<T>, n: nat)
    requires n <= |a|
    ensures a + b == a[..n] + (a[n..] + b)
  {
    Whole(a, n);
    Associate(a[..n], a[n..], b);
  }

  lemma CutBoth<T>(a: seq<T>, middle: seq<T>, b: seq<T>, k: nat, n: nat)
    requires k <= |a| && n <= |b|
    ensures a + middle + b == a[..k] + (a[k..] + (middle + b[..n])) + b[n..]
  {
    Whole(b, n);
    Associate(a + middle, b[..n], b[n..]);
    Associate(a, middle, b[..n]);
    CutLeft(a, middle + b[..n], k);
  }

  lemma CutMeet<T>(a: seq<T>, b: seq<T>, k: nat, n: nat)
    requires k <= |a| && n <= |b|
    ensures a + b == a[..k] + (a[k..] + b[..n]) + b[n..]
  {
    CutBoth(a, [], b, k, n);
    Nothing(a);
    Nothing(b[..n]);
  }

  lemma Grown<T>(a: seq<T>, n: nat)
    requires n < |a|
    ensures a[..n + 1] == a[..n] + [a[n]]
  {
  }
}
