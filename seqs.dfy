/** Identities about sequences and sets, stated once for any element type so
    that the solver proves them away from the string-heavy contexts where
    they are used. */
module Seqs {
  lemma SplitFirst<T>(xs: seq<T>)
    requires |xs| > 0
    ensures xs == [xs[0]] + xs[1..]
  {
  }

  lemma SplitLast<T>(xs: seq<T>)
    requires |xs| > 0
    ensures xs == xs[..|xs| - 1] + [xs[|xs| - 1]]
  {
  }

  /** Cutting a sequence at `n` and appending to it. */
  lemma SplitAppend<T>(xs: seq<T>, n: nat, ys: seq<T>)
    requires n <= |xs|
    ensures xs == xs[..n] + xs[n..]
    ensures xs + ys == xs[..n] + (xs[n..] + ys)
  {
  }

  lemma AppendEmpty<T>(xs: seq<T>, ys: seq<T>)
    requires |ys| == 0
    ensures xs + ys == xs
  {
  }

  lemma Associate<T>(a: seq<T>, b: seq<T>, c: seq<T>)
    ensures a + b + c == a + (b + c)
  {
  }

  lemma TakePrefix<T>(a: seq<T>, b: seq<T>)
    ensures (a + b)[..|a|] == a
  {
  }

  lemma PrefixIndex<T>(a: seq<T>, b: seq<T>, i: nat)
    requires i < |a|
    ensures (a + b)[i] == a[i]
  {
  }

  lemma DropSnoc<T>(xs: seq<T>, k: nat)
    requires k < |xs|
    ensures xs[k..] == xs[..|xs| - 1][k..] + [xs[|xs| - 1]]
  {
  }

  lemma DropFirst<T>(a: seq<T>, b: seq<T>)
    requires a != []
    ensures (a + b)[1..] == a[1..] + b
    ensures (a + b)[0] == a[0]
  {
  }

  lemma DropLast<T>(a: seq<T>, b: seq<T>)
    requires b != []
    ensures (a + b)[..|a + b| - 1] == a + b[..|b| - 1]
    ensures (a + b)[|a + b| - 1] == b[|b| - 1]
  {
  }

  lemma DropFirstIndex<T>(xs: seq<T>, i: nat)
    requires i + 1 < |xs|
    ensures xs[1..][i] == xs[i + 1]
  {
  }

  lemma ConsIndex<T>(x: T, xs: seq<T>, i: nat)
    requires 0 < i <= |xs|
    ensures ([x] + xs)[i] == xs[i - 1]
  {
  }

  lemma TakeOne<T>(all: set<T>, keys: set<T>, k: T)
    requires k in keys && keys <= all
    ensures all - (keys - {k}) == (all - keys) + {k}
  {
  }

  lemma SetMinus<T>(s: set<T>)
    ensures s - s == {} && s - {} == s
  {
  }
}
