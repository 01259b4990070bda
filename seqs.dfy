/**
 * Generic facts about sequence slicing and concatenation, stated once for
 * any element type so that sequences of strings are handled without
 * unfolding the strings themselves.
 */
module Seqs {

  lemma ConsAssoc<T>(w: T, a: seq<T>, b: seq<T>)
    ensures [w] + (a + b) == ([w] + a) + b
  {
  }

  lemma AppendAssoc<T>(a: seq<T>, b: seq<T>, c: seq<T>)
    ensures a + (b + c) == (a + b) + c
  {
  }

  lemma SliceOfConcat<T>(a: seq<T>, b: seq<T>, n: nat)
    requires n <= |a|
    ensures (a + b)[..n] == a[..n]
    ensures (a + b)[n..] == a[n..] + b
  {
  }

  lemma DropLastOfConcat<T>(a: seq<T>, b: seq<T>)
    requires b != []
    ensures (a + b)[..|a + b| - 1] == a + b[..|b| - 1]
    ensures (a + b)[|a + b| - 1] == b[|b| - 1]
  {
  }

  lemma TakeGrow<T>(s: seq<T>, i: nat)
    requires i < |s|
    ensures s[..i + 1][..i] == s[..i]
    ensures s[..i + 1][i] == s[i]
  {
  }

  lemma TakeAll<T>(s: seq<T>)
    ensures s[..|s|] == s
  {
  }

  lemma ConsTail<T>(w: T, a: seq<T>)
    ensures ([w] + a)[1..] == a
  {
  }

  lemma SingletonDropLast<T>(w: T)
    ensures [w][..0] == []
  {
  }

  lemma AppendEmpty<T>(a: seq<T>)
    ensures a + [] == a && [] + a == a
  {
  }

  lemma SplitLast<T>(s: seq<T>)
    requires s != []
    ensures s == s[..|s| - 1] + [s[|s| - 1]]
  {
  }

  lemma TailOfSnoc<T>(s: seq<T>, w: T)
    requires s != []
    ensures (s + [w])[1..] == s[1..] + [w]
    ensures (s + [w])[0] == s[0]
  {
  }

  lemma ConsAt<T>(w: T, ws: seq<T>, k: nat)
    requires k <= |ws|
    ensures ([w] + ws)[k] == if k == 0 then w else ws[k - 1]
  {
  }
}
