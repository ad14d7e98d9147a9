/** Facts about sequences that proofs elsewhere call by name. */
module Seqs {

  lemma Assoc<T>(a: seq<T>, b: seq<T>, c: seq<T>)
    ensures a + (b + c) == a + b + c
  {
  }

  lemma AppendNothing<T>(a: seq<T>)
    ensures a + [] == a && [] + a == a
  {
  }

  lemma Uncons<T>(s: seq<T>, i: nat)
    requires i < |s|
    ensures s[i..] != [] && s[i..][0] == s[i] && s[i..][1..] == s[i + 1..]
  {
  }

  lemma TailOfCons<T>(x: T, s: seq<T>)
    ensures ([x] + s)[0] == x && ([x] + s)[1..] == s
  {
  }

  lemma TakeOneMore<T>(s: seq<T>, i: nat)
    requires i < |s|
    ensures s[..i + 1] == s[..i] + [s[i]]
  {
  }

  lemma TakeMore<T>(s: seq<T>, i: nat, n: nat)
    requires i + n <= |s|
    ensures s[..i + n] == s[..i] + s[i..i + n]
  {
  }

  lemma InitOfSum<T>(a: seq<T>, b: seq<T>)
    requires b != []
    ensures a + b != [] && (a + b)[..|a + b| - 1] == a + b[..|b| - 1] && (a + b)[|a + b| - 1] == b[|b| - 1]
  {
  }

  /** The sequence with data written over the elements from lo on. */
  function Overwrite<T>(s: seq<T>, lo: nat, data: seq<T>): (r: seq<T>)
    requires lo + |data| <= |s|
    ensures |r| == |s|
    ensures r[..lo + |data|] == s[..lo] + data
  {
    s[..lo] + data + s[lo + |data|..]
  }

  function Flatten<T>(parts: seq<seq<T>>): seq<T> {
    if parts == [] then [] else parts[0] + Flatten(parts[1..])
  }

  lemma FlattenCons<T>(p: seq<T>, rest: seq<seq<T>>)
    ensures Flatten([p] + rest) == p + Flatten(rest)
  {
    TailOfCons(p, rest);
  }

  lemma {:induction false} FlattenSnoc<T>(a: seq<seq<T>>, p: seq<T>)
    ensures Flatten(a + [p]) == Flatten(a) + p
  {
    if a == [] {
      AppendNothing([p]);
      FlattenCons(p, []);
      AppendNothing(p);
    } else {
      assert (a + [p])[1..] == a[1..] + [p];
      FlattenSnoc(a[1..], p);
      Assoc(a[0], Flatten(a[1..]), p);
    }
  }
}
