/** Facts about finite sequences that several of the models share. */
module Seqs {

  ghost predicate NoDup<T>(s: seq<T>) {
    forall i, j :: 0 <= i < j < |s| ==> s[i] != s[j]
  }

  /** Distinct members of a set are at most as many as the set has elements. */
  lemma {:induction false} DistinctBound<T>(s: seq<T>, bag: set<T>)
    requires NoDup(s)
    requires forall i :: 0 <= i < |s| ==> s[i] in bag
    ensures |s| <= |bag|
  {
    if s != [] {
      var last := s[|s| - 1];
      DistinctBound(s[..|s| - 1], bag - {last});
    }
  }

  lemma NoDupConcat<T>(s: seq<T>, t: seq<T>)
    requires NoDup(s) && NoDup(t)
    requires forall x :: x in s ==> x !in t
    ensures NoDup(s + t)
  {
    forall i, j | 0 <= i < j < |s + t| ensures (s + t)[i] != (s + t)[j] {
      if i < |s| <= j {
        assert s[i] in s && t[j - |s|] in t;
      }
    }
  }

  lemma NoDupConcat4<T>(a: seq<T>, b: seq<T>, c: seq<T>, d: seq<T>)
    requires NoDup(a) && NoDup(b) && NoDup(c) && NoDup(d)
    requires forall x :: x in a ==> x !in b && x !in c && x !in d
    requires forall x :: x in b ==> x !in c && x !in d
    requires forall x :: x in c ==> x !in d
    ensures NoDup(a + b + c + d)
  {
    NoDupConcat(a, b);
    NoDupConcat(a + b, c);
    NoDupConcat(a + b + c, d);
  }

  lemma TakeOneMore<T>(s: seq<T>, t: seq<T>, i: nat)
    requires i < |t|
    ensures s + t[..i + 1] == s + t[..i] + [t[i]]
    ensures t[..i + 1][..i] == t[..i]
  {
  }

  /** `s` with `part` written over it at `at`. */
  function Splice<T>(s: seq<T>, at: nat, part: seq<T>): (r: seq<T>)
    requires at + |part| <= |s|
    ensures |r| == |s|
    ensures r[at..at + |part|] == part && r[..at] == s[..at] && r[at + |part|..] == s[at + |part|..]
  {
    s[..at] + part + s[at + |part|..]
  }
}
