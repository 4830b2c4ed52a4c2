/** The three sequence operators of System.Linq that the repository composes:
    Skip and Take (the paging slice) and Where (the filter). Each is written
    element by element, the way the enumerator walks its source. */
module Linq {

  /** Enumerable.Skip: drops the first `count` elements; a count at or below
      zero drops nothing, a count past the end drops everything. */
  function Skip<T>(s: seq<T>, count: int): seq<T>
  {
    if count <= 0 || s == [] then s else Skip(s[1..], count - 1)
  }

  /** Enumerable.Take: keeps the first `count` elements; a count at or below
      zero keeps nothing, a count past the end keeps everything. */
  function Take<T>(s: seq<T>, count: int): seq<T>
  {
    if count <= 0 || s == [] then [] else [s[0]] + Take(s[1..], count - 1)
  }

  /** Enumerable.Where: the elements satisfying `p`, in encounter order. */
  function Where<T>(s: seq<T>, p: T -> bool): (r: seq<T>)
    ensures |r| <= |s|
    ensures forall i :: 0 <= i < |r| ==> p(r[i])
  {
    if s == [] then [] else (if p(s[0]) then [s[0]] else []) + Where(s[1..], p)
  }

  /** Skip leaves the suffix that starts at `count`, with the count clamped to
      the bounds of the sequence. */
  lemma {:induction false} SkipIsSuffix<T>(s: seq<T>, count: int)
    ensures count <= 0 ==> Skip(s, count) == s
    ensures 0 <= count <= |s| ==> Skip(s, count) == s[count..]
    ensures |s| <= count ==> Skip(s, count) == []
  {
    if count > 0 && s != [] {
      SkipIsSuffix(s[1..], count - 1);
      assert count <= |s| ==> s[1..][count - 1..] == s[count..];
    }
  }

  /** Take leaves the prefix of length `count`, with the count clamped to the
      bounds of the sequence. */
  lemma {:induction false} TakeIsPrefix<T>(s: seq<T>, count: int)
    ensures count <= 0 ==> Take(s, count) == []
    ensures 0 <= count <= |s| ==> Take(s, count) == s[..count]
    ensures |s| <= count ==> Take(s, count) == s
  {
    if count > 0 && s != [] {
      TakeIsPrefix(s[1..], count - 1);
      assert count <= |s| ==> [s[0]] + s[1..][..count - 1] == s[..count];
      assert [s[0]] + s[1..] == s;
    }
  }

  /** Filtering a concatenation filters each part and keeps them in order. */
  lemma {:induction false} WhereConcat<T>(a: seq<T>, b: seq<T>, p: T -> bool)
    ensures Where(a + b, p) == Where(a, p) + Where(b, p)
  {
    if a != [] {
      assert (a + b)[1..] == a[1..] + b;
      WhereConcat(a[1..], b, p);
    } else {
      assert a + b == b;
    }
  }

  /** Every element that satisfies `p` survives the filter. */
  lemma {:induction false} WhereKeeps<T>(s: seq<T>, p: T -> bool, i: int)
    requires 0 <= i < |s| && p(s[i])
    ensures s[i] in Where(s, p)
  {
    if i > 0 {
      WhereKeeps(s[1..], p, i - 1);
    }
  }

  /** Where leaves a sequence unchanged exactly when every element passes. */
  lemma {:induction false} WhereAllPass<T>(s: seq<T>, p: T -> bool)
    ensures Where(s, p) == s <==> forall i :: 0 <= i < |s| ==> p(s[i])
  {
    if s != [] {
      WhereAllPass(s[1..], p);
      if !p(s[0]) {
        assert |Where(s, p)| < |s|;
      }
    }
  }
}
