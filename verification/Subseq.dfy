/** Subsequences: what is left of a sequence when some elements are dropped; and sequences without repeats. */
module Subseq {
  ghost predicate Sub<T>(xs: seq<T>, ys: seq<T>)
    decreases |ys|
  {
    || xs == []
    || (ys != [] && ((xs[0] == ys[0] && Sub(xs[1..], ys[1..])) || Sub(xs, ys[1..])))
  }

  lemma {:induction false} SubSelf<T>(xs: seq<T>)
    ensures Sub(xs, xs)
    decreases |xs|
  {
    if xs != [] {
      SubSelf(xs[1..]);
    }
  }

  lemma {:induction false} SubAppend<T>(xs: seq<T>, ys: seq<T>, us: seq<T>, vs: seq<T>)
    requires Sub(xs, ys) && Sub(us, vs)
    ensures Sub(xs + us, ys + vs)
    decreases |ys|
  {
    if ys == [] {
      assert xs + us == us && ys + vs == vs;
    } else {
      assert (ys + vs)[1..] == ys[1..] + vs;
      if xs != [] && xs[0] == ys[0] && Sub(xs[1..], ys[1..]) {
        assert (xs + us)[1..] == xs[1..] + us;
        SubAppend(xs[1..], ys[1..], us, vs);
      } else {
        SubAppend(xs, ys[1..], us, vs);
      }
    }
  }

  lemma {:induction false} SubTrans<T>(xs: seq<T>, ys: seq<T>, zs: seq<T>)
    requires Sub(xs, ys) && Sub(ys, zs)
    ensures Sub(xs, zs)
    decreases |zs|
  {
    if xs != [] {
      if ys[0] == zs[0] && Sub(ys[1..], zs[1..]) {
        if xs[0] == ys[0] && Sub(xs[1..], ys[1..]) {
          SubTrans(xs[1..], ys[1..], zs[1..]);
        } else {
          SubTrans(xs, ys[1..], zs[1..]);
        }
      } else {
        SubTrans(xs, ys, zs[1..]);
      }
    }
  }

  lemma SubPrefix<T>(xs: seq<T>, ys: seq<T>)
    requires xs <= ys
    ensures Sub(xs, ys)
  {
    SubSelf(xs);
    SubAppend(xs, xs, [], ys[|xs|..]);
    assert xs + [] == xs && xs + ys[|xs|..] == ys;
  }

  lemma SubSlice<T>(xs: seq<T>, lo: nat, hi: nat)
    requires lo <= hi <= |xs|
    ensures Sub(xs[lo..hi], xs)
  {
    SubPrefix(xs[lo..hi], xs[lo..]);
    SubAppend([], xs[..lo], xs[lo..hi], xs[lo..]);
    assert [] + xs[lo..hi] == xs[lo..hi] && xs[..lo] + xs[lo..] == xs;
  }

  ghost predicate Distinct<T>(s: seq<T>) {
    forall i, j :: 0 <= i < j < |s| ==> s[i] != s[j]
  }

  lemma {:induction false} OnceEach<T>(s: seq<T>, x: T)
    requires Distinct(s)
    ensures multiset(s)[x] <= 1
  {
    if s != [] {
      OnceEach(s[1..], x);
      assert s == [s[0]] + s[1..];
    }
  }
}
