/** Facts about byte strings and orderings that the hashed encodings rest on. */
module Encoding {

  type byte = b: int | 0 <= b < 256

  /** On its domain, no codeword is a prefix of another one; and none is empty. */
  ghost predicate PrefixFree<T(!new), U(!new)>(code: T -> seq<U>, domain: T -> bool) {
    && (forall a, b :: domain(a) && domain(b) && code(a) <= code(b) ==> a == b)
    && (forall a :: code(a) != [])
  }

  function Concat<T, U>(code: T -> seq<U>, xs: seq<T>): seq<U> {
    if xs == [] then [] else code(xs[0]) + Concat(code, xs[1..])
  }

  lemma ConcatSnoc<T, U>(code: T -> seq<U>, xs: seq<T>, x: T)
    ensures Concat(code, xs + [x]) == Concat(code, xs) + code(x)
  {
    if xs == [] {
      assert [x][1..] == [];
    } else {
      ConcatSnoc(code, xs[1..], x);
      assert (xs + [x])[1..] == xs[1..] + [x];
      assert code(xs[0]) + (Concat(code, xs[1..]) + code(x)) == Concat(code, xs) + code(x);
    }
  }

  lemma ConcatCons<T, U>(code: T -> seq<U>, x: T, xs: seq<T>)
    ensures Concat(code, [x] + xs) == code(x) + Concat(code, xs)
  {
    assert ([x] + xs)[1..] == xs;
  }

  lemma ShorterIsPrefix<U>(u: seq<U>, x: seq<U>, v: seq<U>, y: seq<U>)
    requires u + x == v + y && |u| <= |v|
    ensures u <= v
  {
    assert u == (u + x)[..|u|] == (v + y)[..|u|] == v[..|u|];
  }

  /** The first codeword can be split off in only one way. */
  lemma SplitUnique<T(!new), U(!new)>(code: T -> seq<U>, domain: T -> bool, a: T, x: seq<U>, b: T, y: seq<U>)
    requires PrefixFree(code, domain) && domain(a) && domain(b)
    requires code(a) + x == code(b) + y
    ensures a == b && x == y
  {
    assert code(a) <= code(b) || code(b) <= code(a) by {
      if |code(a)| <= |code(b)| {
        ShorterIsPrefix(code(a), x, code(b), y);
      } else {
        ShorterIsPrefix(code(b), y, code(a), x);
      }
    }
    assert x == (code(a) + x)[|code(a)|..];
    assert y == (code(b) + y)[|code(b)|..];
  }

  lemma ConcatEmpty<T(!new), U(!new)>(code: T -> seq<U>, xs: seq<T>)
    requires forall a :: code(a) != []
    ensures Concat(code, xs) == [] <==> xs == []
  {
    if xs != [] {
      assert |Concat(code, xs)| >= |code(xs[0])| > 0;
    }
  }

  /** A concatenation of prefix-free codewords determines the list it was built from. */
  lemma {:induction false} UniqueDecoding<T(!new), U(!new)>(code: T -> seq<U>, domain: T -> bool, xs: seq<T>, ys: seq<T>)
    requires PrefixFree(code, domain)
    requires (forall x :: x in xs ==> domain(x)) && (forall y :: y in ys ==> domain(y))
    requires Concat(code, xs) == Concat(code, ys)
    ensures xs == ys
  {
    ConcatEmpty(code, xs);
    ConcatEmpty(code, ys);
    if xs != [] {
      SplitUnique(code, domain, xs[0], Concat(code, xs[1..]), ys[0], Concat(code, ys[1..]));
      UniqueDecoding(code, domain, xs[1..], ys[1..]);
      assert xs == [xs[0]] + xs[1..];
      assert ys == [ys[0]] + ys[1..];
    }
  }

  /** Exchanging one element changes the length by the difference of the two codewords. */
  lemma {:induction false} LengthOfExchange<T, U>(code: T -> seq<U>, xs: seq<T>, ys: seq<T>, p: nat)
    requires |xs| == |ys| && p < |xs|
    requires forall i :: 0 <= i < |xs| && i != p ==> xs[i] == ys[i]
    ensures |Concat(code, xs)| - |Concat(code, ys)| == |code(xs[p])| - |code(ys[p])|
  {
    if p == 0 {
      assert xs[1..] == ys[1..];
    } else {
      LengthOfExchange(code, xs[1..], ys[1..], p - 1);
    }
  }

  predicate Ascending(s: seq<nat>) {
    forall i, j :: 0 <= i < j < |s| ==> s[i] < s[j]
  }

  predicate NoDuplicates<T(==)>(s: seq<T>) {
    forall i, j :: 0 <= i < j < |s| ==> s[i] != s[j]
  }

  function Insert(k: nat, s: seq<nat>): (r: seq<nat>)
    requires Ascending(s) && k !in s
    ensures Ascending(r)
    ensures forall x :: x in r <==> x == k || x in s
  {
    if s == [] then [k]
    else if k < s[0] then [k] + s
    else
      var rest := Insert(k, s[1..]);
      assert forall x :: x in s <==> x == s[0] || x in s[1..];
      assert forall i :: 0 <= i < |rest| ==> rest[i] in rest && s[0] < rest[i];
      [s[0]] + rest
  }

  /** Keys in increasing order, whatever order they come in. */
  function Sort(s: seq<nat>): (r: seq<nat>)
    requires NoDuplicates(s)
    ensures Ascending(r)
    ensures forall x :: x in r <==> x in s
  {
    if s == [] then []
    else
      var rest := Sort(s[1..]);
      assert forall x :: x in s <==> x == s[0] || x in s[1..];
      Insert(s[0], rest)
  }

  lemma SameHeads(s: seq<nat>, t: seq<nat>)
    requires Ascending(s) && Ascending(t)
    requires forall x :: x in s <==> x in t
    requires s != []
    ensures t != [] && s[0] == t[0]
  {
    assert s[0] in t;
    assert t[0] in s;
  }

  lemma TailElements(s: seq<nat>, x: nat)
    requires Ascending(s) && s != []
    ensures x in s[1..] <==> x in s && x != s[0]
  {
    assert s == [s[0]] + s[1..];
  }

  /** An increasing list is determined by the keys it holds. */
  lemma {:induction false} AscendingUnique(s: seq<nat>, t: seq<nat>)
    requires Ascending(s) && Ascending(t)
    requires forall x :: x in s <==> x in t
    ensures s == t
  {
    assert s == [] <==> t == [] by {
      if s != [] { assert s[0] in t; }
      if t != [] { assert t[0] in s; }
    }
    if s != [] {
      SameHeads(s, t);
      forall x ensures x in s[1..] <==> x in t[1..] {
        TailElements(s, x);
        TailElements(t, x);
      }
      AscendingUnique(s[1..], t[1..]);
      assert s == [s[0]] + s[1..];
      assert t == [t[0]] + t[1..];
    }
  }

  /** The members of a finite key set in an arbitrary order. */
  method Enumerate(keys: set<nat>) returns (order: seq<nat>)
    ensures NoDuplicates(order)
    ensures forall x :: x in order <==> x in keys
  {
    order := [];
    var rest := keys;
    while rest != {}
      invariant NoDuplicates(order)
      invariant rest <= keys
      invariant forall x :: x in order <==> x in keys && x !in rest
      decreases |rest|
    {
      var k :| k in rest;
      order := order + [k];
      rest := rest - {k};
    }
  }

  ghost function SetToSeq(keys: set<nat>): (s: seq<nat>)
    ensures NoDuplicates(s)
    ensures forall x :: x in s <==> x in keys
  {
    if keys == {} then [] else
      var k :| k in keys;
      [k] + SetToSeq(keys - {k})
  }

  ghost predicate IsSorted(s: seq<nat>, keys: set<nat>) {
    Ascending(s) && forall x :: x in s <==> x in keys
  }

  lemma SortedExists(keys: set<nat>)
    ensures exists s :: IsSorted(s, keys)
  {
    assert IsSorted(Sort(SetToSeq(keys)), keys);
  }

  /** The one increasing list of a key set. */
  ghost function SortedKeys(keys: set<nat>): seq<nat> {
    SortedExists(keys);
    var s :| IsSorted(s, keys);
    s
  }

  lemma SortedKeysSorted(keys: set<nat>)
    ensures IsSorted(SortedKeys(keys), keys)
  {
  }
}
