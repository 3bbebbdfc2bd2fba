/** The JavaScript array methods the app's handlers are built from:
    `filter`, `find` (and `filter(..)[0]`), `reverse`. */
module Seqs {

  /** `Array.prototype.filter`: the elements of `s` that pass `keep`, in their order. */
  function Filter<T>(s: seq<T>, keep: T -> bool): (r: seq<T>)
    ensures |r| <= |s|
  {
    if s == [] then []
    else (if keep(s[0]) then [s[0]] else []) + Filter(s[1..], keep)
  }

  /** The filter keeps exactly the passing elements, each as often as it occurs. */
  lemma {:induction false} FilterElements<T(!new)>(s: seq<T>, keep: T -> bool)
    ensures forall x :: x in Filter(s, keep) <==> x in s && keep(x)
    ensures forall x :: multiset(Filter(s, keep))[x] == if keep(x) then multiset(s)[x] else 0
  {
    if s != [] {
      FilterElements(s[1..], keep);
      assert s == [s[0]] + s[1..];
    }
  }

  /** Filtering distributes over concatenation, so the kept elements stay in order. */
  lemma {:induction false} FilterConcat<T>(a: seq<T>, b: seq<T>, keep: T -> bool)
    ensures Filter(a + b, keep) == Filter(a, keep) + Filter(b, keep)
  {
    if a == [] {
      assert a + b == b;
    } else {
      var head := if keep(a[0]) then [a[0]] else [];
      assert (a + b)[0] == a[0];
      assert (a + b)[1..] == a[1..] + b;
      assert Filter(a + b, keep) == head + Filter(a[1..] + b, keep);
      FilterConcat(a[1..], b, keep);
      assert Filter(a, keep) == head + Filter(a[1..], keep);
    }
  }

  /** A filter that rejects nothing returns its input unchanged. */
  lemma {:induction false} FilterKeepsAll<T>(s: seq<T>, keep: T -> bool)
    requires forall k :: 0 <= k < |s| ==> keep(s[k])
    ensures Filter(s, keep) == s
  {
    if s != [] {
      FilterKeepsAll(s[1..], keep);
    }
  }

  /** `Array.prototype.findIndex`, answering `|s|` where JavaScript answers -1:
      the position of the first element that passes `p`. */
  function FindIndex<T>(s: seq<T>, p: T -> bool): (k: nat)
    ensures k <= |s|
    ensures k < |s| ==> p(s[k])
    ensures forall j :: 0 <= j < k ==> !p(s[j])
  {
    if s == [] then 0
    else if p(s[0]) then 0
    else 1 + FindIndex(s[1..], p)
  }

  /** `s.filter(p)[0]` is the element `s.find(p)` returns. */
  lemma {:induction false} FilterHeadIsFind<T>(s: seq<T>, p: T -> bool)
    ensures (Filter(s, p) != []) == (FindIndex(s, p) < |s|)
    ensures Filter(s, p) != [] ==> Filter(s, p)[0] == s[FindIndex(s, p)]
  {
    if s != [] && !p(s[0]) {
      FilterHeadIsFind(s[1..], p);
    }
  }

  /** `Array.prototype.reverse`. */
  function Reverse<T>(s: seq<T>): (r: seq<T>)
    ensures |r| == |s|
    ensures forall i :: 0 <= i < |s| ==> r[i] == s[|s| - 1 - i]
  {
    if s == [] then [] else Reverse(s[1..]) + [s[0]]
  }

  /** Reversal keeps the multiset of elements. */
  lemma ReverseSameElements<T>(s: seq<T>)
    ensures multiset(Reverse(s)) == multiset(s)
    ensures forall x :: x in Reverse(s) <==> x in s
  {
    if s != [] {
      ReverseSameElements(s[1..]);
      assert s == [s[0]] + s[1..];
    }
    forall x ensures x in Reverse(s) <==> x in s {
      assert x in Reverse(s) <==> x in multiset(Reverse(s));
      assert x in s <==> x in multiset(s);
    }
  }

  /** The element appended last comes first after reversal. */
  lemma ReverseAppend<T>(s: seq<T>, x: T)
    ensures Reverse(s + [x]) == [x] + Reverse(s)
  {
    var r, q := Reverse(s + [x]), [x] + Reverse(s);
    forall i | 0 <= i < |r| ensures r[i] == q[i] {
      if i > 0 {
        assert (s + [x])[|s| - i] == s[|s| - 1 - (i - 1)];
      }
    }
  }

  /** No two elements of `s` share a key. */
  ghost predicate UniqueKeys<T, K>(s: seq<T>, key: T -> K)
  {
    forall i, j :: 0 <= i < j < |s| ==> key(s[i]) != key(s[j])
  }

  /** Filtering keeps keys unique. */
  lemma {:induction false} FilterUniqueKeys<T(!new), K>(s: seq<T>, keep: T -> bool, key: T -> K)
    requires UniqueKeys(s, key)
    ensures UniqueKeys(Filter(s, keep), key)
  {
    if s != [] {
      var tail := s[1..];
      var rest := Filter(tail, keep);
      assert UniqueKeys(tail, key) by {
        forall i, j | 0 <= i < j < |tail| ensures key(tail[i]) != key(tail[j]) {
          assert tail[i] == s[i + 1] && tail[j] == s[j + 1];
        }
      }
      FilterUniqueKeys(tail, keep, key);
      if keep(s[0]) {
        FilterElements(tail, keep);
        var r := [s[0]] + rest;
        forall i, j | 0 <= i < j < |r| ensures key(r[i]) != key(r[j]) {
          assert r[j] == rest[j - 1];
          if i == 0 {
            assert rest[j - 1] in tail;
            var k :| 0 <= k < |tail| && tail[k] == rest[j - 1];
            assert tail[k] == s[k + 1];
          } else {
            assert r[i] == rest[i - 1];
          }
        }
      }
    }
  }
}
