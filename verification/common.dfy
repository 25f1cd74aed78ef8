/**
 * Small value types and string helpers shared by every other module:
 * an Option type, the JavaScript string predicates the code relies on
 * (`includes`, `indexOf`, `toLowerCase`, `toUpperCase`), and decimal digits.
 * Case folding is ASCII only; string comparison is ordinal.
 */
module Common {

  /** A value that may be absent (`null`/`undefined` in the code). */
  datatype Option<T> = None | Some(value: T) {

    /** The wrapped value, or `default` when absent. */
    function GetOr(default: T): T {
      match this
      case Some(v) => v
      case None => default
    }
  }

  /** The outcome of an operation that either produces a value or throws an error. */
  datatype Result<T, E> = Success(value: T) | Failure(error: E)

  /** `sub` occurs in `s` starting at index `i`. */
  predicate OccursAt(s: string, sub: string, i: int) {
    0 <= i && i + |sub| <= |s| && s[i..i + |sub|] == sub
  }

  /** JavaScript `s.includes(sub)`: some position of `s` starts an occurrence of `sub`. */
  function Contains(s: string, sub: string): (r: bool)
    ensures r <==> exists i :: OccursAt(s, sub, i)
    decreases |s|
  {
    if |sub| <= |s| && s[..|sub|] == sub then
      assert OccursAt(s, sub, 0);
      true
    else if |s| == 0 then
      false
    else
      var r := Contains(s[1..], sub);
      ContainsShift(s, sub);
      r
  }

  /** An occurrence in `s` at a non-zero index is an occurrence in `s[1..]` one earlier, and back. */
  lemma ContainsShift(s: string, sub: string)
    requires |s| > 0
    requires !OccursAt(s, sub, 0)
    ensures (exists i :: OccursAt(s, sub, i)) <==> (exists i :: OccursAt(s[1..], sub, i))
  {
    if i :| OccursAt(s, sub, i) {
      assert i > 0;
      assert s[1..][i - 1..i - 1 + |sub|] == s[i..i + |sub|];
      assert OccursAt(s[1..], sub, i - 1);
    }
    if i :| OccursAt(s[1..], sub, i) {
      assert s[i + 1..i + 1 + |sub|] == s[1..][i..i + |sub|];
      assert OccursAt(s, sub, i + 1);
    }
  }

  /** The empty string occurs in every string. */
  lemma ContainsEmpty(s: string)
    ensures Contains(s, "")
  {
    assert OccursAt(s, "", 0);
  }

  /** An occurrence inside a prefix or a suffix is an occurrence in the whole. */
  lemma ContainsInConcat(a: string, b: string, sub: string)
    ensures Contains(a, sub) ==> Contains(a + b, sub)
    ensures Contains(b, sub) ==> Contains(a + b, sub)
  {
    if Contains(a, sub) {
      var i :| OccursAt(a, sub, i);
      assert (a + b)[i..i + |sub|] == a[i..i + |sub|];
      assert OccursAt(a + b, sub, i);
    }
    if Contains(b, sub) {
      var i :| OccursAt(b, sub, i);
      assert (a + b)[|a| + i..|a| + i + |sub|] == b[i..i + |sub|];
      assert OccursAt(a + b, sub, |a| + i);
    }
  }

  /** JavaScript `xs.indexOf(x)`: the first index holding `x`, or -1. */
  function IndexOf<T(==)>(xs: seq<T>, x: T): (r: int)
    ensures -1 <= r < |xs|
    ensures r == -1 <==> x !in xs
    ensures 0 <= r ==> xs[r] == x && x !in xs[..r]
  {
    if |xs| == 0 then -1
    else if xs[0] == x then 0
    else
      var k := IndexOf(xs[1..], x);
      assert xs == [xs[0]] + xs[1..];
      if k == -1 then -1
      else
        assert xs[..k + 1] == [xs[0]] + xs[1..][..k];
        k + 1
  }

  /** The first index of `x` in a list that starts with `pre`, which lacks `x`, followed by `x` is the length of `pre`. */
  lemma IndexOfAfterPrefix<T>(xs: seq<T>, pre: seq<T>, x: T)
    requires |pre| < |xs| && xs[..|pre|] == pre && xs[|pre|] == x && x !in pre
    ensures IndexOf(xs, x) == |pre|
  {
    assert xs[..|pre| + 1][|pre|] == x;
  }

  /** JavaScript `xs.splice(i, 1)` on a copy: `xs` without its element at `i`. */
  function RemoveAt<T>(xs: seq<T>, i: nat): (r: seq<T>)
    requires i < |xs|
    ensures |r| == |xs| - 1
    ensures multiset(r) + multiset{xs[i]} == multiset(xs)
  {
    assert xs == xs[..i] + [xs[i]] + xs[i + 1..];
    xs[..i] + xs[i + 1..]
  }

  /** Where each remaining element of `RemoveAt(xs, k)` came from. */
  lemma RemoveAtIndex<T>(xs: seq<T>, k: nat, i: nat)
    requires k < |xs| && i < |xs| - 1
    ensures RemoveAt(xs, k)[i] == if i < k then xs[i] else xs[i + 1]
  {
  }

  /** ASCII `toLowerCase` of one character. */
  function LowerChar(c: char): char {
    if 'A' <= c <= 'Z' then (c as int + 32) as char else c
  }

  /** ASCII `toUpperCase` of one character. */
  function UpperChar(c: char): char {
    if 'a' <= c <= 'z' then (c as int - 32) as char else c
  }

  /** ASCII `s.toLowerCase()`. */
  function Lower(s: string): (r: string)
    ensures |r| == |s|
    ensures forall i :: 0 <= i < |s| ==> r[i] == LowerChar(s[i])
  {
    seq(|s|, i requires 0 <= i < |s| => LowerChar(s[i]))
  }

  /** ASCII `s.toUpperCase()`. */
  function Upper(s: string): (r: string)
    ensures |r| == |s|
    ensures forall i :: 0 <= i < |s| ==> r[i] == UpperChar(s[i])
  {
    seq(|s|, i requires 0 <= i < |s| => UpperChar(s[i]))
  }

  /** The regular-expression class `\d`. */
  predicate IsDigit(c: char) {
    '0' <= c <= '9'
  }

  /** Every character of `s` is a decimal digit. */
  predicate AllDigits(s: string) {
    forall i :: 0 <= i < |s| ==> IsDigit(s[i])
  }

  /** `parseInt` of a non-empty run of decimal digits. */
  function DigitsValue(s: string): (n: nat)
    requires AllDigits(s)
    decreases |s|
  {
    if |s| == 0 then 0
    else DigitsValue(s[..|s| - 1]) * 10 + (s[|s| - 1] as int - '0' as int)
  }

  /** The decimal digit character of `d`. */
  function DigitChar(d: nat): (c: char)
    requires d < 10
    ensures IsDigit(c)
  {
    ('0' as int + d) as char
  }

  /** Decimal text of `n` with no leading zeros ("0" for zero). */
  function NatToString(n: nat): (s: string)
    ensures |s| > 0 && AllDigits(s)
    decreases n
  {
    if n < 10 then [DigitChar(n)] else NatToString(n / 10) + [DigitChar(n % 10)]
  }

  /** Decimal text of `n` left-padded with zeros to at least `width` characters. */
  function PadNat(n: nat, width: nat): (s: string)
    ensures |s| >= width && AllDigits(s)
  {
    var t := NatToString(n);
    if |t| >= width then t else seq(width - |t|, _ => '0') + t
  }

  /** Strict lexicographic order on strings by code unit (JavaScript `<`). */
  predicate StrLess(a: string, b: string)
    decreases |a|
  {
    if |a| == 0 then |b| > 0
    else if |b| == 0 then false
    else if a[0] != b[0] then a[0] < b[0]
    else StrLess(a[1..], b[1..])
  }

  /** Ordinal three-way comparison (the model of `localeCompare`): -1, 0 or 1. */
  function StrCompare(a: string, b: string): (r: int)
    ensures r == -1 || r == 0 || r == 1
    ensures r == 0 <==> a == b
    ensures r == -1 <==> StrLess(a, b)
  {
    StrLessTotal(a, b);
    if a == b then 0 else if StrLess(a, b) then -1 else 1
  }

  /** `StrLess` is irreflexive and trichotomous. */
  lemma {:induction false} StrLessTotal(a: string, b: string)
    ensures !(StrLess(a, b) && StrLess(b, a))
    ensures a == b ==> !StrLess(a, b)
    ensures a != b ==> StrLess(a, b) || StrLess(b, a)
    decreases |a|
  {
    if |a| > 0 && |b| > 0 && a[0] == b[0] {
      StrLessTotal(a[1..], b[1..]);
      if a != b {
        assert a == [a[0]] + a[1..] && b == [b[0]] + b[1..];
      }
    }
  }

  /** `StrLess` is transitive. */
  lemma {:induction false} StrLessTransitive(a: string, b: string, c: string)
    requires StrLess(a, b) && StrLess(b, c)
    ensures StrLess(a, c)
    decreases |a|
  {
    if |a| > 0 && a[0] == b[0] && b[0] == c[0] {
      StrLessTransitive(a[1..], b[1..], c[1..]);
    }
  }

  /** The elements of `xs` satisfying `p`, in their original order (JavaScript `xs.filter(p)`). */
  function Filter<T>(xs: seq<T>, p: T -> bool): (r: seq<T>)
    ensures |r| <= |xs|
    ensures forall i :: 0 <= i < |r| ==> p(r[i])
    decreases |xs|
  {
    if |xs| == 0 then []
    else
      var init := Filter(xs[..|xs| - 1], p);
      if p(xs[|xs| - 1]) then init + [xs[|xs| - 1]] else init
  }

  /** The number of elements of `xs` that pass `p`. */
  function Count<T>(xs: seq<T>, p: T -> bool): (n: nat)
    ensures n <= |xs|
    decreases |xs|
  {
    if |xs| == 0 then 0 else Count(xs[..|xs| - 1], p) + (if p(xs[|xs| - 1]) then 1 else 0)
  }

  /** `Filter` on a non-empty list: the filtered front, then the last element when it passes. */
  lemma FilterLast<T>(xs: seq<T>, p: T -> bool)
    requires |xs| > 0
    ensures Filter(xs, p) == if p(xs[|xs| - 1]) then Filter(xs[..|xs| - 1], p) + [xs[|xs| - 1]] else Filter(xs[..|xs| - 1], p)
  {
  }

  /** The elements kept by `Filter` are exactly the elements of `xs` that pass `p`. */
  lemma {:induction false} FilterMembers<T(!new)>(xs: seq<T>, p: T -> bool)
    ensures forall x :: x in Filter(xs, p) <==> x in xs && p(x)
    decreases |xs|
  {
    if |xs| > 0 {
      var init := xs[..|xs| - 1];
      FilterMembers(init, p);
      assert xs == init + [xs[|xs| - 1]];
    }
  }

  /** `sub` is obtained from `xs` by deleting elements, keeping the order of the rest. */
  predicate IsSubsequence<T(==)>(sub: seq<T>, xs: seq<T>)
    decreases |xs|
  {
    if |sub| == 0 then true
    else if |xs| == 0 then false
    else
      (sub[|sub| - 1] == xs[|xs| - 1] && IsSubsequence(sub[..|sub| - 1], xs[..|xs| - 1]))
      || IsSubsequence(sub, xs[..|xs| - 1])
  }

  /** A filter keeps the relative order of the elements it keeps. */
  lemma {:induction false} FilterIsSubsequence<T(!new)>(xs: seq<T>, p: T -> bool)
    ensures IsSubsequence(Filter(xs, p), xs)
    decreases |xs|
  {
    if |xs| > 0 {
      var init := xs[..|xs| - 1];
      FilterIsSubsequence(init, p);
      var r := Filter(xs, p);
      if p(xs[|xs| - 1]) {
        assert r[..|r| - 1] == Filter(init, p);
      } else if |r| > 0 {
        assert r == Filter(init, p);
      }
    }
  }

  /** Filtering by `p` and by its negation splits `xs` into two parts that together are a permutation of it. */
  lemma {:induction false} FilterPartition<T(!new)>(xs: seq<T>, p: T -> bool, q: T -> bool)
    requires forall x :: q(x) == !p(x)
    ensures multiset(Filter(xs, p)) + multiset(Filter(xs, q)) == multiset(xs)
    ensures |Filter(xs, p)| + |Filter(xs, q)| == |xs|
    decreases |xs|
  {
    if |xs| > 0 {
      var init, x := xs[..|xs| - 1], xs[|xs| - 1];
      FilterPartition(init, p, q);
      FilterSplitStep(xs, p, q(x));
      FilterSplitStep(xs, q, p(x));
      MultisetLast(xs);
    }
  }

  /** The multiset of a non-empty list is that of its front plus its last element. */
  lemma MultisetLast<T>(xs: seq<T>)
    requires |xs| > 0
    ensures multiset(xs) == multiset(xs[..|xs| - 1]) + multiset{xs[|xs| - 1]}
  {
    assert xs == xs[..|xs| - 1] + [xs[|xs| - 1]];
  }

  /** The multiset and length of `Filter` on a non-empty list, from those of its front. */
  lemma FilterSplitStep<T>(xs: seq<T>, p: T -> bool, other: bool)
    requires |xs| > 0 && other == !p(xs[|xs| - 1])
    ensures var init, x := xs[..|xs| - 1], xs[|xs| - 1];
      && multiset(Filter(xs, p)) == multiset(Filter(init, p)) + (if other then multiset{} else multiset{x})
      && |Filter(xs, p)| == |Filter(init, p)| + (if other then 0 else 1)
  {
    var init, x := xs[..|xs| - 1], xs[|xs| - 1];
    FilterLast(xs, p);
    if p(x) {
      assert multiset(Filter(init, p) + [x]) == multiset(Filter(init, p)) + multiset{x};
    }
  }

  /** The filter of a one-element list. */
  lemma FilterSingle<T>(x: T, p: T -> bool)
    ensures Filter([x], p) == if p(x) then [x] else []
  {
    FilterLast([x], p);
    assert [x][..0] == [];
  }

  /** Filtering a list with one element in front. */
  lemma FilterCons<T>(y: T, rest: seq<T>, p: T -> bool)
    ensures Filter([y] + rest, p) == (if p(y) then [y] else []) + Filter(rest, p)
  {
    FilterSingle(y, p);
    FilterConcat([y], rest, p);
  }

  /** Removing an element the filter drops does not change the filter. */
  lemma FilterRemoveAt<T>(xs: seq<T>, k: nat, p: T -> bool)
    requires k < |xs| && !p(xs[k])
    ensures Filter(RemoveAt(xs, k), p) == Filter(xs, p)
  {
    var a, b := xs[..k], xs[k + 1..];
    var rest := [xs[k]] + b;
    assert xs == a + rest;
    FilterCons(xs[k], b, p);
    assert Filter(rest, p) == Filter(b, p);
    FilterConcat(a, rest, p);
    assert Filter(xs, p) == Filter(a, p) + Filter(b, p);
    assert RemoveAt(xs, k) == a + b;
    FilterConcat(a, b, p);
  }

  /** Prepending the same element to two lists whose filters differ by a suffix keeps that difference. */
  lemma FilterConsAppend<T>(y: T, rest: seq<T>, tail: seq<T>, p: T -> bool, extra: seq<T>)
    requires Filter(rest, p) == Filter(tail, p) + extra
    ensures Filter([y] + rest, p) == Filter([y] + tail, p) + extra
  {
    var head, fr, ft := Filter([y], p), Filter(rest, p), Filter(tail, p);
    FilterConcat([y], rest, p);
    assert Filter([y] + rest, p) == head + fr;
    FilterConcat([y], tail, p);
    assert Filter([y] + tail, p) == head + ft;
    SeqAssoc(head, ft, extra);
  }

  /** Concatenation is associative. */
  lemma SeqAssoc<T>(a: seq<T>, b: seq<T>, c: seq<T>)
    ensures a + (b + c) == (a + b) + c
  {
  }

  lemma {:induction false} FilterConcat<T>(a: seq<T>, b: seq<T>, p: T -> bool)
    ensures Filter(a + b, p) == Filter(a, p) + Filter(b, p)
    decreases |b|
  {
    if |b| > 0 {
      var b0 := b[..|b| - 1];
      FilterConcat(a, b0, p);
      assert (a + b)[..|a + b| - 1] == a + b0;
      FilterLast(a + b, p);
      FilterLast(b, p);
    } else {
      assert a + b == a;
    }
  }

  /** An element that passes `p` is kept by `Filter`. */
  lemma {:induction false} FilterKeeps<T>(xs: seq<T>, p: T -> bool, t: int)
    requires 0 <= t < |xs| && p(xs[t])
    ensures xs[t] in Filter(xs, p)
    decreases |xs|
  {
    FilterLast(xs, p);
    if t < |xs| - 1 {
      FilterKeeps(xs[..|xs| - 1], p, t);
    }
  }

  /** Filtering with a predicate that holds everywhere on `xs` changes nothing. */
  lemma {:induction false} FilterAll<T(!new)>(xs: seq<T>, p: T -> bool)
    requires forall i :: 0 <= i < |xs| ==> p(xs[i])
    ensures Filter(xs, p) == xs
    decreases |xs|
  {
    if |xs| > 0 {
      FilterAll(xs[..|xs| - 1], p);
      assert xs == xs[..|xs| - 1] + [xs[|xs| - 1]];
    }
  }

  /** Filtering with a predicate that holds nowhere on `xs` leaves nothing. */
  lemma {:induction false} FilterNone<T(!new)>(xs: seq<T>, p: T -> bool)
    requires forall i :: 0 <= i < |xs| ==> !p(xs[i])
    ensures Filter(xs, p) == []
    decreases |xs|
  {
    if |xs| > 0 {
      FilterNone(xs[..|xs| - 1], p);
    }
  }

  /** The distinct keys of the elements of `xs`, in order of first appearance (the insertion order of a JavaScript `Set` or `Map`). */
  function KeyOrder<T, K(==)>(xs: seq<T>, key: T -> K): seq<K>
    decreases |xs|
  {
    if |xs| == 0 then []
    else
      var prev := KeyOrder(xs[..|xs| - 1], key);
      var k := key(xs[|xs| - 1]);
      if k in prev then prev else prev + [k]
  }

  /** `KeyOrder` of a non-empty list: that of its front, plus the last key when it is new. */
  lemma KeyOrderLast<T, K>(xs: seq<T>, key: T -> K)
    requires |xs| > 0
    ensures var prev, k := KeyOrder(xs[..|xs| - 1], key), key(xs[|xs| - 1]);
      KeyOrder(xs, key) == if k in prev then prev else prev + [k]
  {
  }

  /** `KeyOrder` lists each key of the elements exactly once, and nothing else. */
  lemma {:induction false} KeyOrderSpec<T, K>(xs: seq<T>, key: T -> K)
    ensures forall i, j :: 0 <= i < j < |KeyOrder(xs, key)| ==> KeyOrder(xs, key)[i] != KeyOrder(xs, key)[j]
    ensures forall k :: k in KeyOrder(xs, key) <==> exists i :: 0 <= i < |xs| && key(xs[i]) == k
    decreases |xs|
  {
    if |xs| > 0 {
      var init := xs[..|xs| - 1];
      KeyOrderSpec(init, key);
      assert forall i :: 0 <= i < |init| ==> init[i] == xs[i];
    }
  }

  /** No key is listed twice. */
  lemma KeyOrderDistinct<T, K>(xs: seq<T>, key: T -> K)
    ensures forall i, j :: 0 <= i < j < |KeyOrder(xs, key)| ==> KeyOrder(xs, key)[i] != KeyOrder(xs, key)[j]
  {
    KeyOrderSpec(xs, key);
  }

  /** Every listed key is the key of some element. */
  lemma KeyOrderSource<T, K>(xs: seq<T>, key: T -> K, k: K)
    requires k in KeyOrder(xs, key)
    ensures exists i :: 0 <= i < |xs| && key(xs[i]) == k
  {
    KeyOrderSpec(xs, key);
  }

  /** The key of every element is listed. */
  lemma KeyOrderCovers<T, K>(xs: seq<T>, key: T -> K, i: int)
    requires 0 <= i < |xs|
    ensures key(xs[i]) in KeyOrder(xs, key)
  {
    KeyOrderSpec(xs, key);
  }

  /** A key listed earlier first appears in `xs` earlier. */
  lemma {:induction false} KeyOrderFirstAppearance<T, K>(xs: seq<T>, key: T -> K, a: int, b: int)
    requires 0 <= a < b < |KeyOrder(xs, key)|
    ensures exists i :: (0 <= i < |xs| && key(xs[i]) == KeyOrder(xs, key)[a]
      && forall j :: 0 <= j <= i ==> key(xs[j]) != KeyOrder(xs, key)[b])
    decreases |xs|
  {
    var r := KeyOrder(xs, key);
    var init := xs[..|xs| - 1];
    var prev := KeyOrder(init, key);
    var k := key(xs[|xs| - 1]);
    KeyOrderSpec(init, key);
    if b < |prev| {
      assert r[..|prev|] == prev;
      KeyOrderFirstAppearance(init, key, a, b);
      var i :| 0 <= i < |init| && key(init[i]) == prev[a]
        && forall j :: 0 <= j <= i ==> key(init[j]) != prev[b];
      assert xs[i] == init[i];
      assert forall j :: 0 <= j <= i ==> xs[j] == init[j];
    } else {
      assert r == prev + [k] && b == |prev| && r[b] == k && k !in prev;
      assert r[a] == prev[a] && prev[a] in prev;
      KeyOrderSource(init, key, prev[a]);
      var i :| 0 <= i < |init| && key(init[i]) == prev[a];
      assert xs[i] == init[i];
      forall j | 0 <= j <= i
        ensures key(xs[j]) != k
      {
        assert xs[j] == init[j];
        KeyOrderCovers(init, key, j);
      }
    }
  }
}
