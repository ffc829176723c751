/**
  Iteration over Java hash sets and the string building done over such an
  iteration. A hash set promises no iteration order, so an iteration is modelled
  as any sequence that lists every element of the set exactly once, and every
  property below is stated for all such sequences.
*/
module Enumerations {

  /** `order` lists every element of `s` exactly once: one possible iteration order of `s`. */
  ghost predicate Enumerates<T>(order: seq<T>, s: set<T>) {
    multiset(order) == multiset(s)
  }

  /** An iteration visits exactly the members of the set, each once, and nothing else. */
  lemma EnumeratesExactlyOnce<T>(order: seq<T>, s: set<T>)
    requires Enumerates(order, s)
    ensures |order| == |s|
    ensures forall x :: multiset(order)[x] == (if x in s then 1 else 0)
    ensures forall x :: x in order <==> x in s
  {
  }

  /** The only iteration of a one-element set lists that element. */
  lemma EnumerationOfSingleton<T>(order: seq<T>, x: T)
    requires Enumerates(order, {x})
    ensures order == [x]
  {
    EnumeratesExactlyOnce(order, {x});
    assert order[0] in order;
  }

  /** The string a StringBuilder holds after appending the string form of each element in turn. */
  function Concat<T>(xs: seq<T>, show: T -> string): (r: string) {
    if xs == [] then "" else Concat(xs[..|xs| - 1], show) + show(xs[|xs| - 1])
  }

  /** The sum of the lengths of the string forms of the elements. */
  function TotalLength<T>(xs: seq<T>, show: T -> string): (r: nat) {
    if xs == [] then 0 else |show(xs[0])| + TotalLength(xs[1..], show)
  }

  /** The toString() of a Java String: the string itself. */
  function Verbatim(s: string): (r: string) { s }

  lemma {:induction false} ConcatAppend<T>(xs: seq<T>, ys: seq<T>, show: T -> string)
    ensures Concat(xs + ys, show) == Concat(xs, show) + Concat(ys, show)
    decreases |ys|
  {
    if ys == [] {
      assert xs + ys == xs;
    } else {
      var last := |ys| - 1;
      assert (xs + ys)[..|xs + ys| - 1] == xs + ys[..last];
      ConcatAppend(xs, ys[..last], show);
    }
  }

  lemma {:induction false} TotalLengthAppend<T>(xs: seq<T>, ys: seq<T>, show: T -> string)
    ensures TotalLength(xs + ys, show) == TotalLength(xs, show) + TotalLength(ys, show)
  {
    if xs == [] {
      assert xs + ys == ys;
    } else {
      assert (xs + ys)[1..] == xs[1..] + ys;
      TotalLengthAppend(xs[1..], ys, show);
    }
  }

  /** Concatenating the string forms yields exactly as many characters as they hold together. */
  lemma {:induction false} ConcatLength<T>(xs: seq<T>, show: T -> string)
    ensures |Concat(xs, show)| == TotalLength(xs, show)
    decreases |xs|
  {
    if xs != [] {
      var init := xs[..|xs| - 1];
      var last := xs[|xs| - 1];
      ConcatLength(init, show);
      TotalLengthAppend(init, [last], show);
      assert init + [last] == xs;
      assert TotalLength([last], show) == |show(last)| by {
        assert [last][1..] == [];
      }
    }
  }

  /**
    The string form of the i-th element sits in the concatenation right after
    the string forms of the elements before it.
  */
  lemma ConcatPieceAt<T>(xs: seq<T>, i: nat, show: T -> string)
    requires i < |xs|
    ensures var at := |Concat(xs[..i], show)|;
      && at + |show(xs[i])| <= |Concat(xs, show)|
      && Concat(xs, show)[at..at + |show(xs[i])|] == show(xs[i])
  {
    assert xs[..i + 1] == xs[..i] + [xs[i]];
    assert Concat([xs[i]], show) == show(xs[i]) by {
      assert [xs[i]][..0] == [];
    }
    ConcatAppend(xs[..i], [xs[i]], show);
    assert xs == xs[..i + 1] + xs[i + 1..];
    ConcatAppend(xs[..i + 1], xs[i + 1..], show);
  }

  /** Reordering the elements does not change how many characters their string forms hold. */
  lemma {:induction false} TotalLengthPermutation<T>(xs: seq<T>, ys: seq<T>, show: T -> string)
    requires multiset(xs) == multiset(ys)
    ensures TotalLength(xs, show) == TotalLength(ys, show)
    decreases |xs|
  {
    if xs == [] {
      assert |ys| == |multiset(ys)| == 0;
    } else {
      var a := xs[0];
      assert a in multiset(ys);
      var k :| 0 <= k < |ys| && ys[k] == a;
      var rest := ys[..k] + ys[k + 1..];
      RemoveFirstAndAt(xs, ys, k);
      TotalLengthPermutation(xs[1..], rest, show);
      TotalLengthRemoveAt(ys, k, show);
      TotalLengthRemoveAt(xs, 0, show);
    }
  }

  /** Removing equal elements from two permutations of each other leaves permutations. */
  lemma RemoveFirstAndAt<T>(xs: seq<T>, ys: seq<T>, k: nat)
    requires multiset(xs) == multiset(ys) && 0 < |xs| && k < |ys| && ys[k] == xs[0]
    ensures multiset(xs[1..]) == multiset(ys[..k] + ys[k + 1..])
  {
    var a, rest := xs[0], ys[..k] + ys[k + 1..];
    assert ys == ys[..k] + [a] + ys[k + 1..];
    assert xs == [a] + xs[1..];
    calc {
      multiset(xs[1..]) + multiset{a};
      multiset(xs);
      multiset(ys);
      multiset(ys[..k]) + multiset{a} + multiset(ys[k + 1..]);
      multiset(rest) + multiset{a};
    }
    assert multiset(xs[1..]) + multiset{a} - multiset{a} == multiset(xs[1..]);
    assert multiset(rest) + multiset{a} - multiset{a} == multiset(rest);
  }

  /** The string forms of a sequence hold those of its k-th element and those of the rest. */
  lemma TotalLengthRemoveAt<T>(ys: seq<T>, k: nat, show: T -> string)
    requires k < |ys|
    ensures TotalLength(ys, show) == |show(ys[k])| + TotalLength(ys[..k] + ys[k + 1..], show)
  {
    var a := ys[k];
    assert ys == ys[..k] + [a] + ys[k + 1..];
    TotalLengthAppend(ys[..k] + [a], ys[k + 1..], show);
    TotalLengthAppend(ys[..k], [a], show);
    TotalLengthAppend(ys[..k], ys[k + 1..], show);
    assert TotalLength([a], show) == |show(a)| by {
      assert [a][1..] == [];
    }
  }

  /** Any two iterations of the same set concatenate to strings of the same length. */
  lemma ConcatLengthIndependentOfOrder<T>(s: set<T>, o1: seq<T>, o2: seq<T>, show: T -> string)
    requires Enumerates(o1, s) && Enumerates(o2, s)
    ensures |Concat(o1, show)| == |Concat(o2, show)|
  {
    ConcatLength(o1, show);
    ConcatLength(o2, show);
    TotalLengthPermutation(o1, o2, show);
  }

  /** `s` starts with `prefix`. */
  predicate StartsWith(s: string, prefix: string) {
    |prefix| <= |s| && s[..|prefix|] == prefix
  }

  /** `s` ends with `suffix`. */
  predicate EndsWith(s: string, suffix: string) {
    |suffix| <= |s| && s[|s| - |suffix|..] == suffix
  }

  /** Java's String.join(sep, xs): the parts in order, one separator between neighbours. */
  function Join(sep: string, xs: seq<string>): (r: string)
    ensures |xs| == 0 ==> r == ""
    ensures |xs| > 0 ==> StartsWith(r, xs[0])
    ensures |xs| > 0 ==> EndsWith(r, xs[|xs| - 1])
  {
    if |xs| == 0 then ""
    else if |xs| == 1 then xs[0]
    else xs[0] + sep + Join(sep, xs[1..])
  }

  /** A non-empty join is as long as its parts together plus one separator per neighbouring pair. */
  lemma {:induction false} JoinLength(sep: string, xs: seq<string>)
    requires |xs| > 0
    ensures |Join(sep, xs)| == TotalLength(xs, Verbatim) + (|xs| - 1) * |sep|
  {
    if |xs| > 1 {
      JoinLength(sep, xs[1..]);
    } else {
      assert xs[1..] == [];
    }
  }

  /**
    The inverse of Join for a one-character separator: the pieces of `s` between
    occurrences of `sep`, empty pieces included.
  */
  function Split(s: string, sep: char): (r: seq<string>)
    ensures |r| >= 1
  {
    if s == [] then [""]
    else if s[0] == sep then [""] + Split(s[1..], sep)
    else var rest := Split(s[1..], sep); [[s[0]] + rest[0]] + rest[1..]
  }

  lemma {:induction false} SplitWithoutSeparator(a: string, sep: char)
    requires sep !in a
    ensures Split(a, sep) == [a]
  {
    if a != [] {
      SplitWithoutSeparator(a[1..], sep);
      assert [a[0]] + a[1..] == a;
    }
  }

  lemma {:induction false} SplitAtSeparator(a: string, b: string, sep: char)
    requires sep !in a
    ensures Split(a + [sep] + b, sep) == [a] + Split(b, sep)
  {
    var s := a + [sep] + b;
    if a == [] {
      assert s[1..] == b;
    } else {
      assert s[1..] == a[1..] + [sep] + b;
      SplitAtSeparator(a[1..], b, sep);
      assert [a[0]] + a[1..] == a;
    }
  }

  /** Splitting a join at its separator gives back the parts, provided no part holds the separator. */
  lemma {:induction false} SplitJoin(xs: seq<string>, sep: char)
    requires |xs| > 0
    requires forall i :: 0 <= i < |xs| ==> sep !in xs[i]
    ensures Split(Join([sep], xs), sep) == xs
  {
    if |xs| == 1 {
      SplitWithoutSeparator(xs[0], sep);
    } else {
      SplitJoin(xs[1..], sep);
      SplitAtSeparator(xs[0], Join([sep], xs[1..]), sep);
      assert [xs[0]] + xs[1..] == xs;
    }
  }
}
