/**
 * Byte-wise string order (what Go's `<` on strings and sort.Strings use; for Unicode
 * scalar values it is the code-point order, which UTF-8 preserves) and sorted
 * enumerations of finite sets of strings.
 */
module Ordering {

  /** a sorts no later than b. */
  predicate Below(a: string, b: string)
    decreases |a|
  {
    |a| == 0 || (|b| > 0 && (a[0] < b[0] || (a[0] == b[0] && Below(a[1..], b[1..]))))
  }

  lemma {:induction false} BelowReflexive(a: string)
    ensures Below(a, a)
    decreases |a|
  {
    if |a| > 0 {
      BelowReflexive(a[1..]);
    }
  }

  lemma {:induction false} BelowTotal(a: string, b: string)
    ensures Below(a, b) || Below(b, a)
    decreases |a|
  {
    if |a| > 0 && |b| > 0 && a[0] == b[0] {
      BelowTotal(a[1..], b[1..]);
    }
  }

  lemma {:induction false} BelowAntisymmetric(a: string, b: string)
    requires Below(a, b) && Below(b, a)
    ensures a == b
    decreases |a|
  {
    if |a| > 0 {
      BelowAntisymmetric(a[1..], b[1..]);
      assert a == [a[0]] + a[1..] && b == [b[0]] + b[1..];
    }
  }

  lemma {:induction false} BelowTransitive(a: string, b: string, c: string)
    requires Below(a, b) && Below(b, c)
    ensures Below(a, c)
    decreases |a|
  {
    if |a| > 0 && a[0] == b[0] && b[0] == c[0] {
      BelowTransitive(a[1..], b[1..], c[1..]);
    }
  }

  /** Every element sorts no later than every later element. */
  predicate Sorted(s: seq<string>) {
    forall i, j :: 0 <= i < j < |s| ==> Below(s[i], s[j])
  }

  /** No element occurs twice. */
  predicate Distinct(s: seq<string>) {
    forall i, j :: 0 <= i < j < |s| ==> s[i] != s[j]
  }

  /** s lists every element of keys exactly once, in some order (how Go ranges over a map). */
  predicate Enumerates(s: seq<string>, keys: set<string>) {
    Distinct(s) && (forall x :: x in s ==> x in keys) && (forall x :: x in keys ==> x in s)
  }

  /** Appending a new key to an enumeration enumerates the larger set. */
  lemma EnumeratesAppend(s: seq<string>, keys: set<string>, x: string)
    requires Enumerates(s, keys) && x !in keys
    ensures Enumerates(s + [x], keys + {x})
  {
    assert forall i :: 0 <= i < |s| ==> (s + [x])[i] == s[i];
  }

  /** An enumeration has as many entries as the set has elements. */
  lemma {:induction false} EnumerationSize(s: seq<string>, keys: set<string>)
    requires Enumerates(s, keys)
    ensures |s| == |keys|
    decreases |s|
  {
    if |s| > 0 {
      var last := s[|s| - 1];
      var front := s[..|s| - 1];
      assert Enumerates(front, keys - {last}) by {
        forall x ensures x in front <==> x in keys - {last} {
          if x in front {
            var i :| 0 <= i < |front| && front[i] == x;
            assert s[i] != s[|s| - 1];
          }
          if x in keys - {last} {
            assert x in s;
            var i :| 0 <= i < |s| && s[i] == x;
            assert i != |s| - 1;
            assert front[i] == x;
          }
        }
      }
      EnumerationSize(front, keys - {last});
    } else {
      assert forall x :: x !in keys;
      assert keys == {};
    }
  }

  /** Two enumerations of one set list the same multiset of elements. */
  lemma EnumerationsArePermutations(a: seq<string>, b: seq<string>, keys: set<string>)
    requires Enumerates(a, keys) && Enumerates(b, keys)
    ensures multiset(a) == multiset(b)
  {
    DistinctMultiset(a);
    DistinctMultiset(b);
    assert multiset(a) == multiset(keys) == multiset(b) by {
      forall x ensures multiset(a)[x] == multiset(keys)[x] == multiset(b)[x] {
        assert (x in a <==> x in keys) && (x in b <==> x in keys);
      }
    }
  }

  /** A sequence without repetitions holds each of its elements once. */
  lemma {:induction false} DistinctMultiset(s: seq<string>)
    requires Distinct(s)
    ensures forall x :: multiset(s)[x] == if x in s then 1 else 0
    decreases |s|
  {
    if |s| > 0 {
      var front := s[..|s| - 1];
      DistinctMultiset(front);
      assert s == front + [s[|s| - 1]];
      assert s[|s| - 1] !in front;
    }
  }

  /** A sequence that holds no element twice has no repetitions. */
  lemma {:induction false} MultisetAtMostOnce(s: seq<string>)
    requires forall x :: multiset(s)[x] <= 1
    ensures Distinct(s)
    decreases |s|
  {
    if |s| > 0 {
      var front := s[..|s| - 1];
      var last := s[|s| - 1];
      assert s == front + [last];
      assert forall x :: multiset(front)[x] <= multiset(s)[x];
      MultisetAtMostOnce(front);
      assert multiset(s)[last] == multiset(front)[last] + 1;
      assert last !in multiset(front);
    }
  }

  /** A least element of a non-empty finite set. */
  lemma {:induction false} MinimumExists(keys: set<string>)
    requires keys != {}
    ensures exists m :: m in keys && forall x :: x in keys ==> Below(m, x)
    decreases |keys|
  {
    var y :| y in keys;
    var rest := keys - {y};
    assert keys == rest + {y};
    if rest == {} {
      var w := MinimumAdded(rest, y, y);
      assert w in keys && forall x :: x in keys ==> Below(w, x);
    } else {
      MinimumExists(rest);
      var m :| m in rest && forall x :: x in rest ==> Below(m, x);
      var w := MinimumAdded(rest, m, y);
      assert w in keys && forall x :: x in keys ==> Below(w, x);
    }
  }

  /** Adding y to a set whose least element is m (or to the empty set, with m == y). */
  lemma MinimumAdded(rest: set<string>, m: string, y: string) returns (w: string)
    requires rest == {} ==> m == y
    requires rest != {} ==> m in rest && forall x :: x in rest ==> Below(m, x)
    ensures w in rest + {y} && forall x :: x in rest + {y} ==> Below(w, x)
  {
    BelowReflexive(y);
    BelowTotal(m, y);
    if rest != {} && Below(m, y) {
      w := m;
    } else {
      w := y;
      forall x | x in rest + {y} ensures Below(y, x) {
        if x != y {
          BelowTransitive(y, m, x);
        }
      }
    }
  }

  /** The keys of a set in ascending order: the order sort.Strings leaves them in. */
  ghost function SortedSeq(keys: set<string>): (r: seq<string>)
    ensures Sorted(r) && Enumerates(r, keys)
    decreases |keys|
  {
    if keys == {} then []
    else
      MinimumExists(keys);
      var m :| m in keys && forall x :: x in keys ==> Below(m, x);
      var rest := SortedSeq(keys - {m});
      assert forall x :: x in rest ==> Below(m, x);
      [m] + rest
  }

  /** A set has exactly one ascending enumeration. */
  lemma {:induction false} AscendingEnumerationUnique(a: seq<string>, b: seq<string>, keys: set<string>)
    requires Sorted(a) && Enumerates(a, keys)
    requires Sorted(b) && Enumerates(b, keys)
    ensures a == b
    decreases |a|
  {
    if |a| > 0 {
      assert a[0] in b;
      assert b != [];
      assert b[0] in a;
      var i :| 0 <= i < |a| && a[i] == b[0];
      var j :| 0 <= j < |b| && b[j] == a[0];
      if i == 0 { BelowReflexive(a[0]); }
      if j == 0 { BelowReflexive(b[0]); }
      assert Below(a[0], a[i]) && Below(b[0], b[j]);
      BelowAntisymmetric(a[0], b[0]);
      var rest := keys - {a[0]};
      assert Enumerates(a[1..], rest) by {
        forall x ensures x in a[1..] <==> x in rest {
          if x in a[1..] {
            var i :| 0 <= i < |a[1..]| && a[1..][i] == x;
            assert a[i + 1] != a[0];
          }
          if x in rest {
            var i :| 0 <= i < |a| && a[i] == x;
            assert i > 0 && a[1..][i - 1] == x;
          }
        }
      }
      assert Enumerates(b[1..], rest) by {
        forall x ensures x in b[1..] <==> x in rest {
          if x in b[1..] {
            var i :| 0 <= i < |b[1..]| && b[1..][i] == x;
            assert b[i + 1] != b[0];
          }
          if x in rest {
            var i :| 0 <= i < |b| && b[i] == x;
            assert i > 0 && b[1..][i - 1] == x;
          }
        }
      }
      AscendingEnumerationUnique(a[1..], b[1..], rest);
      assert a == [a[0]] + a[1..] && b == [b[0]] + b[1..];
    } else {
      EnumerationSize(a, keys);
      EnumerationSize(b, keys);
    }
  }

  /** Insert x into a sorted sequence before the first element it sorts below. */
  function Insert(s: seq<string>, x: string): (r: seq<string>)
    requires Sorted(s)
    ensures Sorted(r) && multiset(r) == multiset(s) + multiset{x}
    decreases |s|
  {
    if |s| == 0 then [x]
    else if Below(x, s[0]) then
      assert forall k :: 0 <= k < |s| ==> Below(x, s[k]) by {
        forall k | 0 <= k < |s| ensures Below(x, s[k]) {
          if k > 0 {
            BelowTransitive(x, s[0], s[k]);
          }
        }
      }
      [x] + s
    else
      var rest := Insert(s[1..], x);
      InsertedAbove(s, x, rest);
      [s[0]] + rest
  }

  /** What Insert places after s[0] when x does not sort below it. */
  lemma InsertedAbove(s: seq<string>, x: string, rest: seq<string>)
    requires Sorted(s) && |s| > 0 && !Below(x, s[0])
    requires Sorted(rest) && multiset(rest) == multiset(s[1..]) + multiset{x}
    ensures Sorted([s[0]] + rest) && multiset([s[0]] + rest) == multiset(s) + multiset{x}
  {
    BelowTotal(x, s[0]);
    forall k | 0 <= k < |rest| ensures Below(s[0], rest[k]) {
      assert rest[k] in multiset(rest);
      if rest[k] != x {
        assert rest[k] in multiset(s[1..]);
        assert rest[k] in s[1..];
      }
    }
    assert s == [s[0]] + s[1..];
  }

  /** sort.Strings: the sequence rearranged into ascending order. */
  function SortStrings(s: seq<string>): (r: seq<string>)
    ensures Sorted(r) && multiset(r) == multiset(s)
    decreases |s|
  {
    if |s| == 0 then []
    else
      assert s == s[..|s| - 1] + [s[|s| - 1]];
      Insert(SortStrings(s[..|s| - 1]), s[|s| - 1])
  }

  /** Sorting an enumeration of a set gives the set's ascending enumeration. */
  lemma SortedEnumeration(s: seq<string>, keys: set<string>)
    requires Enumerates(s, keys)
    ensures SortStrings(s) == SortedSeq(keys)
  {
    var r := SortStrings(s);
    DistinctMultiset(s);
    assert forall x :: x in r <==> x in s by {
      forall x ensures x in r <==> x in s {
        assert x in r <==> x in multiset(r);
        assert x in s <==> x in multiset(s);
      }
    }
    forall x ensures multiset(r)[x] <= 1 {
      assert multiset(s)[x] == if x in s then 1 else 0;
    }
    MultisetAtMostOnce(r);
    AscendingEnumerationUnique(r, SortedSeq(keys), keys);
  }
}
