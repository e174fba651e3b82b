/**
 * The few PHP runtime facilities the file analyser leans on: nullable
 * values, `strpos`, `array_unique` and the `%d` conversion of `sprintf`.
 */
module Builtins {

  /** A PHP value that may be `null`. */
  datatype Option<+T> = None | Some(value: T)

  /** `needle` occurs in `haystack` starting at index `i`. */
  predicate OccursAt(haystack: string, needle: string, i: nat) {
    i + |needle| <= |haystack| && haystack[i..i + |needle|] == needle
  }

  /** `needle` occurs somewhere in `haystack`. */
  ghost predicate Contains(haystack: string, needle: string) {
    exists i: nat :: OccursAt(haystack, needle, i)
  }

  /** `haystack` begins with `prefix`. */
  predicate StartsWith(haystack: string, prefix: string) {
    OccursAt(haystack, prefix, 0)
  }

  /** `strpos($haystack, $needle, $from)`: the first index at or after `from` where `needle` occurs. */
  function StrPosFrom(haystack: string, needle: string, from: nat): (r: Option<nat>)
    ensures r.Some? ==> from <= r.value && OccursAt(haystack, needle, r.value)
    ensures r.Some? ==> forall j: nat :: from <= j < r.value ==> !OccursAt(haystack, needle, j)
    ensures r.None? ==> forall j: nat :: from <= j ==> !OccursAt(haystack, needle, j)
    decreases |haystack| - from
  {
    if from + |needle| > |haystack| then None
    else if haystack[from..from + |needle|] == needle then Some(from)
    else StrPosFrom(haystack, needle, from + 1)
  }

  /**
   * `strpos($haystack, $needle)`: `None` plays the part of PHP's `false`.
   * `strpos(...) !== false` is containment and `strpos(...) === 0` is a prefix test.
   */
  function StrPos(haystack: string, needle: string): (r: Option<nat>)
    ensures r.None? <==> !Contains(haystack, needle)
    ensures r == Some(0) <==> StartsWith(haystack, needle)
    ensures r.Some? ==> OccursAt(haystack, needle, r.value)
  {
    var r := StrPosFrom(haystack, needle, 0);
    assert r.Some? ==> OccursAt(haystack, needle, r.value);
    r
  }

  predicate NoDuplicates<T(==)>(s: seq<T>) {
    forall i, j :: 0 <= i < j < |s| ==> s[i] != s[j]
  }

  /**
   * `array_unique` over the values not yet in `seen`: the first occurrence
   * of each value survives, in the order of the input.
   */
  function UniqueAfter<T(==,!new)>(s: seq<T>, seen: set<T>): (r: seq<T>)
    ensures NoDuplicates(r)
    ensures forall x :: x in r <==> x in s && x !in seen
    decreases |s|
  {
    if s == [] then []
    else if s[0] in seen then UniqueAfter(s[1..], seen)
    else [s[0]] + UniqueAfter(s[1..], seen + {s[0]})
  }

  /** `array_values(array_unique($s))`. */
  function Unique<T(==,!new)>(s: seq<T>): (r: seq<T>)
    ensures NoDuplicates(r)
    ensures forall x :: x in r <==> x in s
  {
    UniqueAfter(s, {})
  }

  /** The values first met in `a` come before those first met in `b`. */
  lemma {:induction false} UniqueAfterConcat<T(!new)>(a: seq<T>, b: seq<T>, seen: set<T>)
    ensures UniqueAfter(a + b, seen) == UniqueAfter(a, seen) + UniqueAfter(b, seen + set x | x in a)
    decreases |a|
  {
    if a == [] {
      assert a + b == b;
      assert seen + (set x | x in a) == seen;
      assert UniqueAfter(a, seen) == [];
    } else {
      assert (a + b)[0] == a[0];
      assert (a + b)[1..] == a[1..] + b;
      if a[0] in seen {
        UniqueAfterConcat(a[1..], b, seen);
        assert seen + (set x | x in a[1..]) == seen + (set x | x in a);
      } else {
        UniqueAfterConcat(a[1..], b, seen + {a[0]});
        assert seen + {a[0]} + (set x | x in a[1..]) == seen + (set x | x in a);
      }
    }
  }

  /** Deduplicating twice is deduplicating once against both sets of seen values. */
  lemma {:induction false} UniqueAfterTwice<T(!new)>(s: seq<T>, first: set<T>, second: set<T>)
    ensures UniqueAfter(UniqueAfter(s, first), second) == UniqueAfter(s, second + first)
    decreases |s|
  {
    if s != [] {
      if s[0] in first {
        UniqueAfterTwice(s[1..], first, second);
      } else {
        var rest := UniqueAfter(s[1..], first + {s[0]});
        assert UniqueAfter(s, first) == [s[0]] + rest;
        assert ([s[0]] + rest)[0] == s[0];
        assert ([s[0]] + rest)[1..] == rest;
        if s[0] in second {
          UniqueAfterTwice(s[1..], first + {s[0]}, second);
          assert second + (first + {s[0]}) == second + first;
        } else {
          UniqueAfterTwice(s[1..], first + {s[0]}, second + {s[0]});
          assert second + {s[0]} + (first + {s[0]}) == second + first + {s[0]};
        }
      }
    }
  }

  /** Appending one value: it survives exactly when it has not been seen before. */
  lemma UniqueAppend<T(!new)>(s: seq<T>, x: T)
    ensures Unique(s + [x]) == Unique(s) + (if x in s then [] else [x])
  {
    UniqueAfterConcat(s, [x], {});
    var seen := {} + set y | y in s;
    assert x in seen <==> x in s;
    assert [x][1..] == [];
  }

  /**
   * Deduplicating a segment before appending it does not change
   * `array_unique` of the whole, given prefixes with the same unique values.
   */
  lemma UniqueOfUniqueSegment<T(!new)>(p: seq<T>, a: seq<T>, k: seq<T>)
    requires Unique(p) == Unique(a)
    ensures Unique(p + Unique(k)) == Unique(a + k)
  {
    var seenP: set<T> := {} + set x | x in p;
    var seenA: set<T> := {} + set x | x in a;
    assert seenP == seenA by {
      forall x ensures x in seenP <==> x in seenA {
        assert x in p <==> x in Unique(p);
        assert x in a <==> x in Unique(a);
      }
    }
    calc {
      Unique(p + Unique(k));
      { UniqueAfterConcat(p, Unique(k), {}); }
      Unique(p) + UniqueAfter(Unique(k), seenP);
      { UniqueAfterTwice(k, {}, seenP); assert seenP + {} == seenP; }
      Unique(p) + UniqueAfter(k, seenP);
      { UniqueAfterConcat(a, k, {}); }
      Unique(a + k);
    }
  }

  function DigitChar(d: nat): char
    requires d < 10
  {
    "0123456789"[d]
  }

  function NatToString(n: nat): string
    decreases n
  {
    if n < 10 then [DigitChar(n)] else NatToString(n / 10) + [DigitChar(n % 10)]
  }

  /** The `%d` conversion of `sprintf`. */
  function IntToString(n: int): string {
    if n < 0 then "-" + NatToString(-n) else NatToString(n)
  }
}
