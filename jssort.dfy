/** `Array.prototype.sort()` without a comparator, applied to arrays of
    strings: elements are compared character by character and a proper
    prefix comes first. The order is total, so the sorted result is
    determined by the elements alone (stability plays no part). */
module JsSort {

  /** `a` sorts no later than `b` under the default comparison. */
  predicate NoLater(a: string, b: string)
  {
    |a| == 0 || (|b| > 0 && (a[0] < b[0] || (a[0] == b[0] && NoLater(a[1..], b[1..]))))
  }

  lemma {:induction false} NoLaterReflexive(a: string)
    ensures NoLater(a, a)
  {
    if |a| > 0 { NoLaterReflexive(a[1..]); }
  }

  lemma {:induction false} NoLaterAntisymmetric(a: string, b: string)
    requires NoLater(a, b) && NoLater(b, a)
    ensures a == b
  {
    if |a| > 0 && |b| > 0 {
      NoLaterAntisymmetric(a[1..], b[1..]);
      assert a == [a[0]] + a[1..] && b == [b[0]] + b[1..];
    }
  }

  lemma {:induction false} NoLaterTransitive(a: string, b: string, c: string)
    requires NoLater(a, b) && NoLater(b, c)
    ensures NoLater(a, c)
  {
    if |a| > 0 && |b| > 0 && |c| > 0 && a[0] == b[0] == c[0] {
      NoLaterTransitive(a[1..], b[1..], c[1..]);
    }
  }

  lemma {:induction false} NoLaterTotal(a: string, b: string)
    ensures NoLater(a, b) || NoLater(b, a)
  {
    if |a| > 0 && |b| > 0 && a[0] == b[0] {
      NoLaterTotal(a[1..], b[1..]);
    }
  }

  predicate Sorted(s: seq<string>)
  {
    forall i, j :: 0 <= i < j < |s| ==> NoLater(s[i], s[j])
  }

  /** Places `x` into the sorted sequence `s`. */
  function Insert(x: string, s: seq<string>): (r: seq<string>)
    requires Sorted(s)
    ensures Sorted(r)
    ensures multiset(r) == multiset(s) + multiset{x}
  {
    if s == [] then
      [x]
    else if NoLater(x, s[0]) then
      assert forall j :: 0 < j < |s| ==> NoLater(x, s[j]) by {
        forall j | 0 < j < |s| ensures NoLater(x, s[j]) { NoLaterTransitive(x, s[0], s[j]); }
      }
      [x] + s
    else
      NoLaterTotal(x, s[0]);
      var rest := Insert(x, s[1..]);
      assert s == [s[0]] + s[1..];
      assert forall j :: 0 <= j < |rest| ==> NoLater(s[0], rest[j]) by {
        forall j | 0 <= j < |rest| ensures NoLater(s[0], rest[j]) {
          assert rest[j] in multiset(rest);
          if rest[j] != x {
            assert rest[j] in multiset(s[1..]);
            var k :| 0 <= k < |s[1..]| && s[1..][k] == rest[j];
            assert s[k + 1] == rest[j];
          }
        }
      }
      [s[0]] + rest
  }

  /** The array's elements in the order `sort()` leaves them. */
  function Sort(s: seq<string>): (r: seq<string>)
    ensures Sorted(r)
    ensures multiset(r) == multiset(s)
  {
    if s == [] then [] else
      assert s == [s[0]] + s[1..];
      Insert(s[0], Sort(s[1..]))
  }

  /** The first element of a sorted sequence sorts no later than any of its elements. */
  lemma FirstIsLeast(a: seq<string>, x: string)
    requires Sorted(a) && x in a
    ensures NoLater(a[0], x)
  {
    if a[0] == x { NoLaterReflexive(x); }
  }

  /** Two sorted arrangements of the same elements are the same sequence. */
  lemma {:induction false} SortedUnique(a: seq<string>, b: seq<string>)
    requires Sorted(a) && Sorted(b)
    requires multiset(a) == multiset(b)
    ensures a == b
  {
    if a != [] {
      assert a[0] in multiset(b) by { assert a[0] in multiset(a); }
      assert b[0] in multiset(a) by { assert |b| == |multiset(b)| == |a|; assert b[0] in multiset(b); }
      FirstIsLeast(b, a[0]);
      FirstIsLeast(a, b[0]);
      NoLaterAntisymmetric(a[0], b[0]);
      assert a == [a[0]] + a[1..] && b == [b[0]] + b[1..];
      assert multiset(a[1..]) == multiset(b[1..]) by {
        assert multiset(a) == multiset{a[0]} + multiset(a[1..]);
        assert multiset(b) == multiset{b[0]} + multiset(b[1..]);
        forall z ensures multiset(a[1..])[z] == multiset(b[1..])[z] {
          assert multiset(a)[z] == multiset{a[0]}[z] + multiset(a[1..])[z];
          assert multiset(b)[z] == multiset{b[0]}[z] + multiset(b[1..])[z];
        }
      }
      SortedUnique(a[1..], b[1..]);
    }
  }

  /** The sorted result depends only on the elements, never on the order
      they came in (for the checklist: on neither insertion order nor
      the key order of a JavaScript object). */
  lemma SortDependsOnElementsOnly(s: seq<string>, t: seq<string>)
    requires multiset(s) == multiset(t)
    ensures Sort(s) == Sort(t)
  {
    SortedUnique(Sort(s), Sort(t));
  }

  /** A sequence already in order is left as it is. */
  lemma SortKeepsSorted(s: seq<string>)
    requires Sorted(s)
    ensures Sort(s) == s
  {
    SortedUnique(Sort(s), s);
  }
}
