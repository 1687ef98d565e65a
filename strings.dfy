/** The pieces of Go's `strings` and `sort` packages that the vCard core calls:
    lower-casing, case-insensitive equality, and ordering of string keys.
    Case folding is ASCII only; Go folds the whole of Unicode. */
module Strings {

  /** ASCII lower-case of one character. */
  function LowerChar(c: char): char {
    if 'A' <= c <= 'Z' then (c as int + 32) as char else c
  }

  /** `strings.ToLower`, restricted to ASCII. */
  function ToLower(s: string): (r: string)
    ensures |r| == |s|
    ensures forall i :: 0 <= i < |s| ==> r[i] == LowerChar(s[i])
  {
    if s == [] then [] else [LowerChar(s[0])] + ToLower(s[1..])
  }

  /** `strings.EqualFold`, restricted to ASCII: same length and the same
      characters once upper-case letters are folded. */
  predicate EqualFold(a: string, b: string) {
    |a| == |b| && forall i :: 0 <= i < |a| ==> LowerChar(a[i]) == LowerChar(b[i])
  }

  /** Equality ignoring case is equality of the lower-cased strings. */
  lemma EqualFoldIsLowerEquality(a: string, b: string)
    ensures EqualFold(a, b) <==> ToLower(a) == ToLower(b)
  {
    if ToLower(a) == ToLower(b) {
      assert |a| == |b|;
      forall i | 0 <= i < |a| ensures LowerChar(a[i]) == LowerChar(b[i]) {
        assert ToLower(a)[i] == ToLower(b)[i];
      }
    }
  }

  /** Go's `<` on strings: lexicographic by character. */
  predicate Less(a: string, b: string) {
    if b == [] then false
    else if a == [] then true
    else a[0] < b[0] || (a[0] == b[0] && Less(a[1..], b[1..]))
  }

  lemma {:induction false} LessIrreflexive(a: string)
    ensures !Less(a, a)
  {
    if a != [] {
      LessIrreflexive(a[1..]);
    }
  }

  lemma {:induction false} LessTransitive(a: string, b: string, c: string)
    requires Less(a, b) && Less(b, c)
    ensures Less(a, c)
  {
    if a != [] && a[0] == b[0] && b[0] == c[0] {
      LessTransitive(a[1..], b[1..], c[1..]);
    }
  }

  lemma {:induction false} LessTotal(a: string, b: string)
    requires a != b
    ensures Less(a, b) || Less(b, a)
  {
    if a != [] && b != [] && a[0] == b[0] {
      assert a == [a[0]] + a[1..] && b == [b[0]] + b[1..];
      LessTotal(a[1..], b[1..]);
    }
  }

  /** Strictly ascending, hence without duplicates. */
  predicate Sorted(s: seq<string>) {
    forall i, j :: 0 <= i < j < |s| ==> Less(s[i], s[j])
  }

  function Elements(s: seq<string>): set<string> {
    set x | x in s
  }

  /** Inserts `k` into a sorted sequence at its place. */
  function Insert(s: seq<string>, k: string): (r: seq<string>)
    requires Sorted(s) && k !in s
    ensures Sorted(r) && Elements(r) == Elements(s) + {k} && |r| == |s| + 1
  {
    if s == [] then [k]
    else if Less(k, s[0]) then
      assert forall j :: 0 < j < |s| ==> Less(k, s[j]) by {
        forall j | 0 < j < |s| ensures Less(k, s[j]) { LessTransitive(k, s[0], s[j]); }
      }
      [k] + s
    else
      LessTotal(k, s[0]);
      var t := Insert(s[1..], k);
      assert Elements(s) == {s[0]} + Elements(s[1..]) by {
        assert s == [s[0]] + s[1..];
      }
      assert forall x :: x in t ==> Less(s[0], x) by {
        forall x | x in t ensures Less(s[0], x) {
          assert x in Elements(t);
          if x != k {
            var j :| 1 <= j < |s| && s[j] == x;
          }
        }
      }
      [s[0]] + t
  }

  /** `sort.Strings` applied to the keys of a map, collected in whatever order
      the map yields them. */
  method SortKeys(keys: set<string>) returns (r: seq<string>)
    ensures Sorted(r) && Elements(r) == keys && |r| == |keys|
  {
    r := [];
    var rest := keys;
    while rest != {}
      invariant Sorted(r) && Elements(r) + rest == keys && Elements(r) !! rest
      invariant |r| + |rest| == |keys|
      decreases rest
    {
      var k :| k in rest;
      r := Insert(r, k);
      rest := rest - {k};
    }
  }

  /** The ascending order of a set of keys is unique. */
  lemma {:induction false} SortedUnique(a: seq<string>, b: seq<string>)
    requires Sorted(a) && Sorted(b) && Elements(a) == Elements(b)
    ensures a == b
  {
    if a != [] {
      assert a[0] in Elements(b);
      assert b != [];
      assert b[0] in Elements(a);
      if a[0] != b[0] {
        var i :| 0 <= i < |a| && a[i] == b[0];
        var j :| 0 <= j < |b| && b[j] == a[0];
        assert Less(a[0], a[i]) && Less(b[0], b[j]);
        LessTransitive(a[0], b[0], a[0]);
        LessIrreflexive(a[0]);
      }
      assert Elements(a[1..]) == Elements(a) - {a[0]} by {
        assert a == [a[0]] + a[1..];
        forall x | x in a[1..] ensures x != a[0] {
          var i :| 1 <= i < |a| && a[i] == x;
          LessIrreflexive(a[0]);
        }
      }
      assert Elements(b[1..]) == Elements(b) - {b[0]} by {
        assert b == [b[0]] + b[1..];
        forall x | x in b[1..] ensures x != b[0] {
          var i :| 1 <= i < |b| && b[i] == x;
          LessIrreflexive(b[0]);
        }
      }
      SortedUnique(a[1..], b[1..]);
    } else {
      NonEmptyHasElement(b);
    }
  }

  lemma NonEmptyHasElement(s: seq<string>)
    ensures s != [] ==> s[0] in Elements(s)
  {
  }

  /** Concatenation regroups freely; proofs about assembled text call this
      where the solver would not regroup on its own. */
  lemma Assoc<T>(a: seq<T>, b: seq<T>, c: seq<T>)
    ensures a + b + c == a + (b + c)
  {
  }
}
