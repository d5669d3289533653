/** sortModels (main.go:428-431): sort.Strings on the model list, in place.
    Go compares strings byte by byte; on UTF-8 text that is the order of the
    code points, which is what LessEq compares. */
module ModelOrder {

  /** Lexicographic order: a is a prefix of b, or a is smaller at the first
      position where they differ. */
  predicate LessEq(a: string, b: string)
    ensures a <= b ==> LessEq(a, b)
    ensures LessEq(a, b) && a != [] ==> b != [] && a[0] <= b[0]
  {
    a == [] || (b != [] && (a[0] < b[0] || (a[0] == b[0] && LessEq(a[1..], b[1..]))))
  }

  lemma {:induction false} LessEqReflexive(a: string)
    ensures LessEq(a, a)
  {
    if a != [] {
      LessEqReflexive(a[1..]);
    }
  }

  lemma {:induction false} LessEqTotal(a: string, b: string)
    ensures LessEq(a, b) || LessEq(b, a)
  {
    if a != [] && b != [] && a[0] == b[0] {
      LessEqTotal(a[1..], b[1..]);
    }
  }

  lemma {:induction false} LessEqAntisymmetric(a: string, b: string)
    requires LessEq(a, b) && LessEq(b, a)
    ensures a == b
  {
    if a != [] && b != [] {
      LessEqAntisymmetric(a[1..], b[1..]);
      assert a == [a[0]] + a[1..] && b == [b[0]] + b[1..];
    }
  }

  lemma {:induction false} LessEqTransitive(a: string, b: string, c: string)
    requires LessEq(a, b) && LessEq(b, c)
    ensures LessEq(a, c)
  {
    if a != [] && b != [] && c != [] && a[0] == b[0] && b[0] == c[0] {
      LessEqTransitive(a[1..], b[1..], c[1..]);
    }
  }

  predicate Sorted(s: seq<string>) {
    forall p, q :: 0 <= p < q < |s| ==> LessEq(s[p], s[q])
  }

  /** sort.Strings: afterwards the array is in non-decreasing order and holds
      the same names, each as often as before. */
  method SortModels(models: array<string>)
    modifies models
    ensures Sorted(models[..])
    ensures multiset(models[..]) == multiset(old(models[..]))
  {
    var i := 0;
    while i < models.Length
      invariant 0 <= i <= models.Length
      invariant forall p, q :: 0 <= p < q < i ==> LessEq(models[p], models[q])
      invariant multiset(models[..]) == multiset(old(models[..]))
    {
      var j := i;
      while j > 0 && !LessEq(models[j - 1], models[j])
        invariant 0 <= j <= i
        invariant forall p, q :: 0 <= p < q <= i && q != j ==> LessEq(models[p], models[q])
        invariant multiset(models[..]) == multiset(old(models[..]))
      {
        LessEqTotal(models[j - 1], models[j]);
        models[j - 1], models[j] := models[j], models[j - 1];
        j := j - 1;
      }
      forall p | 0 <= p < j - 1
        ensures LessEq(models[p], models[j])
      {
        LessEqTransitive(models[p], models[j - 1], models[j]);
      }
      i := i + 1;
    }
  }

  /** Two sorted arrangements of one multiset start with the same name. */
  lemma SortedHeadsEqual(a: seq<string>, b: seq<string>)
    requires Sorted(a) && Sorted(b)
    requires multiset(a) == multiset(b) && a != []
    ensures b != [] && a[0] == b[0]
  {
    assert a[0] in multiset(b);
    var k :| 0 <= k < |b| && b[k] == a[0];
    assert b[0] in multiset(a);
    var m :| 0 <= m < |a| && a[m] == b[0];
    if k == 0 {
      LessEqReflexive(b[0]);
    }
    if m == 0 {
      LessEqReflexive(a[0]);
    }
    LessEqAntisymmetric(a[0], b[0]);
  }

  lemma TailsSameMultiset(a: seq<string>, b: seq<string>)
    requires a != [] && b != [] && a[0] == b[0]
    requires multiset(a) == multiset(b)
    ensures multiset(a[1..]) == multiset(b[1..])
  {
    assert a == [a[0]] + a[1..] && b == [b[0]] + b[1..];
    assert multiset(a) == multiset{a[0]} + multiset(a[1..]);
    assert multiset(b) == multiset{b[0]} + multiset(b[1..]);
    assert multiset(a[1..]) == multiset(a) - multiset{a[0]};
    assert multiset(b[1..]) == multiset(b) - multiset{b[0]};
  }

  /** A sorted arrangement of a multiset of names is unique. */
  lemma {:induction false} SortedPermutationUnique(a: seq<string>, b: seq<string>)
    requires Sorted(a) && Sorted(b)
    requires multiset(a) == multiset(b)
    ensures a == b
    decreases |a|
  {
    if a == [] {
      assert |b| == |multiset(b)| == 0;
    } else {
      SortedHeadsEqual(a, b);
      TailsSameMultiset(a, b);
      SortedPermutationUnique(a[1..], b[1..]);
      assert a == [a[0]] + a[1..] && b == [b[0]] + b[1..];
    }
  }

  /** Sorting is idempotent: any sorted rearrangement of an already sorted
      list, such as a second call of SortModels produces, is that list. */
  lemma SortIdempotent(sorted: seq<string>, again: seq<string>)
    requires Sorted(sorted)
    requires Sorted(again) && multiset(again) == multiset(sorted)
    ensures again == sorted
  {
    SortedPermutationUnique(again, sorted);
  }
}
