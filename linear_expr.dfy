/**
 * Linear expressions: `ConcreteLinear`, an insertion-ordered set of terms
 * created on first use, and `ImmutableLinear`, a frozen list of terms.
 *
 * Elsewhere in the model a `Linear` argument is passed as what iterating it
 * yields: `Some(terms)` in iteration order, or `None` for a null reference.
 */
module LinearExpr {
  import opened Wrappers
  import opened Terms

  /** No element occurs twice. */
  ghost predicate Distinct<T>(s: seq<T>) {
    forall i, j :: 0 <= i < j < |s| ==> s[i] != s[j]
  }

  /** The elements of a sequence, as a set. */
  function Elems<T>(s: seq<T>): set<T> {
    set x | x in s
  }

  /** Taking one element out of a set makes it smaller: the measure of an iteration over a set. */
  lemma RemoveShrinks<T>(s: set<T>, x: T)
    requires x in s
    ensures |s - {x}| < |s|
  {
    assert s == (s - {x}) + {x};
  }

  /** A list one longer than `t` and starting with it is `t` with its last element appended. */
  lemma SnocOf<T>(s: seq<T>, t: seq<T>)
    requires |s| == |t| + 1 && s[..|t|] == t
    ensures s == t + [s[|t|]]
  {
  }

  /** `LinkedHashSet.add`: append unless already present. */
  function Inserted<T(==)>(s: seq<T>, x: T): seq<T> {
    if x in s then s else s + [x]
  }

  /** `LinkedHashSet.remove`: drop the element, keep the order of the rest. */
  function Removed<T(==)>(s: seq<T>, x: T): (r: seq<T>)
    ensures |r| <= |s|
  {
    if s == [] then []
    else if s[0] == x then Removed(s[1..], x)
    else [s[0]] + Removed(s[1..], x)
  }

  lemma {:induction false} DistinctCardinality<T>(s: seq<T>)
    requires Distinct(s)
    ensures |Elems(s)| == |s|
  {
    if s != [] {
      assert Distinct(s[1..]);
      DistinctCardinality(s[1..]);
      assert Elems(s) == Elems(s[1..]) + {s[0]};
      assert s[0] !in Elems(s[1..]);
    }
  }

  /** Adding keeps the sequence a prefix, adds exactly the term, and grows by at most one. */
  lemma InsertedSpec<T>(s: seq<T>, x: T)
    requires Distinct(s)
    ensures Distinct(Inserted(s, x))
    ensures Elems(Inserted(s, x)) == Elems(s) + {x}
    ensures Inserted(s, x)[..|s|] == s
    ensures |Inserted(s, x)| == if x in s then |s| else |s| + 1
  {
    if x !in s {
      assert Inserted(s, x) == s + [x];
      assert Elems(s + [x]) == Elems(s) + {x};
    }
  }

  lemma {:induction false} RemovedSpec<T>(s: seq<T>, x: T)
    requires Distinct(s)
    ensures Distinct(Removed(s, x))
    ensures Elems(Removed(s, x)) == Elems(s) - {x}
    ensures |Removed(s, x)| == if x in s then |s| - 1 else |s|
  {
    if s != [] {
      assert Distinct(s[1..]);
      RemovedSpec(s[1..], x);
      assert Elems(s) == {s[0]} + Elems(s[1..]);
      if s[0] != x {
        var r := [s[0]] + Removed(s[1..], x);
        assert Elems(r) == {s[0]} + Elems(Removed(s[1..], x));
        assert s[0] !in Elems(s[1..]);
        forall i, j | 0 <= i < j < |r| ensures r[i] != r[j] {
          if i == 0 {
            assert r[j] in Elems(Removed(s[1..], x));
          }
        }
      } else {
        assert s[0] !in s[1..];
      }
    }
  }

  /** Removing an absent term changes nothing. */
  lemma {:induction false} RemovedAbsent<T>(s: seq<T>, x: T)
    requires x !in s
    ensures Removed(s, x) == s
  {
    if s != [] {
      assert x !in s[1..];
      RemovedAbsent(s[1..], x);
      assert s == [s[0]] + s[1..];
    }
  }

  /** Two terms over one variable with different coefficients are both kept. */
  lemma SameVariableTwoCoefficients<V>(v: V, a: real, b: real)
    requires a != b
    ensures Inserted(Inserted([], Term(a, v)), Term(b, v)) == [Term(a, v), Term(b, v)]
  {
  }

  /** A `LinkedHashSet<Term>` field that starts null and is created by the first `add`. */
  class ConcreteLinear<V(==)> {
    var terms: Option<seq<Term<V>>>

    ghost predicate Valid()
      reads this
    {
      terms.Some? ==> Distinct(terms.value)
    }

    /** What `iterator()` yields: nothing before the first `add`, else the set in insertion order. */
    function Elements(): seq<Term<V>>
      reads this
    {
      if terms.None? then [] else terms.value
    }

    constructor()
      ensures Valid() && terms == None
      ensures Elements() == []
    {
      terms := None;
    }

    method Add(term: Term<V>)
      requires Valid()
      modifies this
      ensures Valid()
      ensures terms == Some(Inserted(old(Elements()), term))
    {
      var current := if terms.None? then [] else terms.value;
      InsertedSpec(current, term);
      terms := Some(Inserted(current, term));
    }

    method Remove(term: Term<V>)
      requires Valid()
      modifies this
      ensures Valid()
      ensures old(terms).None? ==> terms == None
      ensures old(terms).Some? ==> terms == Some(Removed(old(terms.value), term))
    {
      if terms.None? {
        return;
      }
      RemovedSpec(terms.value, term);
      terms := Some(Removed(terms.value, term));
    }

    method Clear()
      requires Valid()
      modifies this
      ensures Valid()
      ensures old(terms).None? ==> terms == None
      ensures old(terms).Some? ==> terms == Some([])
      ensures Elements() == []
    {
      if terms.None? {
        return;
      }
      terms := Some([]);
    }

    /** `size()`: the number of distinct terms held. */
    method Size() returns (n: int)
      requires Valid()
      ensures n == |Elements()| == |Elems(Elements())|
    {
      if terms.None? {
        return 0;
      }
      DistinctCardinality(terms.value);
      n := |terms.value|;
    }

    /**
     * `equals`: the same object, or both never used, or both created and
     * holding the same set of terms.
     */
    predicate Equals(other: ConcreteLinear<V>)
      reads this, other
    {
      this == other ||
      (terms.None? && other.terms.None?) ||
      (terms.Some? && other.terms.Some? && Elems(terms.value) == Elems(other.terms.value))
    }
  }

  /** `equals` compares contents as sets and whether each side was ever used. */
  lemma EqualsMeaning<V>(a: ConcreteLinear<V>, b: ConcreteLinear<V>)
    ensures a.Equals(b) <==>
      (a.terms.None? <==> b.terms.None?) && Elems(a.Elements()) == Elems(b.Elements())
  {
  }

  /** A never-used linear differs from one that was emptied by `clear` or `remove`. */
  lemma NeverUsedDiffersFromEmptied<V>(a: ConcreteLinear<V>, b: ConcreteLinear<V>)
    requires a.terms == None && b.terms == Some([])
    ensures !a.Equals(b) && !b.Equals(a)
    ensures a.Elements() == b.Elements()
  {
  }

  /** Insertion order does not matter to `equals`. */
  lemma EqualsIgnoresOrder<V>(a: ConcreteLinear<V>, b: ConcreteLinear<V>, x: Term<V>, y: Term<V>)
    requires a.terms == Some([x, y]) && b.terms == Some([y, x])
    ensures a.Equals(b)
  {
  }

  /** `ImmutableLinear`: an unmodifiable list of terms. */
  class ImmutableLinear<V(==)> {
    const terms: seq<Term<V>>

    /** `ImmutableLinear(Collection)`: every element in collection order, duplicates kept. */
    constructor FromCollection(collection: seq<Term<V>>)
      ensures terms == collection
    {
      terms := collection;
    }

    /** `ImmutableLinear(Linear)`: copies the terms in iteration order. */
    constructor FromLinear(linear: ConcreteLinear<V>)
      ensures terms == linear.Elements()
    {
      var source := linear.Elements();
      var copy: seq<Term<V>> := [];
      var i := 0;
      while i < |source|
        invariant 0 <= i <= |source|
        invariant copy == source[..i]
      {
        copy := copy + [source[i]];
        i := i + 1;
      }
      terms := copy;
    }

    method Add(term: Term<V>) returns (r: Result<()>)
      ensures r == Err(UnsupportedOperation)
    {
      r := Err(UnsupportedOperation);
    }

    method Remove(term: Term<V>) returns (r: Result<()>)
      ensures r == Err(UnsupportedOperation)
    {
      r := Err(UnsupportedOperation);
    }

    method Clear() returns (r: Result<()>)
      ensures r == Err(UnsupportedOperation)
    {
      r := Err(UnsupportedOperation);
    }

    method Size() returns (n: int)
      ensures n == |terms|
    {
      n := |terms|;
    }

    method IsEmpty() returns (b: bool)
      ensures b <==> |terms| == 0
    {
      var n := Size();
      b := n == 0;
    }
  }

  /** A copy is not affected by later changes to the linear it was taken from. */
  method CopyIsIndependent<V>(linear: ConcreteLinear<V>, t: Term<V>) returns (copy: ImmutableLinear<V>)
    requires linear.Valid()
    modifies linear
    ensures copy.terms == old(linear.Elements())
    ensures linear.Elements() == Inserted(old(linear.Elements()), t)
  {
    copy := new ImmutableLinear.FromLinear(linear);
    linear.Add(t);
  }
}
