/**
 Go's ordering of strings (byte-wise lexicographic, the `<` that `sort.Slice`
 is given in tiles.go and items.go) and the sorted listing of a set of names.
 Every name in this program is plain ASCII, so comparing `char`s compares the
 bytes Go compares.
 */
module StringOrder {

  /** `a < b` on Go strings. */
  predicate Less(a: string, b: string)
    decreases |a|
  {
    if |a| == 0 then |b| > 0
    else if |b| == 0 then false
    else if a[0] != b[0] then a[0] < b[0]
    else Less(a[1..], b[1..])
  }

  lemma {:induction false} LessIrreflexive(a: string)
    ensures !Less(a, a)
    decreases |a|
  {
    if |a| > 0 {
      LessIrreflexive(a[1..]);
    }
  }

  lemma {:induction false} LessAsymmetric(a: string, b: string)
    ensures Less(a, b) ==> !Less(b, a)
    decreases |a|
  {
    if |a| > 0 && |b| > 0 && a[0] == b[0] {
      LessAsymmetric(a[1..], b[1..]);
    }
  }

  lemma {:induction false} LessTransitive(a: string, b: string, c: string)
    requires Less(a, b) && Less(b, c)
    ensures Less(a, c)
    decreases |a|
  {
    if |a| > 0 && a[0] == b[0] && b[0] == c[0] {
      LessTransitive(a[1..], b[1..], c[1..]);
    }
  }

  lemma {:induction false} LessTrichotomous(a: string, b: string)
    ensures Less(a, b) || a == b || Less(b, a)
    decreases |a|
  {
    if |a| > 0 && |b| > 0 && a[0] == b[0] {
      LessTrichotomous(a[1..], b[1..]);
      if a[1..] == b[1..] {
        assert a == [a[0]] + a[1..] && b == [b[0]] + b[1..];
      }
    }
  }

  /** The three facts that make `Less` a strict total order, for every pair. */
  lemma LessIsStrictTotal()
    ensures forall a: string, b: string :: Less(a, b) ==> !Less(b, a)
    ensures forall a: string, b: string :: Less(a, b) || a == b || Less(b, a)
  {
    forall a: string, b: string ensures Less(a, b) ==> !Less(b, a) {
      LessAsymmetric(a, b);
    }
    forall a: string, b: string ensures Less(a, b) || a == b || Less(b, a) {
      LessTrichotomous(a, b);
    }
  }

  ghost predicate IsLeast(m: string, s: set<string>)
  {
    m in s && forall y :: y in s && y != m ==> Less(m, y)
  }

  lemma {:induction false} LeastExists(s: set<string>)
    requires s != {}
    ensures exists m :: IsLeast(m, s)
    decreases |s|
  {
    var x :| x in s;
    if s - {x} == {} {
      assert s == {x};
      assert IsLeast(x, s);
    } else {
      LeastExists(s - {x});
      var m :| IsLeast(m, s - {x});
      LessTrichotomous(m, x);
      if Less(m, x) {
        assert IsLeast(m, s);
      } else {
        forall y | y in s && y != x
          ensures Less(x, y)
        {
          if y != m {
            LessTransitive(x, m, y);
          }
        }
        assert IsLeast(x, s);
      }
    }
  }

  /** The smallest name of a non-empty set. */
  function Least(s: set<string>): (m: string)
    requires s != {}
    ensures m in s
    ensures forall y :: y in s && y != m ==> Less(m, y)
  {
    LeastExists(s);
    LessIsStrictTotal();
    var m :| m in s && forall y :: y in s && y != m ==> Less(m, y);
    m
  }

  predicate StrictlySorted(s: seq<string>)
  {
    forall i, j :: 0 <= i < j < |s| ==> Less(s[i], s[j])
  }

  /**
   The names of `s` in ascending order: what `sort.Slice` leaves behind when
   it is handed the names in whatever order Go's map iteration produced them.
   */
  function Sorted(s: set<string>): (r: seq<string>)
    ensures StrictlySorted(r)
    ensures forall x :: x in r <==> x in s
    ensures |r| == |s|
    decreases |s|
  {
    if s == {} then []
    else
      var m := Least(s);
      var rest := Sorted(s - {m});
      assert forall x :: x in rest ==> Less(m, x);
      [m] + rest
  }

  lemma HeadIsElement(s: seq<string>)
    requires |s| > 0
    ensures s[0] in s
  {
  }

  /** A strictly sorted sequence is determined by its elements, so the sort's
      result does not depend on the order its input arrived in. */
  lemma {:induction false} SortedIsUnique(a: seq<string>, b: seq<string>)
    requires StrictlySorted(a) && StrictlySorted(b)
    requires forall x :: x in a <==> x in b
    ensures a == b
    decreases |a|
  {
    if |a| == 0 || |b| == 0 {
      if |a| > 0 {
        HeadIsElement(a);
        assert false;
      } else if |b| > 0 {
        HeadIsElement(b);
        assert false;
      }
    } else {
      if a[0] != b[0] {
        assert b[0] in a;
        var i :| 0 <= i < |a| && a[i] == b[0];
        assert a[0] in b;
        var j :| 0 <= j < |b| && b[j] == a[0];
        assert i > 0 && j > 0;
        assert Less(a[0], a[i]);
        assert Less(b[0], b[j]);
        LessAsymmetric(a[0], b[0]);
        assert false;
      }
      forall x ensures x in a[1..] <==> x in b[1..] {
        if x in a[1..] {
          var i :| 1 <= i < |a| && a[i] == x;
          assert Less(a[0], x);
          LessIrreflexive(x);
          assert x in b && x != b[0];
        }
        if x in b[1..] {
          var j :| 1 <= j < |b| && b[j] == x;
          assert Less(b[0], x);
          LessIrreflexive(x);
          assert x in a && x != a[0];
        }
      }
      SortedIsUnique(a[1..], b[1..]);
      assert a == [a[0]] + a[1..] && b == [b[0]] + b[1..];
    }
  }

  /** A sequence that repeats an element or lists two elements out of order is
      the sorted listing of no set. */
  lemma NotSortedIsNoListing(order: seq<string>, s: set<string>)
    requires !StrictlySorted(order)
    ensures order != Sorted(s)
  {
  }
}
