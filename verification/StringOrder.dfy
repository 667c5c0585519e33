// The order of Rust's `BTreeSet<String>` and `BTreeMap<String, _>`: lexicographic
// order of strings, and the strictly increasing listing of a finite set.
module StringOrder {

  predicate Less(a: string, b: string) {
    if b == [] then false
    else if a == [] then true
    else a[0] < b[0] || (a[0] == b[0] && Less(a[1..], b[1..]))
  }

  lemma {:induction false} LessTotal(a: string, b: string)
    ensures a == b || Less(a, b) || Less(b, a)
  {
    if a != [] && b != [] && a[0] == b[0] {
      LessTotal(a[1..], b[1..]);
      assert a == [a[0]] + a[1..] && b == [b[0]] + b[1..];
    }
  }

  lemma {:induction false} LessTransitive(a: string, b: string, c: string)
    requires Less(a, b) && Less(b, c)
    ensures Less(a, c)
  {
    if a != [] && a[0] == b[0] == c[0] {
      LessTransitive(a[1..], b[1..], c[1..]);
    }
  }

  lemma {:induction false} LessIrreflexive(a: string, b: string)
    requires Less(a, b)
    ensures a != b && !Less(b, a)
  {
    if a != [] && a[0] == b[0] {
      LessIrreflexive(a[1..], b[1..]);
    }
  }

  predicate IsMin(m: string, s: set<string>) {
    m in s && forall x <- s :: x == m || Less(m, x)
  }

  lemma MinExists(s: set<string>)
    requires s != {}
    ensures exists m :: IsMin(m, s)
  {
    var x :| x in s;
    if s == {x} {
      assert IsMin(x, s);
    } else {
      MinExists(s - {x});
      var m :| IsMin(m, s - {x});
      LessTotal(x, m);
      if Less(x, m) {
        forall y <- s | y != x ensures Less(x, y) {
          if y != m { LessTransitive(x, m, y); }
        }
        assert IsMin(x, s);
      } else {
        assert IsMin(m, s);
      }
    }
  }

  lemma MinUnique(a: string, b: string, s: set<string>)
    requires IsMin(a, s) && IsMin(b, s)
    ensures a == b
  {
    if a != b { LessIrreflexive(a, b); }
  }

  function Min(s: set<string>): (m: string)
    requires s != {}
    ensures IsMin(m, s)
  {
    MinExists(s);
    assert forall a, b | IsMin(a, s) && IsMin(b, s) :: a == b by {
      forall a, b | IsMin(a, s) && IsMin(b, s) ensures a == b { MinUnique(a, b, s); }
    }
    var m :| m in s && IsMin(m, s); m
  }

  ghost predicate StrictlySorted(s: seq<string>) {
    forall i, j | 0 <= i < j < |s| :: Less(s[i], s[j])
  }

  // The set in the order in which a B-tree iterates over it.
  function Sorted(s: set<string>): (r: seq<string>)
    ensures StrictlySorted(r)
    ensures forall x :: x in r <==> x in s
    ensures |r| == |s|
  {
    if s == {} then [] else
      var m := Min(s);
      var rest := Sorted(s - {m});
      assert forall x <- rest :: Less(m, x);
      [m] + rest
  }

  // A strictly increasing listing of a set is unique.
  lemma {:induction false} SortedUnique(a: seq<string>, b: seq<string>)
    requires StrictlySorted(a) && StrictlySorted(b)
    requires forall x :: x in a <==> x in b
    ensures a == b
  {
    assert forall i | 0 <= i < |a| :: a[i] in b;
    assert forall i | 0 <= i < |b| :: b[i] in a;
    if a != [] {
      if a[0] != b[0] {
        var i :| 0 <= i < |a| && a[i] == b[0];
        var j :| 0 <= j < |b| && b[j] == a[0];
        LessIrreflexive(a[0], b[0]);
        assert false;
      }
      forall x ensures x in a[1..] <==> x in b[1..] {
        if x in a[1..] { TailHead(a, x); assert x in a; }
        if x in b[1..] { TailHead(b, x); assert x in b; }
      }
      SortedUnique(a[1..], b[1..]);
    }
  }

  lemma TailHead(a: seq<string>, x: string)
    requires a != [] && StrictlySorted(a) && x in a[1..]
    ensures x != a[0]
  {
    var i :| 0 <= i < |a| - 1 && a[1..][i] == x;
    assert Less(a[0], a[i + 1]);
    LessIrreflexive(a[0], a[i + 1]);
  }

  // The strings agree up to a position at which the first ends, or has the smaller character.
  ghost predicate SmallerAt(a: string, b: string, i: nat) {
    i <= |a| && i < |b| && a[..i] == b[..i] && (i == |a| || a[i] < b[i])
  }

  lemma SmallerHead(a: string, b: string, i: nat)
    requires a != [] && b != [] && SmallerAt(a, b, i)
    ensures a[0] <= b[0]
  {
    if i > 0 { assert a[..i][0] == a[0] && b[..i][0] == b[0]; }
  }

  lemma {:induction false} LessIffSmaller(a: string, b: string)
    ensures Less(a, b) <==> exists i: nat :: SmallerAt(a, b, i)
  {
    if b != [] {
      if a == [] {
        assert SmallerAt(a, b, 0);
      } else if a[0] < b[0] {
        assert SmallerAt(a, b, 0);
      } else if a[0] == b[0] {
        LessIffSmaller(a[1..], b[1..]);
        if Less(a, b) {
          var i: nat :| SmallerAt(a[1..], b[1..], i);
          assert a[..i + 1] == [a[0]] + a[1..][..i] && b[..i + 1] == [b[0]] + b[1..][..i];
          assert SmallerAt(a, b, i + 1);
        }
        if exists i: nat :: SmallerAt(a, b, i) {
          var i: nat :| SmallerAt(a, b, i);
          assert a[1..][..i - 1] == a[..i][1..] && b[1..][..i - 1] == b[..i][1..];
          assert SmallerAt(a[1..], b[1..], i - 1);
        }
      } else if exists i: nat :: SmallerAt(a, b, i) {
        var i: nat :| SmallerAt(a, b, i);
        SmallerHead(a, b, i);
      }
    }
  }
}
