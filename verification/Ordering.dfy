/** The order of strings by code point, and sorting a set of them. */
module Ordering {

  predicate Less(a: string, b: string) {
    b != [] && (a == [] || a[0] < b[0] || (a[0] == b[0] && Less(a[1..], b[1..])))
  }

  lemma {:induction false} LessTotal(a: string, b: string)
    ensures a != b ==> (Less(a, b) <==> !Less(b, a))
    ensures !Less(a, a)
  {
    if a != [] && b != [] {
      LessTotal(a[1..], b[1..]);
      assert a == [a[0]] + a[1..] && b == [b[0]] + b[1..];
    }
    if a != [] {
      LessTotal(a[1..], a[1..]);
    }
  }

  lemma {:induction false} LessTransitive(a: string, b: string, c: string)
    requires Less(a, b) && Less(b, c)
    ensures Less(a, c)
  {
    if a != [] && b != [] && c != [] && a[0] == b[0] == c[0] {
      LessTransitive(a[1..], b[1..], c[1..]);
    }
  }

  predicate IsLeast(least: string, names: set<string>) {
    least in names && forall name :: name in names && name != least ==> Less(least, name)
  }

  lemma {:induction false} LeastExists(names: set<string>)
    requires names != {}
    ensures exists least :: IsLeast(least, names)
  {
    var name :| name in names;
    if names == {name} {
      assert IsLeast(name, names);
    } else {
      LeastExists(names - {name});
      var other :| IsLeast(other, names - {name});
      LessTotal(name, other);
      var least := if Less(name, other) then name else other;
      forall n | n in names && n != least
        ensures Less(least, n)
      {
        if least == name && n != other {
          LessTransitive(name, other, n);
        }
      }
      assert IsLeast(least, names);
    }
  }

  predicate Ascending(names: seq<string>) {
    forall i, j :: 0 <= i < j < |names| ==> Less(names[i], names[j])
  }

  /** `sorted` of a set of strings: its elements in ascending order, once each. */
  function SortedSet(names: set<string>): (r: seq<string>)
    ensures Ascending(r) && |r| == |names|
    ensures forall name :: name in r <==> name in names
    decreases |names|
  {
    if names == {} then []
    else
      LeastExists(names);
      LeastIsUnique(names);
      var least :| IsLeast(least, names);
      var rest := SortedSet(names - {least});
      assert forall i :: 0 <= i < |rest| ==> rest[i] in rest;
      [least] + rest
  }

  lemma LeastIsUnique(names: set<string>)
    ensures forall a, b :: IsLeast(a, names) && IsLeast(b, names) ==> a == b
  {
    forall a, b | IsLeast(a, names) && IsLeast(b, names)
      ensures a == b
    {
      LessTotal(a, b);
    }
  }

  /** Two ascending lists of the same names are the same list. */
  lemma {:induction false} AscendingIsUnique(a: seq<string>, b: seq<string>)
    requires Ascending(a) && Ascending(b) && forall name :: name in a <==> name in b
    ensures a == b
    decreases |a|
  {
    assert a != [] ==> a[0] in b;
    assert b != [] ==> b[0] in a;
    if a != [] {
      LessTotal(a[0], b[0]);
      LessTotal(a[0], a[0]);
      assert a[0] == b[0];
      forall name
        ensures name in a[1..] <==> name in b[1..]
      {
        assert name in a <==> name == a[0] || name in a[1..];
        assert name in b <==> name == b[0] || name in b[1..];
      }
      AscendingIsUnique(a[1..], b[1..]);
    }
  }
}
