/** Optional values, lists without repetition, and the members of a set in order. */
module Collections {

  datatype Option<T> = None | Some(value: T)

  predicate Distinct<T(==)>(s: seq<T>) {
    forall i, j :: 0 <= i < j < |s| ==> s[i] != s[j]
  }

  lemma SubsetSize<T>(a: set<T>, b: set<T>)
    requires a <= b
    ensures |a| <= |b|
  {
    assert b == a + (b - a);
  }

  /** The smallest member of a non-empty set. */
  function Least(xs: set<nat>): (a: nat)
    requires xs != {}
    ensures a in xs && forall x :: x in xs ==> a <= x
  {
    LeastExists(xs, var b :| b in xs; b);
    var a :| a in xs && forall x :: x in xs ==> a <= x;
    a
  }

  lemma LeastExists(xs: set<nat>, b: nat)
    requires b in xs
    ensures exists a :: a in xs && forall x :: x in xs ==> a <= x
    decreases b
  {
    if c :| c in xs && c < b {
      LeastExists(xs, c);
    }
  }

  /** The members of a set in key order, as a database iterates over them: each once, and no others. */
  function Listing(xs: set<nat>): (r: seq<nat>)
    ensures forall a :: a in r <==> a in xs
    ensures forall i, j :: 0 <= i < j < |r| ==> r[i] != r[j]
    decreases |xs|
  {
    if xs == {} then [] else [Least(xs)] + Listing(xs - {Least(xs)})
  }

  lemma {:induction false} ListingSorted(xs: set<nat>)
    ensures forall i, j :: 0 <= i < j < |Listing(xs)| ==> Listing(xs)[i] < Listing(xs)[j]
    decreases |xs|
  {
    if xs != {} {
      var rest := xs - {Least(xs)};
      ListingSorted(rest);
      forall j | 0 <= j < |Listing(rest)| ensures Least(xs) < Listing(rest)[j] {
        assert Listing(rest)[j] in rest;
      }
    }
  }
}
