/** Names in the order a sorted directory listing gives them. */
module Names {

  /** Character by character, a proper prefix first. */
  predicate Before(a: string, b: string) {
    if a == "" then true
    else if b == "" then false
    else if a[0] != b[0] then a[0] < b[0]
    else Before(a[1..], b[1..])
  }

  lemma {:induction false} BeforeIsTotal(a: string, b: string)
    ensures Before(a, b) || Before(b, a)
    ensures Before(a, b) && Before(b, a) ==> a == b
  {
    if a != "" && b != "" && a[0] == b[0] {
      BeforeIsTotal(a[1..], b[1..]);
      if Before(a, b) && Before(b, a) {
        assert a == [a[0]] + a[1..] && b == [b[0]] + b[1..];
      }
    }
  }

  lemma {:induction false} BeforeIsTransitive(a: string, b: string, c: string)
    requires Before(a, b) && Before(b, c)
    ensures Before(a, c)
  {
    if a != "" && b != "" && c != "" && a[0] == b[0] && b[0] == c[0] {
      BeforeIsTransitive(a[1..], b[1..], c[1..]);
    }
  }

  lemma FirstExists(names: set<string>) returns (first: string)
    requires names != {}
    ensures first in names && forall n | n in names :: Before(first, n)
  {
    var x :| x in names;
    var rest := names - {x};
    BeforeIsTotal(x, x);
    if rest == {} {
      first := x;
      assert names == {x};
    } else {
      var y := FirstExists(rest);
      BeforeIsTotal(x, y);
      first := if Before(x, y) then x else y;
      forall n | n in names ensures Before(first, n) {
        if n != x && first == x {
          BeforeIsTransitive(x, y, n);
        }
      }
    }
  }

  lemma FirstIsUnique(names: set<string>)
    ensures forall x, y | x in names && y in names && (forall n | n in names :: Before(x, n))
              && (forall n | n in names :: Before(y, n)) :: x == y
  {
    forall x, y | x in names && y in names && (forall n | n in names :: Before(x, n))
                  && (forall n | n in names :: Before(y, n))
      ensures x == y
    {
      BeforeIsTotal(x, y);
    }
  }

  /** Every name once, in order. */
  function Sorted(names: set<string>): (listing: seq<string>)
    ensures forall n :: n in listing <==> n in names
    decreases names
  {
    if names == {} then []
    else
      var first :=
        (FirstIsUnique(names);
         assert exists f | f in names :: forall n | n in names :: Before(f, n) by {
           var f := FirstExists(names);
         }
         var first :| first in names && forall n | n in names :: Before(first, n);
         first);
      [first] + Sorted(names - {first})
  }

  lemma SortedStep(names: set<string>) returns (first: string)
    requires names != {}
    ensures first in names && (forall n | n in names :: Before(first, n)) && Sorted(names) == [first] + Sorted(names - {first})
  {
    hide Before;
    first := Sorted(names)[0];
    assert Sorted(names)[1..] == Sorted(names - {first});
  }

  /** The listing is in order and has no name twice. */
  lemma {:induction false} SortedIsInOrder(names: set<string>)
    ensures forall i, j | 0 <= i < j < |Sorted(names)| :: Before(Sorted(names)[i], Sorted(names)[j]) && Sorted(names)[i] != Sorted(names)[j]
    decreases names
  {
    hide Before, Sorted;
    if names != {} {
      var first := SortedStep(names);
      var rest := Sorted(names - {first});
      SortedIsInOrder(names - {first});
      forall j | 0 <= j < |rest| ensures Before(first, rest[j]) && first != rest[j] {
        assert rest[j] in rest;
      }
    } else {
      NothingSorted();
    }
  }

  lemma NothingSorted()
    ensures Sorted({}) == []
  {
  }
}
