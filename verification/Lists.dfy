/** Lists without duplicates, and sets walked in an order that is not fixed. */
module Lists {

  predicate NoDuplicates<T(==)>(list: seq<T>) {
    forall i, j :: 0 <= i < j < |list| ==> list[i] != list[j]
  }

  function Elements<T>(list: seq<T>): set<T> {
    set x | x in list
  }

  /** Ranging over a map or a set meets every element once, in any order. */
  ghost predicate Walks<T(!new)>(order: seq<T>, items: set<T>) {
    NoDuplicates(order) && forall x :: x in items <==> x in order
  }

  method AnyOrder<T(==, !new)>(items: set<T>) returns (order: seq<T>)
    ensures Walks(order, items)
  {
    order := [];
    var left := items;
    while left != {}
      invariant left <= items && Walks(order, items - left)
      decreases |left|
    {
      var x :| x in left;
      left := left - {x};
      order := order + [x];
    }
    assert items - left == items;
  }

  function RemoveFirst<T(==)>(list: seq<T>, x: T): seq<T> {
    if |list| == 0 then [] else if list[0] == x then list[1..] else [list[0]] + RemoveFirst(list[1..], x)
  }

  lemma {:induction false} RemoveFirstMeans<T>(list: seq<T>, x: T)
    requires NoDuplicates(list)
    ensures NoDuplicates(RemoveFirst(list, x))
    ensures forall k :: k in RemoveFirst(list, x) <==> k in list && k != x
  {
    if |list| > 0 {
      RemoveFirstMeans(list[1..], x);
      var rest := RemoveFirst(list[1..], x);
      assert list == [list[0]] + list[1..];
      if list[0] != x {
        forall i, j | 0 <= i < j < |[list[0]] + rest| ensures ([list[0]] + rest)[i] != ([list[0]] + rest)[j] {
          if i == 0 { assert rest[j - 1] in rest; }
        }
      }
    }
  }

  lemma JoinDistinct<T>(a: seq<T>, b: seq<T>)
    requires NoDuplicates(a) && NoDuplicates(b) && forall k :: k in a ==> k !in b
    ensures NoDuplicates(a + b)
  {
    forall i, j | 0 <= i < j < |a + b| ensures (a + b)[i] != (a + b)[j] {
      if i < |a| <= j { assert a[i] in a && b[j - |a|] in b; }
    }
  }

  /** The loop that takes the first copy of an element out of a list. */
  method WithoutFirst<T(==)>(list: seq<T>, x: T) returns (rest: seq<T>)
    ensures rest == RemoveFirst(list, x)
  {
    for i := 0 to |list|
      invariant RemoveFirst(list, x) == list[..i] + RemoveFirst(list[i..], x)
    {
      assert list[i..][1..] == list[i + 1..];
      if list[i] == x {
        return list[..i] + list[i + 1..];
      }
      assert list[..i + 1] == list[..i] + [list[i]];
    }
    return list;
  }
}
