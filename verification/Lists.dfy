/** Small shared vocabulary: optional values and lists without repetition, as the kernel's linked lists are. */
module Lists {
  datatype Option<T> = None | Some(value: T)

  function Min(x: nat, y: nat): (m: nat)
    ensures m <= x && m <= y && (m == x || m == y)
  {
    if x < y then x else y
  }

  predicate NoDup<T(==)>(q: seq<T>) { q == [] || (q[0] !in q[1..] && NoDup(q[1..])) }

  /** list_del: the list without x, which it holds at most once. */
  function Remove<T(==)>(q: seq<T>, x: T): seq<T>
  {
    if q == [] then [] else if q[0] == x then q[1..] else [q[0]] + Remove(q[1..], x)
  }

  lemma {:induction false} Removed<T>(q: seq<T>, x: T)
    requires NoDup(q)
    ensures NoDup(Remove(q, x)) && (forall y :: y in Remove(q, x) <==> y in q && y != x)
    ensures |Remove(q, x)| == |q| - if x in q then 1 else 0
  {
    if q != [] {
      Removed(q[1..], x);
      assert q == [q[0]] + q[1..];
      if q[0] != x { assert ([q[0]] + Remove(q[1..], x))[1..] == Remove(q[1..], x); }
    }
  }

  /** list_add_tail */
  lemma {:induction false} Appended<T>(q: seq<T>, x: T)
    requires NoDup(q) && x !in q
    ensures NoDup(q + [x])
  {
    if q != [] {
      Appended(q[1..], x);
      assert (q + [x])[1..] == q[1..] + [x];
    } else {
      assert [x][1..] == [];
    }
  }

  /** list_add */
  lemma Pushed<T>(q: seq<T>, x: T)
    requires NoDup(q) && x !in q
    ensures NoDup([x] + q)
  {
    assert ([x] + q)[1..] == q;
  }
}
