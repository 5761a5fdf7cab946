/** The queue below a cursor (mgo.v2/queue.go): a ring buffer that grows. */
module Queue {

  datatype Slot<T> = Nil | Elem(value: T)

  /** Where element `i` of the queue lies. */
  function Index(popi: nat, i: nat, cap: nat): nat {
    if popi + i < cap then popi + i else popi + i - cap
  }

  lemma Wraps(popi: nat, i: nat, cap: nat)
    requires popi < cap && i <= cap
    ensures (popi + i) % cap == Index(popi, i, cap) < cap
  {
    var x := popi + i;
    var d, m := x / cap, x % cap;
    assert x == d * cap + m && 0 <= m < cap;
    if d >= 2 {
      assert d * cap >= 2 * cap by { Times(d, cap); }
    } else if d == 1 {
      assert d * cap == cap;
    } else {
      assert d * cap == 0;
    }
  }

  lemma Times(d: nat, cap: nat)
    requires d >= 2
    ensures d * cap >= 2 * cap
  {
    assert d * cap == 2 * cap + (d - 2) * cap;
  }

  class RingQueue<T> {
    var elems: array<Slot<T>>
    var nelems: nat
    var popi: nat
    var pushi: nat

    /** What is in the queue, in order. */
    ghost var contents: seq<T>

    ghost predicate Valid()
      reads this, elems
    {
      && nelems == |contents| <= elems.Length
      && (elems.Length == 0 ==> popi == 0 && pushi == 0)
      && (elems.Length > 0 ==> popi < elems.Length && pushi == Index(popi, nelems, elems.Length) < elems.Length)
      && (forall i :: 0 <= i < nelems ==> elems[Index(popi, i, elems.Length)] == Elem(contents[i]))
    }

    constructor ()
      ensures Valid() && contents == [] && fresh(elems)
    {
      elems := new Slot<T>[0];
      nelems, popi, pushi, contents := 0, 0, 0, [];
    }

    method Len() returns (n: nat)
      requires Valid()
      ensures n == |contents|
    {
      n := nelems;
    }

    method Push(x: T)
      requires Valid()
      modifies this, elems
      ensures Valid() && contents == old(contents) + [x]
      ensures elems == old(elems) || fresh(elems)
    {
      if nelems == elems.Length {
        Expand();
      }
      elems[pushi] := Elem(x);
      nelems := nelems + 1;
      Wraps(popi, nelems, elems.Length);
      Wraps(pushi, 1, elems.Length);
      pushi := (pushi + 1) % elems.Length;
      contents := contents + [x];
    }

    method Pop() returns (x: Slot<T>)
      requires Valid()
      modifies this, elems
      ensures Valid() && elems == old(elems)
      ensures old(contents) == [] ==> x == Nil && contents == []
      ensures old(contents) != [] ==> x == Elem(old(contents)[0]) && contents == old(contents)[1..]
    {
      if nelems == 0 {
        return Nil;
      }
      x := elems[popi];
      elems[popi] := Nil;
      nelems := nelems - 1;
      Wraps(popi, 1, elems.Length);
      popi := (popi + 1) % elems.Length;
      contents := contents[1..];
    }

    /** Makes room in a full queue. What wraps around stays in front, the rest moves to the end. */
    method Expand()
      requires Valid() && nelems == elems.Length
      modifies this, elems
      ensures Valid() && contents == old(contents) && nelems == old(nelems) < elems.Length && fresh(elems)
    {
      var curcap := elems.Length;
      var newcap :=
        if curcap == 0 then 8
        else if curcap < 1024 then curcap * 2
        else curcap + curcap / 4;
      var grown := new Slot<T>[newcap](_ => Nil);
      if popi == 0 {
        forall i | 0 <= i < curcap { grown[i] := elems[i]; }
        pushi := curcap;
      } else {
        var newpopi := newcap - (curcap - popi);
        forall i | 0 <= i < curcap { grown[if i < popi then i else newpopi + (i - popi)] := elems[i]; }
        popi := newpopi;
      }
      forall i | 0 <= i < curcap { elems[i] := Nil; }
      elems := grown;
    }
  }
}
