/** The circular, intrusive, doubly linked list. */
module Lists {

  class Elem {
    var head: Head?
    var prev: Elem?
    var next: Elem?

    constructor ()
      ensures head == null && prev == null && next == null
    {
      head, prev, next := null, null, null;
    }
  }

  /** The position after `i`, and before it, on a ring of `n`. */
  ghost function After(i: nat, n: nat): (j: nat)
    ensures i < n ==> j < n
  {
    if i + 1 == n then 0 else i + 1
  }

  ghost function Before(i: nat, n: nat): (j: int)
    ensures i < n ==> 0 <= j < n
  {
    if i == 0 then n - 1 else i - 1
  }

  ghost predicate Distinct(s: seq<Elem>) {
    forall i, j :: 0 <= i < j < |s| ==> s[i] != s[j]
  }

  ghost function Inserted(s: seq<Elem>, i: nat, e: Elem): (r: seq<Elem>)
    requires i <= |s|
    ensures |r| == |s| + 1
  {
    s[..i] + [e] + s[i..]
  }

  ghost function Removed(s: seq<Elem>, i: nat): (r: seq<Elem>)
    requires i < |s|
    ensures |r| == |s| - 1
  {
    s[..i] + s[i + 1..]
  }

  lemma RemovedDistinct(s: seq<Elem>, k: nat)
    requires Distinct(s) && k < |s|
    ensures Distinct(Removed(s, k)) && forall x :: x in Removed(s, k) <==> x in s && x != s[k]
    ensures forall i :: 0 <= i < |s| - 1 ==> Removed(s, k)[i] == s[if i < k then i else i + 1]
  {
    assert s == s[..k] + [s[k]] + s[k + 1..];
  }

  lemma InsertedDistinct(s: seq<Elem>, k: nat, e: Elem)
    requires Distinct(s) && k <= |s| && e !in s
    ensures Distinct(Inserted(s, k, e))
    ensures forall i :: 0 <= i <= |s| ==> Inserted(s, k, e)[i] == if i == k then e else s[if i < k then i else i - 1]
  {
  }

  /** The neighbours on the ring of the element at `i` after an insertion before `k`. */
  lemma InsertedNext(s: seq<Elem>, k: nat, e: Elem, i: nat)
    requires 0 < k <= |s| && i <= |s|
    ensures var t, j := Inserted(s, k, e), if i < k then i else i - 1; var next := if k == |s| then 0 else k;
      if i == k then t[i] == e && t[After(i, |t|)] == s[next] && t[Before(i, |t|)] == s[k - 1]
      else
        && t[i] == s[j] && t[After(i, |t|)] == (if j == k - 1 then e else s[After(j, |s|)])
        && t[Before(i, |t|)] == (if j == next then e else s[Before(j, |s|)])
  {
  }

  /** The neighbours on the ring of the element at `i` after the removal of the one at `k`. */
  lemma RemovedNext(s: seq<Elem>, k: nat, i: nat)
    requires k < |s| && i < |s| - 1
    ensures var t, j := Removed(s, k), if i < k then i else i + 1; var prev, next := Before(k, |s|), After(k, |s|);
      && t[i] == s[j] && t[After(i, |t|)] == s[if j == prev then next else After(j, |s|)]
      && t[Before(i, |t|)] == s[if j == next then prev else Before(j, |s|)]
  {
  }

  lemma DistinctMeans(s: seq<Elem>)
    requires Distinct(s)
    ensures forall i, j {:trigger s[i], s[j]} :: 0 <= i < |s| && 0 <= j < |s| && s[i] == s[j] ==> i == j
  {
  }

  lemma TurnDistinct(s: seq<Elem>, e: Elem)
    requires Distinct(s + [e])
    ensures Distinct([e] + s)
  {
    var t := s + [e];
    forall i, j | 0 <= i < j < |t| ensures ([e] + s)[i] != ([e] + s)[j] {
      assert ([e] + s)[j] == t[j - 1] && ([e] + s)[i] == t[if i == 0 then |s| else i - 1];
    }
  }

  class Head {
    var first: Elem?
    var len: nat
    ghost var elems: seq<Elem>

    ghost predicate LinkedAt(i: nat)
      requires i < |elems|
      reads this`elems, elems
    {
      && elems[i].head == this
      && elems[i].next == elems[After(i, |elems|)]
      && elems[i].prev == elems[Before(i, |elems|)]
    }

    /** The elements link to each other in a ring and to this head. */
    ghost predicate Ring()
      reads this`len, this`elems, elems
    {
      && len == |elems| && Distinct(elems)
      && (forall i {:trigger LinkedAt(i)} :: 0 <= i < |elems| ==> LinkedAt(i))
    }

    ghost predicate Valid()
      reads this, elems
    {
      Ring() && first == if elems == [] then null else elems[0]
    }

    /** `list_init` */
    constructor ()
      ensures Valid() && elems == []
    {
      first, len, elems := null, 0, [];
    }

    lemma NotMember(e: Elem)
      requires Ring() && e.head != this
      ensures e !in elems
    {
      forall i | 0 <= i < |elems| ensures elems[i] != e { assert LinkedAt(i); }
    }

    /** `_list_insert`: link a detached element in before position `k`. */
    method InsertBetween(prev: Elem, next: Elem, e: Elem, ghost k: nat)
      requires Ring() && 0 < k <= |elems| && prev == elems[k - 1] && next == elems[if k == |elems| then 0 else k]
      requires e.head == null
      modifies this`len, this`elems, prev, next, e
      ensures Ring() && elems == Inserted(old(elems), k, e)
    {
      ghost var s := elems;
      hide Inserted, Distinct, After, Before;
      NotMember(e);
      InsertedDistinct(s, k, e);
      DistinctMeans(s);
      prev.next := e;
      next.prev := e;
      e.prev := prev;
      e.next := next;
      e.head := this;
      len := len + 1;
      elems := Inserted(elems, k, e);
      forall i | 0 <= i < |elems| ensures LinkedAt(i) {
        InsertedNext(s, k, e, i);
        assert i != k ==> old(LinkedAt(if i < k then i else i - 1));
      }
    }

    /** `_list_remove`: unlink the element at position `k` and detach it. */
    method Unlink(e: Elem, ghost k: nat)
      requires Ring() && k < |elems| && e == elems[k]
      modifies this`len, this`elems, elems
      ensures Ring() && elems == Removed(old(elems), k)
      ensures e.head == null && e.prev == null && e.next == null
      ensures forall x :: x in old(elems) && x != e ==> x in elems
    {
      hide Removed, Distinct, After, Before;
      ghost var s := elems;
      RemovedDistinct(s, k);
      DistinctMeans(s);
      assert LinkedAt(k);
      var prev, next := e.prev, e.next;
      prev.next := next;
      next.prev := prev;
      e.next := null;
      e.prev := null;
      e.head := null;
      len := len - 1;
      elems := Removed(elems, k);
      forall i | 0 <= i < |elems| ensures LinkedAt(i) {
        RemovedNext(s, k, i);
        assert old(LinkedAt(if i < k then i else i + 1));
      }
    }

    /** `list_get`, from the nearer end. */
    method Get(index: nat) returns (e: Elem)
      requires Valid() && index < len
      ensures e == elems[index]
    {
      var backwards := index > len / 2;
      var ctr := if backwards then len else 0;
      assert LinkedAt(0);
      e := first;
      while ctr != index
        invariant if backwards then index <= ctr <= len else ctr <= index
        invariant e == elems[if ctr == len then 0 else ctr]
        decreases if backwards then ctr - index else index - ctr
      {
        assert LinkedAt(if ctr == len then 0 else ctr);
        if backwards {
          ctr := ctr - 1;
          e := e.prev;
        } else {
          ctr := ctr + 1;
          e := e.next;
        }
      }
    }

    /** `list_push`. An empty list takes the element without asking whether it is on another list. */
    method Push(e: Elem)
      requires Valid() && (e.head == null || len == 0)
      modifies this, elems, e
      ensures Valid() && elems == old(elems) + [e] && e.head == this
    {
      if len == 0 {
        first := e;
        e.next := e;
        e.prev := e;
        e.head := this;
        len := len + 1;
        elems := [e];
        assert LinkedAt(0);
        return;
      }
      assert LinkedAt(0);
      InsertBetween(first.prev, first, e, |elems|);
      assert LinkedAt(|elems| - 1);
    }

    /** `list_push_first`: append, then turn the ring back by one. */
    method PushFirst(e: Elem)
      requires Valid() && (e.head == null || len == 0)
      modifies this, elems, e
      ensures Valid() && elems == [e] + old(elems) && e.head == this
    {
      ghost var s := elems;
      Push(e);
      assert LinkedAt(0);
      first := first.prev;
      Turn(s, e);
    }

    /** A ring may be read from any of its elements. */
    ghost method Turn(s: seq<Elem>, e: Elem)
      requires Ring() && elems == s + [e]
      modifies this`elems
      ensures Ring() && elems == [e] + s
    {
      TurnDistinct(s, e);
      elems := [e] + s;
      forall i | 0 <= i < |elems| ensures LinkedAt(i) {
        assert elems[i] == (s + [e])[Before(i, |elems|)];
        assert old(LinkedAt(Before(i, |elems|)));
      }
    }

    /** `list_insert` */
    method Insert(e: Elem, index: nat)
      requires Valid() && (e.head == null || len == 0) && index <= len
      modifies this, elems, e
      ensures Valid() && elems == Inserted(old(elems), index, e) && e.head == this
    {
      if index == 0 {
        PushFirst(e);
      } else if index == len {
        Push(e);
      } else {
        var next := Get(index);
        assert LinkedAt(index);
        InsertBetween(next.prev, next, e, index);
        assert LinkedAt(index);
      }
    }

    /** `list_pop` */
    method Pop()
      requires Valid() && len > 0
      modifies this, elems
      ensures Valid() && elems == old(elems)[..|old(elems)| - 1] && Detached(old(elems)[|old(elems)| - 1])
    {
      assert LinkedAt(0);
      Unlink(first.prev, |elems| - 1);
      if len == 0 {
        first := null;
      }
    }

    /** `list_pop_first` */
    method PopFirst()
      requires Valid() && len > 0
      modifies this, elems
      ensures Valid() && elems == old(elems)[1..] && Detached(old(elems)[0])
    {
      assert LinkedAt(0);
      var newFirst := first.next;
      Unlink(first, 0);
      first := if len == 0 then null else newFirst;
    }

    /** `list_remove` */
    method Remove(index: nat)
      requires Valid() && index < len
      modifies this, elems
      ensures Valid() && elems == Removed(old(elems), index) && Detached(old(elems)[index])
    {
      if index == 0 {
        PopFirst();
      } else if index == len - 1 {
        Pop();
      } else {
        var e := Get(index);
        Unlink(e, index);
      }
    }
  }

  ghost predicate Detached(e: Elem)
    reads e
  {
    e.head == null && e.prev == null && e.next == null
  }
}
