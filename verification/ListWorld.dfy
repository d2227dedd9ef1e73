/** Any number of lists over one stock of elements: every element is on the one list its `head` field names. */
module ListWorld {
  import opened Lists

  ghost predicate HeadOk(h: Head, stock: set<Elem>)
    reads h, stock
  {
    (forall e :: e in h.elems ==> e in stock) && h.Valid()
  }

  /** Each list is sound, and an element's `head` names the list it is on, null if it is on none. */
  ghost predicate World(heads: set<Head>, stock: set<Elem>)
    reads heads, stock
  {
    && (forall h :: h in heads ==> HeadOk(h, stock))
    && (forall e :: e in stock && e.head != null ==> e.head in heads && e in e.head.elems)
  }

  lemma Member(h: Head, e: Elem)
    requires h.Valid() && e in h.elems
    ensures e.head == h
  {
    var i :| 0 <= i < |h.elems| && h.elems[i] == e;
    assert h.LinkedAt(i);
  }

  /** In such a world membership and the `head` field agree, so lists share no element. */
  lemma Owners(heads: set<Head>, stock: set<Elem>, h: Head, e: Elem)
    requires World(heads, stock) && h in heads && e in stock
    ensures e in h.elems <==> e.head == h
    ensures e.head == null <==> forall g :: g in heads ==> e !in g.elems
  {
    forall g | g in heads && e in g.elems ensures e.head == g {
      assert HeadOk(g, stock);
      Member(g, e);
    }
  }

  twostate predicate Same(e: Elem)
    reads e
  {
    e.head == old(e.head) && e.next == old(e.next) && e.prev == old(e.prev)
  }

  // ----- Operations

  datatype Op =
    | DoPush(e: Elem)
    | DoPushFirst(e: Elem)
    | DoInsert(e: Elem, at: nat)
    | DoPop
    | DoPopFirst
    | DoRemove(at: nat)

  predicate Adds(op: Op) { op.DoPush? || op.DoPushFirst? || op.DoInsert? }

  /**
   * The operation's assertions hold. An element that goes onto a non-empty list has to be detached;
   * an empty list takes any element.
   */
  predicate Legal(h: Head, op: Op)
    reads h, if Adds(op) then {op.e} else {}
  {
    if Adds(op) then (op.e.head == null || h.len == 0) && (op.DoInsert? ==> op.at <= h.len)
    else if op.DoRemove? then op.at < h.len
    else h.len > 0
  }

  /** The position that the operation names exists. */
  predicate Fits(s: seq<Elem>, op: Op) {
    (op.DoInsert? ==> op.at <= |s|) && (op.DoRemove? ==> op.at < |s|) && (op.DoPop? || op.DoPopFirst? ==> s != [])
  }

  /** The sequence operation that each list operation refines. */
  ghost function Applied(s: seq<Elem>, op: Op): seq<Elem>
    requires Fits(s, op)
  {
    match op
    case DoPush(e) => s + [e]
    case DoPushFirst(e) => [e] + s
    case DoInsert(e, at) => Inserted(s, at, e)
    case DoPop => s[..|s| - 1]
    case DoPopFirst => s[1..]
    case DoRemove(at) => Removed(s, at)
  }

  /** Which element is where afterwards. */
  lemma AppliedAt(s: seq<Elem>, op: Op, i: nat)
    requires Fits(s, op) && i < |Applied(s, op)|
    ensures |Applied(s, op)| == if Adds(op) then |s| + 1 else |s| - 1
    ensures op.DoPush? ==> Applied(s, op)[i] == if i < |s| then s[i] else op.e
    ensures op.DoPushFirst? ==> Applied(s, op)[i] == if i == 0 then op.e else s[i - 1]
    ensures op.DoInsert? ==> Applied(s, op)[i] == if i < op.at then s[i] else if i == op.at then op.e else s[i - 1]
    ensures op.DoPop? ==> Applied(s, op)[i] == s[i]
    ensures op.DoPopFirst? ==> Applied(s, op)[i] == s[i + 1]
    ensures op.DoRemove? ==> Applied(s, op)[i] == if i < op.at then s[i] else s[i + 1]
  {
  }

  /** The elements of the changed list: one has come, or one has gone and the others have stayed. */
  lemma AppliedMembers(s: seq<Elem>, op: Op, x: Elem)
    requires Fits(s, op)
    requires Distinct(s)
    ensures Adds(op) ==> (x in Applied(s, op) <==> x in s || x == op.e)
    ensures !Adds(op) ==> (x in Applied(s, op) <==> x in s && x != s[Leaver(s, op)])
  {
    if !Adds(op) {
      RemovedDistinct(s, Leaver(s, op));
      assert Applied(s, op) == Removed(s, Leaver(s, op));
    } else if op.DoInsert? {
      assert s == s[..op.at] + s[op.at..];
    }
  }

  ghost function Leaver(s: seq<Elem>, op: Op): (i: nat)
    requires !Adds(op) && Fits(s, op)
    ensures i < |s|
  {
    if op.DoPop? then |s| - 1 else if op.DoPopFirst? then 0 else op.at
  }

  method Do(h: Head, op: Op)
    requires h.Valid() && Legal(h, op)
    modifies h, h.elems, if Adds(op) then {op.e} else {}
    ensures h.Valid() && h.elems == Applied(old(h.elems), op)
    ensures !Adds(op) ==> Detached(old(h.elems[Leaver(h.elems, op)]))
  {
    match op {
      case DoPush(e) => h.Push(e);
      case DoPushFirst(e) => h.PushFirst(e);
      case DoInsert(e, at) => h.Insert(e, at);
      case DoPop => h.Pop();
      case DoPopFirst => h.PopFirst();
      case DoRemove(at) => h.Remove(at);
    }
  }

  /**
   * One operation on one of the lists is one sequence operation on that list and leaves the other lists alone,
   * provided an element that is added was detached: an empty list steals its element from the list it was on.
   */
  method Perform(heads: set<Head>, stock: set<Elem>, h: Head, op: Op)
    requires World(heads, stock) && h in heads && Legal(h, op)
    requires Adds(op) ==> op.e in stock
    modifies heads, stock
    ensures h.Valid() && h.elems == Applied(old(h.elems), op)
    ensures forall g :: g in heads && g != h ==> g.elems == old(g.elems)
    ensures World(heads, stock) <==> (Adds(op) ==> old(op.e.head) == null)
  {
    hide Distinct;
    assert HeadOk(h, stock);
    ghost var s := h.elems;
    forall e | e in stock ensures e in s <==> e.head == h { Owners(heads, stock, h, e); }
    Do(h, op);
    hide Applied, Distinct;
    forall e | e in stock
      ensures Adds(op) ==> (e in h.elems <==> e in s || e == op.e)
      ensures !Adds(op) ==> (e in h.elems <==> e in s && e != s[Leaver(s, op)])
    { AppliedMembers(s, op, e); }
    if Adds(op) && old(op.e.head) != null {
      ghost var g := old(op.e.head);
      Member(h, op.e);
      if HeadOk(g, stock) { Member(g, op.e); }
    } else {
      forall g | g in heads && g != h ensures HeadOk(g, stock) {
        assert old(HeadOk(g, stock));
        forall i | 0 <= i < |g.elems| ensures g.LinkedAt(i) {
          assert old(g.LinkedAt(i)) && Same(g.elems[i]);
        }
      }
      forall e | e in stock && e.head != null ensures e.head in heads && e in e.head.elems {
        if e in h.elems {
          Member(h, e);
        } else if e !in s {
          assert Same(e) && old(e.head in heads && e in e.head.elems);
        }
      }
    }
  }

  /**
    One element pushed onto two lists: the second, being empty, takes it without asking, and both now count it as
    theirs.
   */
  method StolenExample() returns (g: Head, h: Head, e: Elem)
    ensures g != h && h.Valid() && g.elems == [e] && h.elems == [e] && e.head == h && !g.Valid()
  {
    g := new Head();
    h := new Head();
    e := new Elem();
    Perform({g, h}, {e}, g, DoPush(e));
    Member(g, e);
    Perform({g, h}, {e}, h, DoPush(e));
    Member(h, e);
    if g.Valid() { Member(g, e); }
  }

  // ----- Runs

  /** What the lists hold, without the pointers. */
  ghost function Contents(heads: set<Head>): map<Head, seq<Elem>>
    reads heads
  {
    map h | h in heads :: h.elems
  }

  ghost predicate Nowhere(m: map<Head, seq<Elem>>, e: Elem) {
    forall g :: g in m ==> e !in m[g]
  }

  /** An element may be added if no list has it. */
  ghost predicate Allowed(m: map<Head, seq<Elem>>, h: Head, op: Op)
    requires h in m
  {
    (Adds(op) ==> Nowhere(m, op.e)) && Fits(m[h], op)
  }

  /** A run on plain sequences, up to the first operation that is not allowed. */
  ghost function RunOf(m: map<Head, seq<Elem>>, script: seq<(Head, Op)>): map<Head, seq<Elem>>
    requires forall k :: 0 <= k < |script| ==> script[k].0 in m
  {
    if script == [] || !Allowed(m, script[0].0, script[0].1) then m
    else RunOf(m[script[0].0 := Applied(m[script[0].0], script[0].1)], script[1..])
  }

  /** The `head` field answers, in one read, whether any list has the element. */
  lemma NowhereIs(heads: set<Head>, stock: set<Elem>, e: Elem)
    requires World(heads, stock) && e in stock
    ensures Nowhere(Contents(heads), e) <==> e.head == null
  {
    if e.head != null {
      assert e in Contents(heads)[e.head];
    } else {
      forall g | g in heads ensures e !in Contents(heads)[g] { Owners(heads, stock, g, e); }
    }
  }

  lemma AllowedIs(heads: set<Head>, stock: set<Elem>, h: Head, op: Op)
    requires World(heads, stock) && h in heads && (Adds(op) ==> op.e in stock)
    ensures Allowed(Contents(heads), h, op) <==> Legal(h, op) && (Adds(op) ==> op.e.head == null)
    ensures Allowed(Contents(heads), h, op) ==> Fits(h.elems, op)
  {
    assert HeadOk(h, stock);
    hide Nowhere, Distinct;
    if Adds(op) { NowhereIs(heads, stock, op.e); }
  }

  /** Perform an allowed operation; `ok` is false if it is not allowed. */
  method Try(heads: set<Head>, stock: set<Elem>, h: Head, op: Op) returns (ok: bool)
    requires World(heads, stock) && h in heads
    requires Adds(op) ==> op.e in stock
    modifies heads, stock
    ensures World(heads, stock)
    ensures ok <==> old(Allowed(Contents(heads), h, op))
    ensures Contents(heads) == if ok then old(Contents(heads))[h := Applied(old(h.elems), op)] else old(Contents(heads))
  {
    hide Allowed, Legal, Applied, Distinct, World;
    AllowedIs(heads, stock, h, op);
    ok := Legal(h, op) && (Adds(op) ==> op.e.head == null);
    if ok {
      Perform(heads, stock, h, op);
    }
  }

  /** Any run over any number of lists does to them what it does to plain sequences. */
  method Replay(heads: set<Head>, stock: set<Elem>, script: seq<(Head, Op)>)
    requires World(heads, stock)
    requires forall k :: 0 <= k < |script| ==> script[k].0 in heads && (Adds(script[k].1) ==> script[k].1.e in stock)
    modifies heads, stock
    ensures World(heads, stock)
    ensures Contents(heads) == RunOf(old(Contents(heads)), script)
  {
    hide Nowhere, Applied, World;
    var i := 0;
    while i < |script|
      invariant i <= |script| && World(heads, stock)
      invariant RunOf(Contents(heads), script[i..]) == RunOf(old(Contents(heads)), script)
    {
      var ok := Try(heads, stock, script[i].0, script[i].1);
      if !ok {
        return;
      }
      assert script[i..][1..] == script[i + 1..];
      i := i + 1;
    }
  }
}
