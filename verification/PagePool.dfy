/** What a run of page requests does to the allocation bitmap of a pool. */
module PagePool {
  import opened Bitmaps

  /** One request for `n` pages: `r` is the least free run, now taken, or -1 when there is none. */
  ghost predicate Took(b: seq<bool>, n: nat, r: int, b': seq<bool>) {
    if r == -1 then b' == b && forall i {:trigger IsRun(b, i, n, false)} :: 0 <= i && i + n <= |b| ==>
      !IsRun(b, i, n, false)
    else
      && 0 <= r && r + n <= |b| && IsRun(b, r, n, false)
      && (forall i {:trigger IsRun(b, i, n, false)} :: 0 <= i < r ==> !IsRun(b, i, n, false))
      && b' == Flipped(b, r, r + n)
  }

  /** `n` pages from `i` on, none of them taken. */
  ghost predicate FreeRun(b: seq<bool>, i: int, n: nat) {
    0 <= i && i + n <= |b| && forall x :: i <= x < i + n ==> !b[x]
  }

  /** NULL exactly when there is no free run of `n` pages; otherwise the first one, which is then taken. */
  lemma TookMeans(b: seq<bool>, n: nat, r: int, b': seq<bool>)
    requires Took(b, n, r, b') && 0 < n && -1 <= r
    ensures r == -1 <==> forall i :: !FreeRun(b, i, n)
    ensures r != -1 ==> FreeRun(b, r, n) && forall i :: i < r ==> !FreeRun(b, i, n)
    ensures |b'| == |b| && forall x :: 0 <= x < |b| ==> b'[x] == (b[x] || (r != -1 && r <= x < r + n))
  {
    forall i | FreeRun(b, i, n) ensures i >= 0 && IsRun(b, i, n, false) { }
    if r != -1 { assert FreeRun(b, r, n); }
  }

  lemma TookBounds(b: seq<bool>, n: nat, r: int, b': seq<bool>)
    requires Took(b, n, r, b') && r != -1
    ensures 0 <= r && r + n <= |b|
  {
  }

  /** States `bs` of the bitmap before and after each of the requests `ns`, with results `rs`. */
  ghost predicate PoolRun(bs: seq<seq<bool>>, ns: seq<nat>, rs: seq<int>) {
    && |bs| == |ns| + 1 == |rs| + 1
    && forall j {:trigger rs[j]} :: 0 <= j < |ns| ==> ns[j] > 0 && Took(bs[j], ns[j], rs[j], bs[j + 1])
  }

  lemma EmptyRun(bs: seq<seq<bool>>)
    requires |bs| == 1
    ensures PoolRun(bs, [], [])
  {
  }

  lemma PoolRunSnoc(bs: seq<seq<bool>>, ns: seq<nat>, rs: seq<int>, n: nat, r: int, b: seq<bool>)
    requires PoolRun(bs, ns, rs) && n > 0 && Took(bs[|ns|], n, r, b)
    ensures PoolRun(bs + [b], ns + [n], rs + [r])
  {
    forall j | 0 <= j < |ns| + 1
      ensures (ns + [n])[j] > 0 && Took((bs + [b])[j], (ns + [n])[j], (rs + [r])[j], (bs + [b])[j + 1])
    {
      if j < |ns| { assert rs[j] == (rs + [r])[j]; }
    }
  }

  /** Pages once handed out stay taken. */
  lemma {:induction false} TakenStays(bs: seq<seq<bool>>, ns: seq<nat>, rs: seq<int>, j: nat, k: nat, x: nat)
    requires PoolRun(bs, ns, rs) && j <= k < |bs| && x < |bs[j]| && bs[j][x]
    ensures |bs[k]| == |bs[j]| && bs[k][x]
    decreases k - j
  {
    if j < k {
      assert Took(bs[j], ns[j], rs[j], bs[j + 1]);
      TakenStays(bs, ns, rs, j + 1, k, x);
    }
  }

  /** In every run the ranges handed out lie in the pool. */
  lemma {:induction false} RunInPool(bs: seq<seq<bool>>, ns: seq<nat>, rs: seq<int>, j: nat)
    requires PoolRun(bs, ns, rs) && j < |rs|
    ensures |bs[j]| == |bs[j + 1]| == |bs[0]|
    ensures rs[j] != -1 ==> 0 <= rs[j] && rs[j] + ns[j] <= |bs[0]|
  {
    assert Took(bs[j], ns[j], rs[j], bs[j + 1]);
    if j > 0 { RunInPool(bs, ns, rs, j - 1); }
  }

  /** No two of them share a page. */
  lemma RunDisjoint(bs: seq<seq<bool>>, ns: seq<nat>, rs: seq<int>, j: nat, k: nat)
    requires PoolRun(bs, ns, rs) && j < k < |rs| && rs[j] != -1 && rs[k] != -1
    ensures rs[j] + ns[j] <= rs[k] || rs[k] + ns[k] <= rs[j]
  {
    assert Took(bs[j], ns[j], rs[j], bs[j + 1]) && Took(bs[k], ns[k], rs[k], bs[k + 1]);
    if rs[k] < rs[j] + ns[j] && rs[j] < rs[k] + ns[k] {
      var x := if rs[j] < rs[k] then rs[k] else rs[j];
      assert bs[j + 1][x];
      TakenStays(bs, ns, rs, j + 1, k, x);
      assert false;
    }
  }

  /** The number of pages taken. */
  ghost function Count(b: seq<bool>): nat {
    if b == [] then 0 else (if b[0] then 1 else 0) + Count(b[1..])
  }

  lemma {:induction false} CountBound(b: seq<bool>)
    ensures Count(b) <= |b|
    ensures Count(b) < |b| ==> exists i :: 0 <= i < |b| && !b[i]
  {
    if b != [] {
      CountBound(b[1..]);
      if b[0] && Count(b) < |b| {
        var i :| 0 <= i < |b[1..]| && !b[1..][i];
        assert !b[i + 1];
      }
    }
  }

  lemma {:induction false} CountFlipped(b: seq<bool>, r: nat, n: nat)
    requires IsRun(b, r, n, false)
    ensures Count(Flipped(b, r, r + n)) == Count(b) + n
  {
    var f := Flipped(b, r, r + n);
    if n > 0 || r > 0 {
      if b != [] {
        if r > 0 {
          assert f[1..] == Flipped(b[1..], r - 1, r - 1 + n);
          CountFlipped(b[1..], r - 1, n);
        } else {
          assert f[1..] == Flipped(b[1..], 0, n - 1);
          CountFlipped(b[1..], 0, n - 1);
        }
      }
    } else {
      assert f == b;
    }
  }

  /** A successful request raises the count of taken pages by exactly the pages asked for; a failed one does not. */
  lemma TookCount(b: seq<bool>, n: nat, r: int, b': seq<bool>)
    requires Took(b, n, r, b')
    ensures Count(b') == Count(b) + if r == -1 then 0 else n
  {
    if r != -1 { CountFlipped(b, r, n); }
  }

  /** A request for one page fails only when every page is taken. */
  lemma TookOne(b: seq<bool>, r: int, b': seq<bool>)
    requires Took(b, 1, r, b') && Count(b) < |b|
    ensures r != -1 && !b[r]
  {
    CountBound(b);
    var i :| 0 <= i < |b| && !b[i];
    assert IsRun(b, i, 1, false);
  }

  /** The count of taken pages after any run is the count before plus the pages of the successful requests. */
  ghost function Granted(ns: seq<nat>, rs: seq<int>): nat
    requires |ns| == |rs|
  {
    if ns == [] then 0 else (if rs[0] == -1 then 0 else ns[0]) + Granted(ns[1..], rs[1..])
  }

  lemma {:induction false} RunCount(bs: seq<seq<bool>>, ns: seq<nat>, rs: seq<int>)
    requires PoolRun(bs, ns, rs)
    ensures Count(bs[|ns|]) == Count(bs[0]) + Granted(ns, rs)
    decreases |ns|
  {
    if ns != [] {
      assert Took(bs[0], ns[0], rs[0], bs[1]);
      TookCount(bs[0], ns[0], rs[0], bs[1]);
      forall j | 0 <= j < |ns| - 1
        ensures ns[1..][j] > 0 && Took(bs[1..][j], ns[1..][j], rs[1..][j], bs[1..][j + 1])
      {
        assert rs[j + 1] == rs[1..][j];
      }
      RunCount(bs[1..], ns[1..], rs[1..]);
    }
  }

  // ----- Requests to two pools

  datatype Request = Request(n: nat, user: bool, zero: bool)

  /** The `n` pages from `r` on are taken. */
  ghost predicate Marked(b: seq<bool>, r: int, n: nat) {
    0 <= r && r + n <= |b| && forall x {:trigger b[x]} :: r <= x < r + n ==> b[x]
  }

  lemma TookMarked(b: seq<bool>, n: nat, i: int, b': seq<bool>, r: int, m: nat)
    requires Took(b, n, i, b') && Marked(b, r, m)
    ensures Marked(b', r, m) && (i != -1 && 0 < m && 0 < n ==> r + m <= i || i + n <= r)
  {
    if i != -1 && 0 < m && 0 < n && r < i + n && i < r + m {
      MarkedAt(b, r, m, if r < i then i else r);
      assert false;
    }
  }

  lemma MarkedAt(b: seq<bool>, r: int, m: nat, x: int)
    requires Marked(b, r, m) && r <= x < r + m
    ensures b[x]
  {
  }

  /** The pages granted from one of the pools. */
  ghost function GrantedTo(reqs: seq<Request>, rs: seq<int>, user: bool): nat
    requires |reqs| == |rs|
  {
    if reqs == [] then 0
    else
      var k := |reqs| - 1;
      GrantedTo(reqs[..k], rs[..k], user) + if reqs[k].user == user && rs[k] != -1 then reqs[k].n else 0
  }

  ghost predicate EntryAt(kb: seq<bool>, ub: seq<bool>, reqs: seq<Request>, rs: seq<int>, j: nat)
    requires j < |reqs| == |rs|
  {
    reqs[j].n > 0 && -1 <= rs[j] && (rs[j] != -1 ==> Marked(if reqs[j].user then ub else kb, rs[j], reqs[j].n))
  }

  ghost predicate ApartAt(reqs: seq<Request>, rs: seq<int>, j: nat, k: nat)
    requires j < |reqs| == |rs| && k < |reqs|
  {
    reqs[j].user == reqs[k].user && rs[j] != -1 && rs[k] != -1 ==>
      rs[j] + reqs[j].n <= rs[k] || rs[k] + reqs[k].n <= rs[j]
  }

  /** Who holds what, when the pools had `k0` and `u0` pages taken at the start and have bits `kb` and `ub` now. */
  ghost predicate Ledger(k0: nat, u0: nat, kb: seq<bool>, ub: seq<bool>, reqs: seq<Request>, rs: seq<int>) {
    && |reqs| == |rs|
    && Count(kb) == k0 + GrantedTo(reqs, rs, false) && Count(ub) == u0 + GrantedTo(reqs, rs, true)
    && (forall j {:trigger EntryAt(kb, ub, reqs, rs, j)} :: 0 <= j < |reqs| ==> EntryAt(kb, ub, reqs, rs, j))
    && (forall j, k {:trigger ApartAt(reqs, rs, j, k)} :: 0 <= j < k < |reqs| ==> ApartAt(reqs, rs, j, k))
  }

  lemma LedgerStart(kb: seq<bool>, ub: seq<bool>)
    ensures Ledger(Count(kb), Count(ub), kb, ub, [], [])
  {
  }

  lemma LedgerCounts(k0: nat, u0: nat, kb: seq<bool>, ub: seq<bool>, reqs: seq<Request>, rs: seq<int>)
    requires Ledger(k0, u0, kb, ub, reqs, rs)
    ensures |reqs| == |rs|
    ensures Count(kb) == k0 + GrantedTo(reqs, rs, false) && Count(ub) == u0 + GrantedTo(reqs, rs, true)
  {
  }

  lemma LedgerAt(k0: nat, u0: nat, kb: seq<bool>, ub: seq<bool>, reqs: seq<Request>, rs: seq<int>, j: nat)
    requires Ledger(k0, u0, kb, ub, reqs, rs) && j < |reqs|
    ensures |reqs| == |rs| && -1 <= rs[j] && (rs[j] != -1 ==> rs[j] + reqs[j].n <= |if reqs[j].user then ub else kb|)
  {
    assert EntryAt(kb, ub, reqs, rs, j);
  }

  lemma LedgerApart(k0: nat, u0: nat, kb: seq<bool>, ub: seq<bool>, reqs: seq<Request>, rs: seq<int>, j: nat, k: nat)
    requires Ledger(k0, u0, kb, ub, reqs, rs) && j < k < |reqs|
    ensures |reqs| == |rs| && ApartAt(reqs, rs, j, k)
  {
  }

  /** One more request, served by the pool it asks for. */
  lemma LedgerStep(k0: nat, u0: nat, kb: seq<bool>, ub: seq<bool>, reqs: seq<Request>, rs: seq<int>, q: Request, i: int,
                   kb': seq<bool>, ub': seq<bool>)
    requires Ledger(k0, u0, kb, ub, reqs, rs) && q.n > 0 && -1 <= i
    requires if q.user then Took(ub, q.n, i, ub') && kb' == kb else Took(kb, q.n, i, kb') && ub' == ub
    ensures Ledger(k0, u0, kb', ub', reqs + [q], rs + [i])
  {
    hide Took, Count, Marked;
    var reqs', rs', n := reqs + [q], rs + [i], |reqs|;
    assert reqs'[..n] == reqs && rs'[..n] == rs;
    if q.user { TookCount(ub, q.n, i, ub'); } else { TookCount(kb, q.n, i, kb'); }
    forall j | 0 <= j < n ensures EntryAt(kb', ub', reqs', rs', j) && ApartAt(reqs', rs', j, n) {
      assert EntryAt(kb, ub, reqs, rs, j);
      if reqs[j].user == q.user && rs[j] != -1 {
        if q.user {
          TookMarked(ub, q.n, i, ub', rs[j], reqs[j].n);
        } else {
          TookMarked(kb, q.n, i, kb', rs[j], reqs[j].n);
        }
      }
    }
    if i != -1 { TookMarks(if q.user then ub else kb, q.n, i, if q.user then ub' else kb'); }
    assert EntryAt(kb', ub', reqs', rs', n);
    forall j, k | 0 <= j < k < n + 1 ensures ApartAt(reqs', rs', j, k) {
      if k < n { assert ApartAt(reqs, rs, j, k); }
    }
  }

  lemma TookMarks(b: seq<bool>, n: nat, i: int, b': seq<bool>)
    requires Took(b, n, i, b') && i != -1
    ensures Marked(b', i, n)
  {
  }
}
