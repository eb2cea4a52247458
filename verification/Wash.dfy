/**
  Washing the pool (wash in txpool/tx_pool.go): what is stale goes, and if there
  are too many transactions left from other nodes, the least promising go too.
 */
module Washing {
  import opened Hex
  import opened Rlp
  import opened Blocks
  import opened TxPools

  /** The judgements a wash rests on; None is an error. */
  datatype Judge = Judge(
    blocked: Address -> bool, now: int, maxLifetime: int,
    executable: TxObject -> Option<bool>, price: TxObject -> Option<nat>)

  datatype Class = Gone | Waiting | Executable(price: nat)

  function Classify(o: TxObject, judge: Judge): Class {
    if judge.blocked(o.origin) || (!o.local && judge.now > o.timeAdded + judge.maxLifetime) then Gone
    else
      match judge.executable(o)
      case None => Gone
      case Some(able) =>
        if !able then Waiting else match judge.price(o) case None => Gone case Some(p) => Executable(p)
  }

  /** Not blocked, within its lifetime unless it was submitted here, and judged without an error. */
  predicate MayStay(o: TxObject, judge: Judge) {
    && !judge.blocked(o.origin) && (o.local || judge.now <= o.timeAdded + judge.maxLifetime)
    && judge.executable(o).Some? && (judge.executable(o).value ==> judge.price(o).Some?)
  }

  /** Executable now, at this price. */
  predicate Offers(o: TxObject, judge: Judge, price: nat) {
    MayStay(o, judge) && judge.executable(o) == Some(true) && judge.price(o) == Some(price)
  }

  lemma ClassifyIs(o: TxObject, judge: Judge)
    ensures Classify(o, judge).Gone? <==> !MayStay(o, judge)
    ensures forall p :: Classify(o, judge) == Executable(p) <==> Offers(o, judge, p)
  {
  }

  // ----- lists -----

  function Select(os: seq<TxObject>, p: TxObject -> bool): seq<TxObject> {
    if os == [] then []
    else Select(os[..|os| - 1], p) + if p(os[|os| - 1]) then [os[|os| - 1]] else []
  }

  lemma SelectSnoc(os: seq<TxObject>, o: TxObject, p: TxObject -> bool)
    ensures Select(os + [o], p) == Select(os, p) + if p(o) then [o] else []
  {
    assert (os + [o])[..|os|] == os;
  }

  lemma {:induction false} SelectHas(os: seq<TxObject>, p: TxObject -> bool)
    ensures forall o :: o in Select(os, p) <==> o in os && p(o)
    ensures Distinct(os) ==> Distinct(Select(os, p))
    decreases |os|
  {
    if os != [] {
      var front, last := os[..|os| - 1], os[|os| - 1];
      SelectHas(front, p);
      assert os == front + [last];
      if Distinct(os) {
        forall o | o in Select(front, p) ensures o.hash != last.hash {
          var i :| 0 <= i < |front| && front[i] == o;
          assert os[i] == o;
        }
      }
    }
  }

  function Hashes(os: seq<TxObject>): set<Hash> {
    set o | o in os :: o.hash
  }

  lemma HashesSnoc(os: seq<TxObject>, o: TxObject)
    ensures Hashes(os + [o]) == Hashes(os) + {o.hash}
  {
    assert forall x :: x in os + [o] <==> x in os || x == o;
  }

  lemma {:induction false} HashesSize(os: seq<TxObject>)
    requires Distinct(os)
    ensures |Hashes(os)| == |os|
    decreases |os|
  {
    if os != [] {
      var front, last := os[..|os| - 1], os[|os| - 1];
      HashesSize(front);
      assert os == front + [last];
      forall o | o in front ensures o.hash != last.hash {
        var i :| 0 <= i < |front| && front[i] == o;
        assert os[i] == o;
      }
      HashesSnoc(front, last);
    }
  }

  /** In a list of distinct transactions, a hash determines the transaction. */
  lemma OneOf(os: seq<TxObject>, a: TxObject, b: TxObject)
    requires Distinct(os) && a in os && b in os && a.hash == b.hash
    ensures a == b
  {
    var i :| 0 <= i < |os| && os[i] == a;
    var j :| 0 <= j < |os| && os[j] == b;
  }

  lemma DifferentHashes(os: seq<TxObject>, a: TxObject, b: TxObject)
    requires Distinct(os) && a in os && b in os && a != b
    ensures a.hash != b.hash
  {
    var i :| 0 <= i < |os| && os[i] == a;
    var j :| 0 <= j < |os| && os[j] == b;
  }

  // ----- sorting -----

  ghost predicate Descending(os: seq<TxObject>, price: TxObject -> nat) {
    forall i, j :: 0 <= i < j < |os| ==> price(os[i]) >= price(os[j])
  }

  /** Insertion sort from high to low. */
  method SortByPrice(os: seq<TxObject>, price: TxObject -> nat) returns (r: seq<TxObject>)
    ensures multiset(r) == multiset(os) && Descending(r, price)
  {
    r := [];
    var i := 0;
    while i < |os|
      invariant 0 <= i <= |os| && multiset(r) == multiset(os[..i]) && Descending(r, price)
    {
      assert os[..i + 1] == os[..i] + [os[i]];
      r := InsertByPrice(r, os[i], price);
      i := i + 1;
    }
    assert os[..|os|] == os;
  }

  method InsertByPrice(os: seq<TxObject>, o: TxObject, price: TxObject -> nat) returns (r: seq<TxObject>)
    requires Descending(os, price)
    ensures multiset(r) == multiset(os) + multiset{o} && Descending(r, price)
  {
    var k := |os|;
    while k > 0 && price(os[k - 1]) < price(o)
      invariant 0 <= k <= |os| && forall i :: k <= i < |os| ==> price(os[i]) < price(o)
    {
      k := k - 1;
    }
    InsertedAt(os, k, o, price);
    r := os[..k] + [o] + os[k..];
  }

  function Slot(os: seq<TxObject>, k: nat, o: TxObject, i: nat): TxObject
    requires k <= |os| && i <= |os|
  {
    if i < k then os[i] else if i == k then o else os[i - 1]
  }

  lemma {:induction false} InsertedAt(os: seq<TxObject>, k: nat, o: TxObject, price: TxObject -> nat)
    requires Descending(os, price) && k <= |os|
    requires (k > 0 ==> price(os[k - 1]) >= price(o)) && forall i :: k <= i < |os| ==> price(os[i]) < price(o)
    ensures var r := os[..k] + [o] + os[k..]; multiset(r) == multiset(os) + multiset{o} && Descending(r, price)
  {
    var r := os[..k] + [o] + os[k..];
    InsertedContents(os, k, o);
    Slots(os, k, o, r);
    InsertedDescending(os, k, o, price, r);
  }

  lemma InsertedContents(os: seq<TxObject>, k: nat, o: TxObject)
    requires k <= |os|
    ensures multiset(os[..k] + [o] + os[k..]) == multiset(os) + multiset{o}
  {
    assert os == os[..k] + os[k..];
  }

  lemma Slots(os: seq<TxObject>, k: nat, o: TxObject, r: seq<TxObject>)
    requires k <= |os| && r == os[..k] + [o] + os[k..]
    ensures |r| == |os| + 1 && forall i :: 0 <= i < |r| ==> r[i] == Slot(os, k, o, i)
  {
  }

  lemma InsertedDescending(os: seq<TxObject>, k: nat, o: TxObject, price: TxObject -> nat, r: seq<TxObject>)
    requires Descending(os, price) && k <= |os|
    requires (k > 0 ==> price(os[k - 1]) >= price(o)) && forall i :: k <= i < |os| ==> price(os[i]) < price(o)
    requires |r| == |os| + 1 && forall i :: 0 <= i < |r| ==> r[i] == Slot(os, k, o, i)
    ensures Descending(r, price)
  {
    forall i, j | 0 <= i < j < |r| ensures price(r[i]) >= price(r[j]) {
      assert r[i] == Slot(os, k, o, i) && r[j] == Slot(os, k, o, j);
      Between(os, k, o, price, i, j);
    }
  }

  lemma Between(os: seq<TxObject>, k: nat, o: TxObject, price: TxObject -> nat, i: nat, j: nat)
    requires Descending(os, price) && k <= |os| && i < j <= |os|
    requires (k > 0 ==> price(os[k - 1]) >= price(o)) && forall x :: k <= x < |os| ==> price(os[x]) < price(o)
    ensures price(Slot(os, k, o, i)) >= price(Slot(os, k, o, j))
  {
    var a, b := if i < k then i else i - 1, if j < k then j else j - 1;
    if i < k - 1 { assert price(os[i]) >= price(os[k - 1]); }
    if i != k && j != k && a < b { assert price(os[a]) >= price(os[b]); }
  }

  lemma SortedStaysDistinct(os: seq<TxObject>, r: seq<TxObject>)
    requires Distinct(os) && multiset(r) == multiset(os)
    ensures Distinct(r) && forall o :: o in r <==> o in os
  {
    forall o ensures o in r <==> o in os { assert o in multiset(r) <==> o in multiset(os); }
    forall i, j | 0 <= i < j < |r| ensures r[i].hash != r[j].hash {
      Twice(r, i, j);
      OnceEach(os, r[i]);
      DifferentHashes(os, r[i], r[j]);
    }
  }

  lemma Twice(r: seq<TxObject>, i: nat, j: nat)
    requires i < j < |r|
    ensures r[i] == r[j] ==> multiset(r)[r[i]] >= 2
  {
    assert r == r[..i] + [r[i]] + r[i + 1..j] + [r[j]] + r[j + 1..];
  }

  lemma {:induction false} OnceEach(os: seq<TxObject>, o: TxObject)
    requires Distinct(os)
    ensures multiset(os)[o] <= 1
    decreases |os|
  {
    if os != [] {
      var front, last := os[..|os| - 1], os[|os| - 1];
      OnceEach(front, o);
      assert os == front + [last];
      forall i | 0 <= i < |front| ensures front[i] != last { assert os[i] == front[i]; }
    }
  }

  // ----- the wash -----

  function RemoteExecutable(judge: Judge): TxObject -> bool {
    (o: TxObject) => !o.local && Classify(o, judge).Executable?
  }

  function RemoteWaiting(judge: Judge): TxObject -> bool {
    (o: TxObject) => !o.local && Classify(o, judge).Waiting?
  }

  function LocalExecutable(judge: Judge): TxObject -> bool {
    (o: TxObject) => o.local && Classify(o, judge).Executable?
  }

  function IsGone(judge: Judge): TxObject -> bool {
    (o: TxObject) => Classify(o, judge).Gone?
  }

  function Price(judge: Judge): TxObject -> nat {
    (o: TxObject) => match Classify(o, judge) case Executable(p) => p case _ => 0
  }

  method Sort4(all: seq<TxObject>, judge: Judge)
    returns (executables: seq<TxObject>, waiting: seq<TxObject>, localExecutables: seq<TxObject>, gone: seq<TxObject>)
    ensures executables == Select(all, RemoteExecutable(judge)) && waiting == Select(all, RemoteWaiting(judge))
    ensures localExecutables == Select(all, LocalExecutable(judge)) && gone == Select(all, IsGone(judge))
  {
    executables, waiting, localExecutables, gone := [], [], [], [];
    var i := 0;
    while i < |all|
      invariant 0 <= i <= |all|
      invariant executables == Select(all[..i], RemoteExecutable(judge)) && waiting == Select(all[..i], RemoteWaiting(judge))
      invariant localExecutables == Select(all[..i], LocalExecutable(judge)) && gone == Select(all[..i], IsGone(judge))
    {
      var o := all[i];
      assert all[..i + 1] == all[..i] + [o];
      SelectSnoc(all[..i], o, RemoteExecutable(judge));
      SelectSnoc(all[..i], o, RemoteWaiting(judge));
      SelectSnoc(all[..i], o, LocalExecutable(judge));
      SelectSnoc(all[..i], o, IsGone(judge));
      match Classify(o, judge) {
        case Gone => gone := gone + [o];
        case Executable(_) =>
          if o.local { localExecutables := localExecutables + [o]; } else { executables := executables + [o]; }
        case Waiting =>
          if !o.local { waiting := waiting + [o]; }
      }
      i := i + 1;
    }
    assert all[..|all|] == all;
  }

  function Remote(m: Pooled): set<Hash> {
    set h | h in m && !m[h].local
  }

  /** x is worth more than y. */
  predicate Beats(x: Class, y: Class) {
    x.Executable? && (y.Executable? ==> x.price >= y.price)
  }

  /** The gone are gone; what was submitted here and is not gone stays. */
  ghost predicate Sifted(before: Pooled, after: Pooled, judge: Judge) {
    && (forall h :: h in after ==> h in before && after[h] == before[h])
    && (forall h :: h in before && Classify(before[h], judge).Gone? ==> h !in after)
    && (forall h :: h in before && !Classify(before[h], judge).Gone? && before[h].local ==> h in after)
  }

  /** No executable transaction makes room for a waiting or a cheaper one from another node. */
  ghost predicate PrefersBetter(before: Pooled, after: Pooled, judge: Judge) {
    forall x, y :: x in before && x !in after && Classify(before[x], judge).Executable? && y in after && !after[y].local ==>
      Beats(Classify(after[y], judge), Classify(before[x], judge))
  }

  /** What a wash may do to a pool; nothing makes room that is not needed. */
  ghost predicate Washed(before: Pooled, after: Pooled, judge: Judge, limit: nat) {
    && Sifted(before, after, judge) && PrefersBetter(before, after, judge)
    && |Remote(after)| <= limit
    && (forall x :: x in before && x !in after && !Classify(before[x], judge).Gone? ==> |Remote(after)| == limit)
  }

  /** How many executable and how many waiting transactions fit. */
  function Room(executables: nat, waiting: nat, limit: nat): (r: (nat, nat))
    ensures r.0 <= executables && r.1 <= waiting && r.0 + r.1 <= limit
    ensures r.0 < executables ==> r.1 == 0
    ensures r.0 < executables || r.1 < waiting ==> r.0 + r.1 == limit
  {
    if executables > limit then (limit, 0)
    else if executables + waiting > limit then (executables, limit - executables)
    else (executables, waiting)
  }

  /** The lists a wash works with, and the parts of them that stay. */
  ghost predicate Lined(before: Pooled, all: seq<TxObject>, sorted: seq<TxObject>, waiting: seq<TxObject>, judge: Judge, e: nat, w: nat) {
    && Lists(all, before) && (forall h :: h in before ==> before[h].hash == h)
    && e <= |sorted| && w <= |waiting| && Distinct(sorted) && Distinct(waiting) && Descending(sorted, Price(judge))
    && (forall o :: o in sorted <==> o in all && !o.local && Classify(o, judge).Executable?)
    && (forall o :: o in waiting <==> o in all && !o.local && Classify(o, judge).Waiting?)
  }

  ghost function Cut(all: seq<TxObject>, sorted: seq<TxObject>, waiting: seq<TxObject>, judge: Judge, e: nat, w: nat): seq<TxObject>
    requires e <= |sorted| && w <= |waiting|
  {
    Select(all, IsGone(judge)) + sorted[e..] + waiting[w..]
  }

  /** A transaction is cut if it is gone, or in the part of its list that does not fit. */
  lemma CutIs(before: Pooled, all: seq<TxObject>, sorted: seq<TxObject>, waiting: seq<TxObject>, judge: Judge, e: nat, w: nat, h: Hash)
    requires Lined(before, all, sorted, waiting, judge, e, w) && h in before
    ensures before[h] in all
    ensures h in Hashes(Cut(all, sorted, waiting, judge, e, w)) <==>
              Classify(before[h], judge).Gone? || before[h] in sorted[e..] || before[h] in waiting[w..]
  {
    var cut := Cut(all, sorted, waiting, judge, e, w);
    SelectHas(all, IsGone(judge));
    assert sorted == sorted[..e] + sorted[e..] && waiting == waiting[..w] + waiting[w..];
    assert forall o :: o in cut <==> o in Select(all, IsGone(judge)) || o in sorted[e..] || o in waiting[w..];
    if h in Hashes(cut) {
      var o :| o in cut && o.hash == h;
      OneOf(all, o, before[h]);
    }
  }

  lemma {:induction false} PartsApart(os: seq<TxObject>, k: nat, o: TxObject)
    requires Distinct(os) && k <= |os| && o in os
    ensures o in os[k..] <==> o !in os[..k]
  {
    var i :| 0 <= i < |os| && os[i] == o;
    if i < k { assert os[..k][i] == o; } else { assert os[k..][i - k] == o; }
    forall x | 0 <= x < k ensures os[..k][x] == o ==> x == i { assert os[x] == os[..k][x]; }
    forall x | 0 <= x < |os| - k ensures os[k..][x] == o ==> x + k == i { assert os[x + k] == os[k..][x]; }
  }

  /** What stays of other nodes' transactions is what fits. */
  lemma Kept(before: Pooled, all: seq<TxObject>, sorted: seq<TxObject>, waiting: seq<TxObject>, judge: Judge, e: nat, w: nat, after: Pooled)
    requires Lined(before, all, sorted, waiting, judge, e, w)
    requires after == before - Hashes(Cut(all, sorted, waiting, judge, e, w))
    ensures Distinct(sorted[..e] + waiting[..w]) && Remote(after) == Hashes(sorted[..e] + waiting[..w])
  {
    var kept := sorted[..e] + waiting[..w];
    KeptDistinct(before, all, sorted, waiting, judge, e, w);
    forall h ensures h in Remote(after) <==> h in Hashes(kept) {
      if h in before {
        CutIs(before, all, sorted, waiting, judge, e, w, h);
        if before[h] in sorted { PartsApart(sorted, e, before[h]); }
        if before[h] in waiting { PartsApart(waiting, w, before[h]); }
        InKept(before, all, sorted, waiting, judge, e, w, h);
      }
      if h in Hashes(kept) {
        var o :| o in kept && o.hash == h;
        FromKept(before, all, sorted, waiting, judge, e, w, o);
      }
    }
  }

  lemma FromKept(before: Pooled, all: seq<TxObject>, sorted: seq<TxObject>, waiting: seq<TxObject>, judge: Judge, e: nat, w: nat, o: TxObject)
    requires Lined(before, all, sorted, waiting, judge, e, w) && o in sorted[..e] + waiting[..w]
    ensures o in all && o.hash in before && before[o.hash] == o
  {
    assert sorted == sorted[..e] + sorted[e..] && waiting == waiting[..w] + waiting[w..];
    assert o in sorted || o in waiting;
  }

  lemma InKept(before: Pooled, all: seq<TxObject>, sorted: seq<TxObject>, waiting: seq<TxObject>, judge: Judge, e: nat, w: nat, h: Hash)
    requires Lined(before, all, sorted, waiting, judge, e, w) && h in before && before[h] in all
    ensures h in Hashes(sorted[..e] + waiting[..w]) <==> before[h] in sorted[..e] || before[h] in waiting[..w]
  {
    var kept := sorted[..e] + waiting[..w];
    if h in Hashes(kept) {
      var o :| o in kept && o.hash == h;
      FromKept(before, all, sorted, waiting, judge, e, w, o);
    }
  }

  lemma KeptDistinct(before: Pooled, all: seq<TxObject>, sorted: seq<TxObject>, waiting: seq<TxObject>, judge: Judge, e: nat, w: nat)
    requires Lined(before, all, sorted, waiting, judge, e, w)
    ensures Distinct(sorted[..e] + waiting[..w])
  {
    var kept := sorted[..e] + waiting[..w];
    forall i, j | 0 <= i < j < |kept| ensures kept[i].hash != kept[j].hash {
      if i < e <= j {
        assert kept[i] == sorted[i] && kept[j] == waiting[j - e] && sorted[i] in sorted && waiting[j - e] in waiting;
        DifferentHashes(all, kept[i], kept[j]);
      } else if j < e {
        assert kept[i] == sorted[i] && kept[j] == sorted[j];
      } else {
        assert kept[i] == waiting[i - e] && kept[j] == waiting[j - e];
      }
    }
  }

  /** What stays beats every executable transaction that was cut. */
  lemma CutBelow(before: Pooled, all: seq<TxObject>, sorted: seq<TxObject>, waiting: seq<TxObject>, judge: Judge, e: nat, w: nat, x: Hash, y: Hash)
    requires Lined(before, all, sorted, waiting, judge, e, w) && (e < |sorted| ==> w == 0)
    requires x in before && x in Hashes(Cut(all, sorted, waiting, judge, e, w)) && Classify(before[x], judge).Executable?
    requires y in before && y in Hashes(sorted[..e] + waiting[..w])
    ensures Beats(Classify(before[y], judge), Classify(before[x], judge))
  {
    CutIs(before, all, sorted, waiting, judge, e, w, x);
    CutIs(before, all, sorted, waiting, judge, e, w, y);
    InKept(before, all, sorted, waiting, judge, e, w, y);
    TailHas(waiting, w, before[x]);
    assert before[x] in sorted[e..];
    assert w == 0 && waiting[..w] == [];
    HeadHas(sorted, e, before[y]);
    HeadBeatsTail(sorted, Price(judge), e, before[y], before[x]);
  }

  lemma TailHas(os: seq<TxObject>, k: nat, o: TxObject)
    requires k <= |os|
    ensures o in os[k..] ==> o in os
  {
  }

  lemma HeadHas(os: seq<TxObject>, k: nat, o: TxObject)
    requires k <= |os|
    ensures o in os[..k] ==> o in os
  {
  }

  lemma HeadBeatsTail(os: seq<TxObject>, price: TxObject -> nat, k: nat, a: TxObject, b: TxObject)
    requires Descending(os, price) && k <= |os| && a in os[..k] && b in os[k..]
    ensures price(a) >= price(b)
  {
    var i :| 0 <= i < k && os[..k][i] == a;
    var j :| 0 <= j < |os| - k && os[k..][j] == b;
    assert os[i] == a && os[k + j] == b;
  }

  lemma CutSifts(before: Pooled, all: seq<TxObject>, sorted: seq<TxObject>, waiting: seq<TxObject>, judge: Judge, e: nat, w: nat, after: Pooled)
    requires Lined(before, all, sorted, waiting, judge, e, w)
    requires after == before - Hashes(Cut(all, sorted, waiting, judge, e, w))
    ensures Sifted(before, after, judge)
    ensures forall h :: h in before && h !in after && !Classify(before[h], judge).Gone? ==> e < |sorted| || w < |waiting|
  {
    assert sorted == sorted[..e] + sorted[e..] && waiting == waiting[..w] + waiting[w..];
    forall h | h in before ensures
      h in after <==> !(Classify(before[h], judge).Gone? || before[h] in sorted[e..] || before[h] in waiting[w..])
    {
      CutIs(before, all, sorted, waiting, judge, e, w, h);
    }
  }

  lemma CutPrefers(before: Pooled, all: seq<TxObject>, sorted: seq<TxObject>, waiting: seq<TxObject>, judge: Judge, e: nat, w: nat, after: Pooled)
    requires Lined(before, all, sorted, waiting, judge, e, w) && (e < |sorted| ==> w == 0)
    requires after == before - Hashes(Cut(all, sorted, waiting, judge, e, w))
    requires Remote(after) == Hashes(sorted[..e] + waiting[..w])
    ensures PrefersBetter(before, after, judge)
  {
    forall x, y | x in before && x !in after && Classify(before[x], judge).Executable? && y in after && !after[y].local
      ensures Beats(Classify(after[y], judge), Classify(before[x], judge))
    {
      assert y in Remote(after);
      CutBelow(before, all, sorted, waiting, judge, e, w, x, y);
    }
  }

  /** Removing the gone and what does not fit, of sorted executables and of waiting ones, is a wash. */
  lemma CutsWell(before: Pooled, all: seq<TxObject>, sorted: seq<TxObject>, waiting: seq<TxObject>, judge: Judge, limit: nat, after: Pooled)
    requires var room := Room(|sorted|, |waiting|, limit);
             && Lined(before, all, sorted, waiting, judge, room.0, room.1)
             && after == before - Hashes(Cut(all, sorted, waiting, judge, room.0, room.1))
    ensures Washed(before, after, judge, limit)
  {
    var room := Room(|sorted|, |waiting|, limit);
    Kept(before, all, sorted, waiting, judge, room.0, room.1, after);
    HashesSize(sorted[..room.0] + waiting[..room.1]);
    CutSifts(before, all, sorted, waiting, judge, room.0, room.1, after);
    CutPrefers(before, all, sorted, waiting, judge, room.0, room.1, after);
  }

  /**
    What a wash does, told by the judgements: whatever may not stay goes, what was
    submitted here stays, at most the limit of others stay, nothing makes room
    needlessly, and an executable one makes room only for others that offer as much.
   */
  ghost predicate Cleaned(before: Pooled, after: Pooled, judge: Judge, limit: nat) {
    && (forall h :: h in after ==> h in before && after[h] == before[h] && MayStay(after[h], judge))
    && (forall h :: h in before && MayStay(before[h], judge) && before[h].local ==> h in after)
    && |set h | h in after && !after[h].local| <= limit
    && (forall x :: x in before && x !in after && MayStay(before[x], judge) ==> |set h | h in after && !after[h].local| == limit)
    && (forall x, y, p :: x in before && x !in after && Offers(before[x], judge, p) && y in after && !after[y].local ==>
          OffersAsMuch(after[y], judge, p))
  }

  ghost predicate OffersAsMuch(o: TxObject, judge: Judge, p: nat) {
    exists q: nat :: Offers(o, judge, q) && q >= p
  }

  lemma WashedIsCleaned(before: Pooled, after: Pooled, judge: Judge, limit: nat)
    requires Washed(before, after, judge, limit)
    ensures Cleaned(before, after, judge, limit)
  {
    forall h | h in before ensures Classify(before[h], judge).Gone? <==> !MayStay(before[h], judge) { ClassifyIs(before[h], judge); }
    assert Remote(after) == set h | h in after && !after[h].local;
    forall x, y, p | x in before && x !in after && Offers(before[x], judge, p) && y in after && !after[y].local
      ensures OffersAsMuch(after[y], judge, p)
    {
      ClassifyIs(before[x], judge);
      ClassifyIs(after[y], judge);
      assert Beats(Classify(after[y], judge), Classify(before[x], judge));
      assert Offers(after[y], judge, Classify(after[y], judge).price);
    }
  }

  ghost predicate FromHighToLow(os: seq<TxObject>, judge: Judge) {
    forall i, j, p, q :: 0 <= i < j < |os| && Offers(os[i], judge, p) && Offers(os[j], judge, q) ==> p >= q
  }

  lemma DescendingIsPlain(os: seq<TxObject>, judge: Judge)
    requires Descending(os, Price(judge))
    ensures FromHighToLow(os, judge)
  {
    forall i, j, p, q | 0 <= i < j < |os| && Offers(os[i], judge, p) && Offers(os[j], judge, q) ensures p >= q {
      ClassifyIs(os[i], judge);
      ClassifyIs(os[j], judge);
      assert Price(judge)(os[i]) == p && Price(judge)(os[j]) == q;
    }
  }

  // ----- the pool -----

  /** Take transactions out of the pool one by one. */
  method RemoveAll(pool: TxObjectMap, os: seq<TxObject>)
    requires pool.Valid()
    modifies pool
    ensures pool.Valid() && pool.mapByHash == old(pool.mapByHash) - Hashes(os)
  {
    var i := 0;
    while i < |os|
      invariant 0 <= i <= |os| && pool.Valid() && pool.mapByHash == old(pool.mapByHash) - Hashes(os[..i])
    {
      var found := pool.RemoveByHash(os[i].hash);
      HashesSnoc(os[..i], os[i]);
      assert os[..i + 1] == os[..i] + [os[i]];
      i := i + 1;
    }
    assert os[..|os|] == os;
  }

  /** wash, with the base gas price at hand; the executables come out from high to low price. */
  method Wash(pool: TxObjectMap, judge: Judge, limit: nat) returns (executables: seq<TxObject>, removed: nat)
    requires pool.Valid()
    modifies pool
    ensures pool.Valid() && Cleaned(old(pool.mapByHash), pool.mapByHash, judge, limit)
    ensures FromHighToLow(executables, judge)
    ensures AllOffered(executables, pool.mapByHash, judge)
    ensures removed == |old(pool.mapByHash)| - |pool.mapByHash|
  {
    var all := pool.ToTxObjects();
    var found, waiting, local, gone := Sort4(all, judge);
    var sorted := SortByPrice(found, Price(judge));
    var room := Room(|sorted|, |waiting|, limit);
    var toRemove := gone + sorted[room.0..] + waiting[room.1..];
    LinedUp(pool.mapByHash, all, sorted, judge, room.0, room.1);
    CutsWell(pool.mapByHash, all, sorted, waiting, judge, limit, pool.mapByHash - Hashes(toRemove));
    RemoveAll(pool, toRemove);
    removed := |toRemove|;
    executables := SortByPrice(sorted[..room.0] + local, Price(judge));
    Offered(old(pool.mapByHash), all, sorted, waiting, judge, room.0, room.1, pool.mapByHash, executables);
    WashedIsCleaned(old(pool.mapByHash), pool.mapByHash, judge, limit);
    DescendingIsPlain(executables, judge);
    CutCounts(old(pool.mapByHash), all, sorted, waiting, judge, room.0, room.1);
  }

  /** The offered transactions are the executable ones that stay. */
  ghost predicate AllOffered(executables: seq<TxObject>, after: Pooled, judge: Judge) {
    forall o :: o in executables <==> o.hash in after && after[o.hash] == o && exists p :: Offers(o, judge, p)
  }

  lemma {:induction false} DistinctConcat(xs: seq<TxObject>, ys: seq<TxObject>)
    requires Distinct(xs) && Distinct(ys) && forall x, y :: x in xs && y in ys ==> x.hash != y.hash
    ensures Distinct(xs + ys)
  {
    var os := xs + ys;
    forall i, j | 0 <= i < j < |os| ensures os[i].hash != os[j].hash {
      assert i < |xs| ==> os[i] in xs;
      assert j >= |xs| ==> os[j] in ys;
    }
  }

  lemma {:induction false} DistinctPart(os: seq<TxObject>, k: nat)
    requires Distinct(os) && k <= |os|
    ensures Distinct(os[k..]) && forall o :: o in os[k..] ==> o in os
  {
  }

  ghost predicate PartOf(os: seq<TxObject>, all: seq<TxObject>) {
    Distinct(os) && forall o :: o in os ==> o in all
  }

  lemma {:induction false} PartsTogether(all: seq<TxObject>, xs: seq<TxObject>, ys: seq<TxObject>)
    requires Distinct(all) && PartOf(xs, all) && PartOf(ys, all) && forall o :: o in xs ==> o !in ys
    ensures PartOf(xs + ys, all)
  {
    forall x, y | x in xs && y in ys ensures x.hash != y.hash { DifferentHashes(all, x, y); }
    DistinctConcat(xs, ys);
  }

  lemma {:induction false} CutIsPart(before: Pooled, all: seq<TxObject>, sorted: seq<TxObject>, waiting: seq<TxObject>, judge: Judge, e: nat, w: nat)
    requires Lined(before, all, sorted, waiting, judge, e, w)
    ensures PartOf(Cut(all, sorted, waiting, judge, e, w), all)
  {
    var gone, cutSorted, cutWaiting := Select(all, IsGone(judge)), sorted[e..], waiting[w..];
    SelectHas(all, IsGone(judge));
    DistinctPart(sorted, e);
    DistinctPart(waiting, w);
    assert forall o :: o in gone ==> Classify(o, judge).Gone?;
    assert forall o :: o in cutSorted ==> Classify(o, judge).Executable?;
    assert forall o :: o in cutWaiting ==> Classify(o, judge).Waiting?;
    PartsTogether(all, gone, cutSorted);
    PartsTogether(all, gone + cutSorted, cutWaiting);
  }

  /** As many are removed as there are fewer left. */
  lemma {:induction false} CutCounts(before: Pooled, all: seq<TxObject>, sorted: seq<TxObject>, waiting: seq<TxObject>, judge: Judge, e: nat, w: nat)
    requires Lined(before, all, sorted, waiting, judge, e, w)
    ensures var cut := Cut(all, sorted, waiting, judge, e, w); |cut| == |before| - |before - Hashes(cut)|
  {
    var cut := Cut(all, sorted, waiting, judge, e, w);
    CutIsPart(before, all, sorted, waiting, judge, e, w);
    PartCounts(before, all, cut);
  }

  lemma {:induction false} PartCounts(before: Pooled, all: seq<TxObject>, os: seq<TxObject>)
    requires Lists(all, before) && PartOf(os, all)
    ensures |os| == |before| - |before - Hashes(os)|
  {
    HashesSize(os);
    forall h | h in Hashes(os) ensures h in before.Keys {
      var o :| o in os && o.hash == h;
      assert o in all;
    }
    FewerBy(before, Hashes(os));
  }

  lemma FewerBy(m: Pooled, hs: set<Hash>)
    requires hs <= m.Keys
    ensures |m - hs| == |m| - |hs|
  {
    assert (m - hs).Keys == m.Keys - hs && |m - hs| == |(m - hs).Keys| && |m| == |m.Keys|;
  }

  lemma OffersSome(o: TxObject, judge: Judge)
    ensures Classify(o, judge).Executable? <==> exists p :: Offers(o, judge, p)
  {
    ClassifyIs(o, judge);
    if Classify(o, judge).Executable? { assert Offers(o, judge, Classify(o, judge).price); }
  }

  lemma LinedUp(before: Pooled, all: seq<TxObject>, sorted: seq<TxObject>, judge: Judge, e: nat, w: nat)
    requires Lists(all, before) && (forall h :: h in before ==> before[h].hash == h)
    requires multiset(sorted) == multiset(Select(all, RemoteExecutable(judge))) && Descending(sorted, Price(judge))
    requires e <= |sorted| && w <= |Select(all, RemoteWaiting(judge))|
    ensures Lined(before, all, sorted, Select(all, RemoteWaiting(judge)), judge, e, w)
  {
    SelectHas(all, RemoteExecutable(judge));
    SelectHas(all, RemoteWaiting(judge));
    SortedStaysDistinct(Select(all, RemoteExecutable(judge)), sorted);
  }

  lemma Offered(before: Pooled, all: seq<TxObject>, sorted: seq<TxObject>, waiting: seq<TxObject>, judge: Judge, e: nat, w: nat,
                after: Pooled, executables: seq<TxObject>)
    requires Lined(before, all, sorted, waiting, judge, e, w)
    requires after == before - Hashes(Cut(all, sorted, waiting, judge, e, w))
    requires multiset(executables) == multiset(sorted[..e] + Select(all, LocalExecutable(judge)))
    ensures AllOffered(executables, after, judge)
  {
    forall o ensures o in executables <==> o.hash in after && after[o.hash] == o && exists p :: Offers(o, judge, p) {
      OffersSome(o, judge);
      SameElements(executables, sorted[..e], Select(all, LocalExecutable(judge)), o);
      OneOffered(before, all, sorted, waiting, judge, e, w, o);
    }
  }

  lemma SameElements(xs: seq<TxObject>, ys: seq<TxObject>, zs: seq<TxObject>, o: TxObject)
    requires multiset(xs) == multiset(ys + zs)
    ensures o in xs <==> o in ys || o in zs
  {
    assert o in xs <==> o in multiset(xs);
    assert o in ys + zs <==> o in multiset(ys + zs);
  }

  lemma OneOffered(before: Pooled, all: seq<TxObject>, sorted: seq<TxObject>, waiting: seq<TxObject>, judge: Judge, e: nat, w: nat, o: TxObject)
    requires Lined(before, all, sorted, waiting, judge, e, w)
    ensures var after := before - Hashes(Cut(all, sorted, waiting, judge, e, w));
            o in sorted[..e] || o in Select(all, LocalExecutable(judge)) <==>
            o.hash in after && after[o.hash] == o && Classify(o, judge).Executable?
  {
    SelectHas(all, LocalExecutable(judge));
    assert sorted == sorted[..e] + sorted[e..] && waiting == waiting[..w] + waiting[w..];
    if o in all { CutIs(before, all, sorted, waiting, judge, e, w, o.hash); }
    if o in sorted { PartsApart(sorted, e, o); }
  }

  /** wash, when the base gas price cannot be read: the pool is simply cut to its limit. */
  method WashOnError(pool: TxObjectMap, limit: nat) returns (removed: nat)
    requires pool.Valid()
    modifies pool
    ensures pool.Valid() && |pool.mapByHash| == if |old(pool.mapByHash)| <= limit then |old(pool.mapByHash)| else limit
    ensures removed == |old(pool.mapByHash)| - |pool.mapByHash|
    ensures forall h :: h in pool.mapByHash ==> h in old(pool.mapByHash) && pool.mapByHash[h] == old(pool.mapByHash)[h]
  {
    var all := pool.ToTxObjects();
    ListsSize(all, pool.mapByHash);
    var n := if |all| <= limit then 0 else |all| - limit;
    removed := n;
    RemoveAll(pool, all[..n]);
    LeftOver(all, old(pool.mapByHash), n);
  }

  lemma ListsSize(all: seq<TxObject>, m: Pooled)
    requires Lists(all, m) && forall h :: h in m ==> m[h].hash == h
    ensures |all| == |m|
  {
    HashesSize(all);
    forall h ensures h in Hashes(all) <==> h in m { if h in m { assert m[h] in all; } }
    assert Hashes(all) == m.Keys;
  }

  lemma LeftOver(all: seq<TxObject>, m: Pooled, n: nat)
    requires Lists(all, m) && n <= |all| && forall h :: h in m ==> m[h].hash == h
    ensures |m - Hashes(all[..n])| == |all| - n
  {
    ListsSize(all, m);
    HashesSize(all[..n]);
    assert forall o :: o in all[..n] ==> o in all;
    assert Hashes(all[..n]) <= m.Keys;
    assert (m - Hashes(all[..n])).Keys == m.Keys - Hashes(all[..n]);
    assert |m.Keys - Hashes(all[..n])| == |m.Keys| - |Hashes(all[..n])|;
    assert |m - Hashes(all[..n])| == |(m - Hashes(all[..n])).Keys|;
  }
}
