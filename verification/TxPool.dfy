/** The transaction pool (txpool/tx_object_map.go, txpool/tx_pool.go). */
module TxPools {
  import opened Hex
  import opened Rlp
  import opened Blocks

  datatype TxObject = TxObject(hash: Hash, id: Id, origin: Address, local: bool, timeAdded: int)

  type Pooled = map<Hash, TxObject>

  function OfOrigin(m: Pooled, a: Address): set<Hash> {
    set h | h in m && m[h].origin == a
  }

  /** The number of pooled transactions of an account. */
  function Count(m: Pooled, a: Address): nat {
    |OfOrigin(m, a)|
  }

  lemma CountAdd(m: Pooled, o: TxObject, a: Address)
    requires o.hash !in m
    ensures Count(m[o.hash := o], a) == Count(m, a) + if a == o.origin then 1 else 0
  {
    assert OfOrigin(m[o.hash := o], a) == OfOrigin(m, a) + if a == o.origin then {o.hash} else {};
  }

  lemma CountRemove(m: Pooled, h: Hash, a: Address)
    requires h in m
    ensures Count(m, a) == Count(m - {h}, a) + if a == m[h].origin then 1 else 0
  {
    assert OfOrigin(m, a) == OfOrigin(m - {h}, a) + if a == m[h].origin then {h} else {};
    assert h !in OfOrigin(m - {h}, a);
  }

  // ----- by hash and by id -----

  /** The two maps. */
  datatype Pool = Pool(byHash: Pooled, byID: map<Id, TxObject>)

  function Inserted(p: Pool, o: TxObject): Pool {
    Pool(p.byHash[o.hash := o], p.byID[o.id := o])
  }

  function Removed(p: Pool, h: Hash): Pool {
    if h in p.byHash then Pool(p.byHash - {h}, p.byID - {p.byHash[h].id}) else p
  }

  function Filled(p: Pool, os: seq<TxObject>): Pool {
    if os == [] then p
    else
      var q := Filled(p, os[..|os| - 1]);
      if os[|os| - 1].hash in q.byHash then q else Inserted(q, os[|os| - 1])
  }

  /** Objects are pooled under their own hashes. */
  ghost predicate Keyed(p: Pool) {
    forall h :: h in p.byHash ==> p.byHash[h].hash == h
  }

  /** Each pooled transaction is found by its id. */
  ghost predicate FoundByID(p: Pool) {
    forall h :: h in p.byHash ==> p.byHash[h].id in p.byID && p.byID[p.byHash[h].id] == p.byHash[h]
  }

  /** Adding a transaction keeps all of them findable by id, exactly if no pooled one has the same id. */
  lemma InsertFoundIff(p: Pool, o: TxObject)
    requires Keyed(p) && FoundByID(p) && o.hash !in p.byHash
    ensures FoundByID(Inserted(p, o)) <==> forall h :: h in p.byHash ==> p.byHash[h].id != o.id
  {
    var p' := Inserted(p, o);
    if h :| h in p.byHash && p.byHash[h].id == o.id {
      assert p'.byHash[h] == p.byHash[h] && p'.byID[o.id] == o;
    }
  }

  /** Removing one does too. */
  lemma RemoveFound(p: Pool, h: Hash)
    requires Keyed(p) && FoundByID(p)
    ensures FoundByID(Removed(p, h))
  {
    forall g | g in Removed(p, h).byHash
      ensures Removed(p, h).byHash[g].id in Removed(p, h).byID && Removed(p, h).byID[Removed(p, h).byHash[g].id] == Removed(p, h).byHash[g]
    {
      assert p.byHash[g].id in p.byID;
    }
  }

  /** No two pooled transactions have one id. */
  ghost predicate DistinctIDs(p: Pool) {
    forall g, h :: g in p.byHash && h in p.byHash && g != h ==> p.byHash[g].id != p.byHash[h].id
  }

  datatype Op = Insert(o: TxObject) | Remove(h: Hash)

  /** A transaction that is pooled already is not added again. */
  function Do(p: Pool, op: Op): Pool {
    match op
    case Insert(o) => if o.hash in p.byHash then p else Inserted(p, o)
    case Remove(h) => Removed(p, h)
  }

  lemma FoundNextIff(p: Pool, op: Op)
    requires Keyed(p) && FoundByID(p)
    ensures FoundByID(Do(p, op)) <==> DistinctIDs(Do(p, op))
  {
    match op
    case Insert(o) =>
      if o.hash !in p.byHash {
        var q := Do(p, op);
        InsertFoundIff(p, o);
        if h :| h in p.byHash && p.byHash[h].id == o.id {
          assert q.byHash[h].id == q.byHash[o.hash].id && h != o.hash;
        }
      }
    case Remove(h) => RemoveFound(p, h);
  }

  /** All pooled transactions are found by id, now and after each of the operations. */
  ghost predicate FoundThroughout(p: Pool, ops: seq<Op>)
    decreases |ops|
  {
    FoundByID(p) && (ops != [] ==> FoundThroughout(Do(p, ops[0]), ops[1..]))
  }

  ghost predicate DistinctThroughout(p: Pool, ops: seq<Op>)
    decreases |ops|
  {
    DistinctIDs(p) && (ops != [] ==> DistinctThroughout(Do(p, ops[0]), ops[1..]))
  }

  /** Over a whole run the pooled transactions are all found by id at all times, exactly if their ids differ at all times. */
  lemma {:induction false} FoundThroughoutIff(p: Pool, ops: seq<Op>)
    requires Keyed(p) && FoundByID(p)
    ensures FoundThroughout(p, ops) <==> DistinctThroughout(p, ops)
    decreases |ops|
  {
    if ops != [] {
      FoundNextIff(p, ops[0]);
      if FoundByID(Do(p, ops[0])) { FoundThroughoutIff(Do(p, ops[0]), ops[1..]); }
    }
  }

  /** Otherwise removing either of two transactions with one id leaves the other pooled, but not to be found by id. */
  lemma SharedIdIsLost(p: Pool, first: TxObject, second: TxObject)
    requires first.id == second.id && first.hash != second.hash
    ensures var q := Inserted(Inserted(p, first), second);
            && second.hash in Removed(q, first.hash).byHash && second.id !in Removed(q, first.hash).byID
            && first.hash in Removed(q, second.hash).byHash && first.id !in Removed(q, second.hash).byID
  {
  }

  /** Transactions by hash and by id, and how many each account has. */
  class TxObjectMap {
    var mapByHash: Pooled
    var mapByID: map<Id, TxObject>
    var quota: map<Address, int>

    function Now(): Pool
      reads this
    {
      Pool(mapByHash, mapByID)
    }

    function Quota(a: Address): int
      reads this
    {
      if a in quota then quota[a] else 0
    }

    ghost predicate Valid()
      reads this
    {
      && Keyed(Now())
      && (forall id :: id in mapByID ==> mapByID[id].id == id && mapByID[id].hash in mapByHash && mapByHash[mapByID[id].hash] == mapByID[id])
      && (forall a :: Quota(a) == Count(mapByHash, a))
      && (forall a :: a in quota ==> quota[a] > 0)
    }

    constructor ()
      ensures Valid() && Now() == Pool(map[], map[])
    {
      mapByHash, mapByID, quota := map[], map[], map[];
    }

    /** Adding again is no error; a full account is. */
    method Add(o: TxObject, limitPerAccount: int) returns (ok: bool)
      requires Valid()
      modifies this
      ensures Valid()
      ensures ok <==> o.hash in old(mapByHash) || Count(old(mapByHash), o.origin) < limitPerAccount
      ensures Now() == if ok && o.hash !in old(mapByHash) then Inserted(old(Now()), o) else old(Now())
    {
      if o.hash in mapByHash { return true; }
      if Quota(o.origin) >= limitPerAccount { return false; }
      Insert(o);
      return true;
    }

    method Insert(o: TxObject)
      requires Valid() && o.hash !in mapByHash
      modifies this
      ensures Valid() && Now() == Inserted(old(Now()), o)
    {
      ghost var before := mapByHash;
      quota := quota[o.origin := Quota(o.origin) + 1];
      mapByHash := mapByHash[o.hash := o];
      mapByID := mapByID[o.id := o];
      forall a ensures Quota(a) == Count(mapByHash, a) { CountAdd(before, o, a); }
    }

    function GetByID(id: Id): Option<TxObject>
      reads this
    {
      if id in mapByID then Some(mapByID[id]) else None
    }

    method RemoveByHash(h: Hash) returns (ok: bool)
      requires Valid()
      modifies this
      ensures Valid() && (ok <==> h in old(mapByHash)) && Now() == Removed(old(Now()), h) && mapByHash == old(mapByHash) - {h}
    {
      if h !in mapByHash {
        assert mapByHash - {h} == mapByHash;
        return false;
      }
      var o := mapByHash[h];
      ghost var before := mapByHash;
      if Quota(o.origin) > 1 { quota := quota[o.origin := Quota(o.origin) - 1]; } else { quota := quota - {o.origin}; }
      mapByHash := mapByHash - {h};
      mapByID := mapByID - {o.id};
      forall a ensures Quota(a) == Count(mapByHash, a) { CountRemove(before, h, a); }
      return true;
    }

    /** Fill adds without regard to the account limit; of objects with one hash the first is taken. */
    method Fill(os: seq<TxObject>)
      requires Valid()
      modifies this
      ensures Valid() && Now() == Filled(old(Now()), os)
    {
      var i := 0;
      while i < |os|
        invariant 0 <= i <= |os| && Valid() && Now() == Filled(old(Now()), os[..i])
      {
        assert os[..i + 1][..i] == os[..i];
        if os[i].hash !in mapByHash { Insert(os[i]); }
        i := i + 1;
      }
      assert os[..|os|] == os;
    }

    /** All pooled transactions, in no particular order. */
    method ToTxObjects() returns (os: seq<TxObject>)
      requires Valid()
      ensures Lists(os, mapByHash)
    {
      os := [];
      var todo := mapByHash.Keys;
      while todo != {}
        invariant todo <= mapByHash.Keys && Distinct(os)
        invariant forall o :: o in os <==> o.hash in mapByHash && o.hash !in todo && mapByHash[o.hash] == o
        decreases |todo|
      {
        var h :| h in todo;
        os, todo := os + [mapByHash[h]], todo - {h};
      }
    }
  }

  lemma {:induction false} FilledKeeps(p: Pool, os: seq<TxObject>, h: Hash)
    requires h in p.byHash
    ensures h in Filled(p, os).byHash && Filled(p, os).byHash[h] == p.byHash[h]
    decreases |os|
  {
    if os != [] { FilledKeeps(p, os[..|os| - 1], h); }
  }

  lemma {:induction false} FilledFrom(p: Pool, os: seq<TxObject>, h: Hash) returns (i: nat)
    requires h in Filled(p, os).byHash && h !in p.byHash
    ensures i < |os| && os[i].hash == h
    decreases |os|
  {
    var front := os[..|os| - 1];
    if h in Filled(p, front).byHash { i := FilledFrom(p, front, h); } else { i := |os| - 1; }
  }

  /** What Fill adds under a missing hash is the first object that has it. */
  lemma {:induction false} FilledFirst(p: Pool, os: seq<TxObject>, i: nat)
    requires i < |os| && os[i].hash !in p.byHash && forall j :: 0 <= j < i ==> os[j].hash != os[i].hash
    ensures os[i].hash in Filled(p, os).byHash && Filled(p, os).byHash[os[i].hash] == os[i]
    decreases |os|
  {
    var front := os[..|os| - 1];
    if i < |front| {
      FilledFirst(p, front, i);
    } else if os[i].hash in Filled(p, front).byHash {
      var j := FilledFrom(p, front, os[i].hash);
      assert false;
    }
  }

  ghost predicate Distinct(os: seq<TxObject>) {
    forall i, j :: 0 <= i < j < |os| ==> os[i].hash != os[j].hash
  }

  ghost predicate Lists(os: seq<TxObject>, m: Pooled) {
    Distinct(os) && forall o :: o in os <==> o.hash in m && m[o.hash] == o
  }
}
