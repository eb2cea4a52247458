/**
  Whole histories of updates (Trie.TryUpdate, trie/trie.go): a trie after any of
  them stands for a finite map, and depends on that map alone.
 */
module History {
  import opened Hex
  import opened PatriciaTree
  import opened PatriciaTreeProofs
  import opened Canonicity

  /** One call of TryUpdate. An empty value deletes. */
  datatype Update = Update(key: Bytes, value: Bytes)

  function Apply(t: Tree, u: Update): (r: Tree)
    requires Canonical(t)
    ensures Canonical(r)
  {
    var k := HexOf(u.key);
    InsertOrDeleteCanonical(t, k, u.value);
    if u.value != [] then Insert(t, k, u.value) else Delete(t, k)
  }

  lemma InsertOrDeleteCanonical(t: Tree, k: Path, v: Bytes)
    requires Canonical(t) && KeyAt(k, false)
    ensures v != [] ==> Canonical(Insert(t, k, v))
    ensures Canonical(Delete(t, k))
  {
    if v != [] { InsertWellFormed(t, k, v); }
    DeleteWellFormed(t, k);
  }

  function Run(t: Tree, us: seq<Update>): (r: Tree)
    requires Canonical(t)
    ensures Canonical(r)
    decreases |us|
  {
    if us == [] then t else Run(Apply(t, us[0]), us[1..])
  }

  // ----- the finite map a trie stands for -----

  function ApplyToMap(m: map<Bytes, Bytes>, u: Update): map<Bytes, Bytes> {
    if u.value != [] then m[u.key := u.value] else m - {u.key}
  }

  function RunOnMap(m: map<Bytes, Bytes>, us: seq<Update>): map<Bytes, Bytes>
    decreases |us|
  {
    if us == [] then m else RunOnMap(ApplyToMap(m, us[0]), us[1..])
  }

  /** The byte key with a given HEX form. */
  function KeyOfHex(k: Path): (r: Option<Bytes>)
    requires KeyAt(k, false)
  {
    if |k| % 2 == 1 then Some(Pack(k[..|k| - 1])) else None
  }

  lemma HexOfKeyOfHex(k: Path)
    requires KeyAt(k, false) && KeyOfHex(k).Some?
    ensures HexOf(KeyOfHex(k).value) == k
  {
    var body := k[..|k| - 1];
    UnpackPack(body);
    assert k == body + [TERM];
  }

  lemma KeyOfHexOf(b: Bytes)
    ensures KeyOfHex(HexOf(b)) == Some(b)
  {
    assert HexOf(b)[..2 * |b|] == Unpack(b);
    PackUnpack(b);
  }

  lemma KeyOfHexInverts(k: Path, b: Bytes)
    requires KeyAt(k, false)
    ensures KeyOfHex(k) == Some(b) <==> k == HexOf(b)
  {
    KeyOfHexOf(b);
    if KeyOfHex(k) == Some(b) { HexOfKeyOfHex(k); }
  }

  function LookupHex(m: map<Bytes, Bytes>, k: Path): Option<Bytes>
    requires KeyAt(k, false)
  {
    var b := KeyOfHex(k);
    if b.Some? && b.value in m then Some(m[b.value]) else None
  }

  ghost predicate Represents(t: Tree, m: map<Bytes, Bytes>) {
    Canonical(t) && forall k :: KeyAt(k, false) ==> Get(t, k) == LookupHex(m, k)
  }

  lemma ApplyRepresents(t: Tree, m: map<Bytes, Bytes>, u: Update)
    requires Represents(t, m)
    ensures Represents(Apply(t, u), ApplyToMap(m, u))
  {
    forall k | KeyAt(k, false) ensures Get(Apply(t, u), k) == LookupHex(ApplyToMap(m, u), k) {
      GetApply(t, u, k);
      KeyOfHexInverts(k, u.key);
    }
  }

  lemma GetApply(t: Tree, u: Update, k: Path)
    requires Canonical(t) && KeyAt(k, false)
    ensures Get(Apply(t, u), k) ==
            if HexOf(u.key) != k then Get(t, k) else if u.value == [] then None else Some(u.value)
  {
    if u.value != [] {
      GetInsert(t, HexOf(u.key), u.value, k);
    } else {
      GetDelete(t, HexOf(u.key), k);
    }
  }

  /** Any history of updates does to the trie what it does to a finite map. */
  lemma {:induction false} RunRefinesMap(t: Tree, m: map<Bytes, Bytes>, us: seq<Update>)
    requires Represents(t, m)
    ensures Represents(Run(t, us), RunOnMap(m, us))
    decreases us
  {
    if us != [] {
      ApplyRepresents(t, m, us[0]);
      RunRefinesMap(Apply(t, us[0]), ApplyToMap(m, us[0]), us[1..]);
    }
  }

  lemma SameAnswersSameTree(a: Tree, b: Tree)
    requires Canonical(a) && Canonical(b) && SameLookups(a, b, false)
    ensures a == b
  {
    if !a.Nil? && !b.Nil? {
      LookupsDetermineTree(a, b, false);
    } else if !a.Nil? {
      var k := SomeKey(a, false);
    } else if !b.Nil? {
      var k := SomeKey(b, false);
    }
  }

  /** Two histories that leave the same map leave the same tree. */
  lemma HistoryIndependence(t1: Tree, m1: map<Bytes, Bytes>, us1: seq<Update>,
                            t2: Tree, m2: map<Bytes, Bytes>, us2: seq<Update>)
    requires Represents(t1, m1) && Represents(t2, m2)
    requires RunOnMap(m1, us1) == RunOnMap(m2, us2)
    ensures Run(t1, us1) == Run(t2, us2)
  {
    RunRefinesMap(t1, m1, us1);
    RunRefinesMap(t2, m2, us2);
    SameAnswersSameTree(Run(t1, us1), Run(t2, us2));
  }

  // ----- order of updates -----

  /** The last value a history writes under a HEX key. */
  function LastWrite(us: seq<Update>, k: Path): Option<Bytes> {
    if us == [] then None
    else
      var last := us[|us| - 1];
      if HexOf(last.key) == k then Some(last.value) else LastWrite(us[..|us| - 1], k)
  }

  function Seen(t: Tree, write: Option<Bytes>, k: Path): Option<Bytes> {
    if write.None? then Get(t, k) else if write.value == [] then None else write
  }

  lemma RunSnoc(t: Tree, us: seq<Update>, u: Update)
    requires Canonical(t)
    ensures Run(t, us + [u]) == Apply(Run(t, us), u)
    decreases us
  {
    if us == [] {
      assert us + [u] == [u];
    } else {
      assert (us + [u])[1..] == us[1..] + [u];
      RunSnoc(Apply(t, us[0]), us[1..], u);
    }
  }

  /** After a history a lookup answers the last write, or what was there before. */
  lemma {:induction false} GetRun(t: Tree, us: seq<Update>, k: Path)
    requires Canonical(t) && KeyAt(k, false)
    ensures Get(Run(t, us), k) == Seen(t, LastWrite(us, k), k)
    decreases |us|
  {
    if us != [] {
      var front, last := us[..|us| - 1], us[|us| - 1];
      GetRun(t, front, k);
      assert us == front + [last];
      RunSnoc(t, front, last);
      GetApply(Run(t, front), last, k);
    }
  }

  ghost predicate DistinctKeys(us: seq<Update>) {
    forall i, j :: 0 <= i < j < |us| ==> us[i].key != us[j].key
  }

  lemma {:induction false} LastWriteIsMember(us: seq<Update>, k: Path)
    ensures LastWrite(us, k).Some? ==> exists u :: u in us && HexOf(u.key) == k && u.value == LastWrite(us, k).value
    ensures LastWrite(us, k).None? ==> forall u :: u in us ==> HexOf(u.key) != k
    decreases |us|
  {
    if us != [] {
      LastWriteIsMember(us[..|us| - 1], k);
      assert us == us[..|us| - 1] + [us[|us| - 1]];
    }
  }

  lemma DistinctKeysUnique(us: seq<Update>, u: Update, w: Update)
    requires DistinctKeys(us) && u in us && w in us && u.key == w.key
    ensures u == w
  {
    var i :| 0 <= i < |us| && us[i] == u;
    var j :| 0 <= j < |us| && us[j] == w;
  }

  lemma LastWriteOrder(us1: seq<Update>, us2: seq<Update>, k: Path)
    requires DistinctKeys(us1) && multiset(us1) == multiset(us2)
    ensures LastWrite(us1, k) == LastWrite(us2, k)
  {
    SameMembers(us1, us2);
    LastWriteIsMember(us1, k);
    LastWriteIsMember(us2, k);
    if LastWrite(us1, k).Some? && LastWrite(us2, k).Some? {
      var u :| u in us1 && HexOf(u.key) == k && u.value == LastWrite(us1, k).value;
      var w :| w in us2 && HexOf(w.key) == k && w.value == LastWrite(us2, k).value;
      HexInjective(u.key, w.key);
      DistinctKeysUnique(us1, u, w);
    }
  }

  lemma SameMembers<T>(a: seq<T>, b: seq<T>)
    requires multiset(a) == multiset(b)
    ensures forall x :: x in a <==> x in b
  {
    forall x ensures x in a <==> x in b {
      assert x in a <==> x in multiset(a);
      assert x in b <==> x in multiset(b);
    }
  }

  /** Updates of distinct keys may be applied in any order. */
  lemma OrderIndependence(t: Tree, us1: seq<Update>, us2: seq<Update>)
    requires Canonical(t)
    requires DistinctKeys(us1) && multiset(us1) == multiset(us2)
    ensures Run(t, us1) == Run(t, us2)
  {
    forall k | KeyAt(k, false) ensures Get(Run(t, us1), k) == Get(Run(t, us2), k) {
      GetRun(t, us1, k);
      GetRun(t, us2, k);
      LastWriteOrder(us1, us2, k);
    }
    SameAnswersSameTree(Run(t, us1), Run(t, us2));
  }
}
