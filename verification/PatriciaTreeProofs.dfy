/** The tree operations refine a finite map, and the form they keep is canonical. */
module PatriciaTreeProofs {
  import opened Hex
  import opened PatriciaTree

  /** Keys that can still be looked up at a place before (or just after) the terminator. */
  predicate KeyAt(k: Path, end: bool) {
    IsKey(k) && (|k| == 0 <==> end)
  }

  lemma PrefixOfKey(p: Path, k: Path)
    requires IsKey(k) && p <= k
    ensures IsSegment(p) && (HasTerm(p) <==> (p == k && |k| > 0))
  {
    forall i | 0 <= i < |p| ensures p[i] == k[i] { }
  }

  // ----- insertion -----

  lemma {:induction false} InsertWellFormed(t: Tree, k: Path, v: Bytes)
    requires t.Nil? || WellFormed(t, |k| == 0)
    requires IsKey(k) && |v| > 0
    ensures WellFormed(Insert(t, k, v), |k| == 0)
    ensures Insert(t, k, v).Ext? ==> t.Nil? || t.Ext?
    decreases t
  {
    match t
    case Nil =>
    case Leaf(_) =>
    case Ext(key, child) =>
      var m := PrefixLen(k, key);
      if m == |key| {
        PrefixOfKey(key, k);
        InsertWellFormed(child, k[m..], v);
      } else {
        SplitWellFormed(key, child, k, v, m);
      }
    case Branch(cs) =>
      InsertWellFormed(cs[k[0]], k[1..], v);
      var cs' := cs[k[0] := Insert(cs[k[0]], k[1..], v)];
      var a, b :| 0 <= a < b < 17 && !cs[a].Nil? && !cs[b].Nil?;
      assert !cs'[a].Nil? && !cs'[b].Nil?;
  }

  lemma SplitWellFormed(key: Path, child: Tree, k: Path, v: Bytes, m: nat)
    requires WellFormed(Ext(key, child), false) && IsKey(k) && |v| > 0
    requires m < |key| && m < |k| && key[..m] == k[..m] && key[m] != k[m]
    ensures WellFormed(Split(key, child, k, v, m), false)
  {
    var a, b := Attach(key[m + 1..], child), Attach(k[m + 1..], Leaf(v));
    AttachRest(key, child, m);
    AttachRest(k, Leaf(v), m);
    var branch := Fork(key[m], a, k[m], b);
    assert !branch.children[key[m]].Nil? && !branch.children[k[m]].Nil?;
    if key[m] < k[m] {
      assert Forks(branch.children);
    } else {
      assert Forks(branch.children);
    }
  }

  lemma AttachRest(key: Path, child: Tree, m: nat)
    requires IsSegment(key) && m < |key| && !child.Ext? && WellFormed(child, HasTerm(key))
    ensures WellFormed(Attach(key[m + 1..], child), key[m] == TERM)
  {
  }

  /** Insertion is map update. */
  lemma {:induction false} GetInsert(t: Tree, k: Path, v: Bytes, k2: Path)
    requires t.Nil? || WellFormed(t, |k| == 0)
    requires IsKey(k) && KeyAt(k2, |k| == 0)
    ensures Get(Insert(t, k, v), k2) == if k2 == k then Some(v) else Get(t, k2)
    decreases t, 1
  {
    match t
    case Nil => GetAttach(k, Leaf(v), k2); NoKeyExtends(k, k2);
    case Leaf(_) =>
    case Ext(_, _) => GetInsertExt(t, k, v, k2);
    case Branch(_) => GetInsertBranch(t, k, v, k2);
  }

  lemma {:induction false} GetInsertExt(t: Tree, k: Path, v: Bytes, k2: Path)
    requires t.Ext? && WellFormed(t, false) && IsKey(k) && |k| > 0 && KeyAt(k2, false)
    ensures Get(Insert(t, k, v), k2) == if k2 == k then Some(v) else Get(t, k2)
    decreases t, 0
  {
    var m := PrefixLen(k, t.key);
    if m < |t.key| {
      GetSplit(t.key, t.child, k, v, m, k2);
    } else if t.key <= k2 {
      GetInsertBelow(t.key, t.child, k, v, k2);
    }
  }

  lemma {:induction false} GetInsertBranch(t: Tree, k: Path, v: Bytes, k2: Path)
    requires t.Branch? && WellFormed(t, false) && IsKey(k) && |k| > 0 && KeyAt(k2, false)
    ensures Get(Insert(t, k, v), k2) == if k2 == k then Some(v) else Get(t, k2)
    decreases t, 0
  {
    if k[0] == k2[0] { GetInsertBelow([k[0]], t.children[k[0]], k, v, k2); }
  }

  lemma {:induction false} GetInsertBelow(p: Path, t: Tree, k: Path, v: Bytes, k2: Path)
    requires |p| > 0 && IsKey(k) && KeyAt(k2, false) && p <= k && p <= k2
    requires t.Nil? || WellFormed(t, p[|p| - 1] == TERM)
    ensures |p| == |k| <==> p[|p| - 1] == TERM
    ensures IsKey(k[|p|..])
    ensures Get(Insert(t, k[|p|..], v), k2[|p|..]) == if k2 == k then Some(v) else Get(t, k2[|p|..])
    decreases t, 2
  {
    SplitKey(p, k);
    SplitKey(p, k2);
    GetInsert(t, k[|p|..], v, k2[|p|..]);
  }

  lemma SplitKey(p: Path, k: Path)
    requires IsKey(k) && p <= k && |p| > 0
    ensures IsSegment(p) && KeyAt(k[|p|..], p[|p| - 1] == TERM)
    ensures k == p + k[|p|..]
  {
    PrefixOfKey(p, k);
  }

  lemma NoKeyExtends(k: Path, k2: Path)
    requires IsKey(k) && KeyAt(k2, |k| == 0)
    ensures k <= k2 <==> k == k2
  {
    if k <= k2 { PrefixOfKey(k, k2); }
  }

  /** A key that agrees with another before its terminator has a next nibble. */
  lemma LongerThanPrefix(k: Path, m: nat, k2: Path)
    requires IsKey(k) && m < |k| && KeyAt(k2, false) && k[..m] <= k2
    ensures m < |k2| && k2 == k[..m] + [k2[m]] + k2[m + 1..]
    ensures IsKey(k2[m + 1..])
  {
    assert forall i :: 0 <= i < m ==> k2[i] == k[..m][i];
  }

  /** Looking a key up where the trie forks after a common path p. */
  lemma GetFork(p: Path, i: Byte, a: Tree, j: Byte, b: Tree, k2: Path)
    requires i < 17 && j < 17 && i != j && p <= k2 && |p| < |k2| && k2[|p|] < 17
    ensures var branch := Fork(i, a, j, b);
            var x, rest := k2[|p|], k2[|p| + 1..];
            Get(if |p| == 0 then branch else Ext(p, branch), k2)
            == if x == i then Get(a, rest) else if x == j then Get(b, rest) else None
  {
    var branch := Fork(i, a, j, b);
    assert k2[|p|..][1..] == k2[|p| + 1..];
    if |p| == 0 { assert k2[|p|..] == k2; }
    assert Get(branch, k2[|p|..]) == Get(branch.children[k2[|p|]], k2[|p| + 1..]);
  }

  lemma GetAttachPast(key: Path, t: Tree, m: nat, k2: Path)
    requires m < |key| && m < |k2| && key[..m] <= k2
    ensures key <= k2 ==> key[m] == k2[m]
    ensures key[m] == k2[m] ==> Get(Attach(key[m + 1..], t), k2[m + 1..]) == Get(Ext(key, t), k2)
  {
    GetAttach(key[m + 1..], t, k2[m + 1..]);
    PrefixPast(key, m, k2);
  }

  lemma GetSplit(key: Path, child: Tree, k: Path, v: Bytes, m: nat, k2: Path)
    requires WellFormed(Ext(key, child), false) && IsKey(k) && |k| > 0 && KeyAt(k2, false)
    requires m < |key| && m < |k| && key[..m] == k[..m] && key[m] != k[m]
    ensures Get(Split(key, child, k, v, m), k2) == if k2 == k then Some(v) else Get(Ext(key, child), k2)
  {
    if k[..m] <= k2 {
      LongerThanPrefix(k, m, k2);
      GetFork(k[..m], key[m], Attach(key[m + 1..], child), k[m], Attach(k[m + 1..], Leaf(v)), k2);
      GetAttachPast(key, child, m, k2);
      GetAttachPast(k, Leaf(v), m, k2);
      NoKeyExtends(k, k2);
    } else {
      PrefixTransitive(key[..m], key, k2);
    }
  }

  lemma PrefixTransitive(p: Path, q: Path, r: Path)
    requires p <= q
    ensures q <= r ==> p <= r
  {
    if q <= r { assert p == r[..|p|]; }
  }

  /** Prefix comparison past a common part. */
  lemma PrefixPast(p: Path, m: nat, k2: Path)
    requires m < |p| && m < |k2| && p[..m] <= k2
    ensures p <= k2 <==> p[m] == k2[m] && p[m + 1..] <= k2[m + 1..]
    ensures p <= k2 ==> k2[m + 1..][|p| - m - 1..] == k2[|p|..]
  {
    assert p == p[..m] + [p[m]] + p[m + 1..];
    if p[m] == k2[m] && p[m + 1..] <= k2[m + 1..] {
      assert k2 == k2[..m] + [k2[m]] + k2[m + 1..];
      assert k2[..m] == p[..m];
    }
  }

  // ----- deletion -----

  lemma GetPrepend(p: Path, t: Tree, k: Path)
    ensures Get(Prepend(p, t), k) == if p <= k then Get(t, k[|p|..]) else None
  {
    if t.Ext? {
      if p <= k {
        assert k == p + k[|p|..];
        PrefixConcat(p, t.key, k);
      } else {
        PrefixTransitive(p, p + t.key, k);
      }
    }
  }

  lemma PrefixConcat(p: Path, q: Path, k: Path)
    requires p <= k
    ensures p + q <= k <==> q <= k[|p|..]
    ensures p + q <= k ==> k[|p|..][|q|..] == k[|p + q|..]
  {
    assert k == p + k[|p|..];
    if q <= k[|p|..] { assert k[|p|..] == q + k[|p|..][|q|..]; assert k == (p + q) + k[|p|..][|q|..]; }
  }

  lemma GetShrink(cs: seq<Tree>, k: Path)
    requires |cs| == 17 && KeyAt(k, false)
    ensures Get(Shrink(cs), k) == Get(cs[k[0]], k[1..])
  {
    var pos := OnlyIndex(Present(cs));
    if pos >= 0 {
      var p := [pos as Byte];
      assert p <= k <==> k[0] as int == pos;
      if pos != 16 { GetPrepend(p, cs[pos], k); }
    }
  }

  /** Deletion removes the key and nothing else. */
  lemma {:induction false} GetDelete(t: Tree, k: Path, k2: Path)
    requires t.Nil? || WellFormed(t, |k| == 0)
    requires IsKey(k) && KeyAt(k2, |k| == 0)
    ensures Get(Delete(t, k), k2) == if k2 == k then None else Get(t, k2)
    decreases t, 1
  {
    match t
    case Nil =>
    case Leaf(_) =>
    case Ext(key, child) =>
      var m := PrefixLen(k, key);
      if m == |key| {
        if m == |k| {
          NoKeyExtends(k, k2);
        } else {
          GetDeleteExt(key, child, k, k2);
        }
      }
    case Branch(cs) => GetDeleteBranch(t, k, k2);
  }

  lemma {:induction false} GetDeleteBranch(t: Tree, k: Path, k2: Path)
    requires t.Branch? && WellFormed(t, false) && IsKey(k) && |k| > 0 && KeyAt(k2, false)
    ensures Get(Delete(t, k), k2) == if k2 == k then None else Get(t, k2)
    decreases t, 0
  {
    var cs := t.children;
    var cs' := cs[k[0] := Delete(cs[k[0]], k[1..])];
    assert Delete(t, k) == Shrink(cs');
    GetShrink(cs', k2);
    assert Get(t, k2) == Get(cs[k2[0]], k2[1..]);
    if k[0] == k2[0] { GetDeleteBelow([k[0]], cs[k[0]], k, k2); }
  }

  lemma {:induction false} GetDeleteExt(key: Path, child: Tree, k: Path, k2: Path)
    requires WellFormed(Ext(key, child), false)
    requires IsKey(k) && KeyAt(k2, false) && key < k
    ensures WellFormed(child, |k[|key|..]| == 0) && IsKey(k[|key|..])
    ensures Get(Prepend(key, Delete(child, k[|key|..])), k2) == if k2 == k then None else Get(Ext(key, child), k2)
    decreases child, 3
  {
    SplitKey(key, k);
    GetPrepend(key, Delete(child, k[|key|..]), k2);
    if key <= k2 {
      GetDeleteBelow(key, child, k, k2);
    }
  }

  lemma {:induction false} GetDeleteBelow(p: Path, t: Tree, k: Path, k2: Path)
    requires |p| > 0 && IsKey(k) && KeyAt(k2, false) && p <= k && p <= k2
    requires t.Nil? || WellFormed(t, p[|p| - 1] == TERM)
    ensures |p| == |k| <==> p[|p| - 1] == TERM
    ensures IsKey(k[|p|..])
    ensures Get(Delete(t, k[|p|..]), k2[|p|..]) == if k2 == k then None else Get(t, k2[|p|..])
    decreases t, 2
  {
    SplitKey(p, k);
    SplitKey(p, k2);
    GetDelete(t, k[|p|..], k2[|p|..]);
  }

  lemma {:induction false} DeleteWellFormed(t: Tree, k: Path)
    requires t.Nil? || WellFormed(t, |k| == 0)
    requires IsKey(k)
    ensures Delete(t, k).Nil? || WellFormed(Delete(t, k), |k| == 0)
    ensures t.Branch? ==> !Delete(t, k).Nil?
    decreases t
  {
    match t
    case Nil =>
    case Leaf(_) =>
    case Ext(key, child) =>
      var m := PrefixLen(k, key);
      if m == |key| && m < |k| {
        SplitKey(key, k);
        DeleteWellFormed(child, k[m..]);
        PrependWellFormed(key, Delete(child, k[m..]));
      }
    case Branch(cs) =>
      DeleteWellFormed(cs[k[0]], k[1..]);
      ShrinkWellFormed(cs, k[0], Delete(cs[k[0]], k[1..]));
  }

  lemma PrependWellFormed(p: Path, t: Tree)
    requires |p| > 0 && IsNibbles(p) && WellFormed(t, false)
    ensures WellFormed(Prepend(p, t), false)
  {
    if t.Ext? { assert (p + t.key)[|p + t.key| - 1] == t.key[|t.key| - 1]; }
  }

  lemma ShrinkWellFormed(cs: seq<Tree>, i: Byte, t: Tree)
    requires i < 17 && WellFormed(Branch(cs), false)
    requires t.Nil? || WellFormed(t, i == 16)
    ensures WellFormed(Shrink(cs[i := t]), false)
  {
    var cs' := cs[i := t];
    forall j | 0 <= j < 17 ensures cs'[j].Nil? || WellFormed(cs'[j], j == 16) {}
    StillPresent(cs, i, t);
    if OnlyIndex(Present(cs')) == -2 { StillForks(cs'); } else { OneLeft(cs', OnlyIndex(Present(cs'))); }
  }

  lemma StillForks(cs: seq<Tree>)
    requires |cs| == 17 && (forall j :: 0 <= j < 17 ==> cs[j].Nil? || WellFormed(cs[j], j == 16))
    requires OnlyIndex(Present(cs)) == -2
    ensures WellFormed(Branch(cs), false)
  {
    var a, b :| 0 <= a < b < 17 && Present(cs)[a] && Present(cs)[b];
    assert !cs[a].Nil? && !cs[b].Nil?;
  }

  lemma OneLeft(cs: seq<Tree>, pos: nat)
    requires |cs| == 17 && pos < 17 && WellFormed(cs[pos], pos == 16)
    ensures pos < 16 ==> WellFormed(Prepend([pos as Byte], cs[pos]), false)
    ensures pos == 16 ==> WellFormed(Ext([pos as Byte], cs[pos]), false)
  {
    if pos < 16 { PrependWellFormed([pos as Byte], cs[pos]); }
  }

  /** Replacing one child of a branch leaves another. */
  lemma StillPresent(cs: seq<Tree>, i: Byte, t: Tree)
    requires i < 17 && |cs| == 17 && Forks(cs)
    ensures OnlyIndex(Present(cs[i := t])) != -1
  {
    var a, b :| 0 <= a < b < 17 && !cs[a].Nil? && !cs[b].Nil?;
    var j := if a != i as int then a else b;
    assert Present(cs[i := t])[j];
  }
}
