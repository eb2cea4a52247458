/**
  Database keys of trie nodes (muxdb/trie_node_key_buf.go): the hash preceded by
  at most 15 nibbles of the path and their number, packed into eight bytes.
 */
module NodeKeys {
  import opened Hex

  const PathSlot := 8
  const MaxNibbles := 15

  function Shorten(path: Path): (r: Path)
    ensures |r| <= MaxNibbles && r <= path
  {
    if |path| > MaxNibbles then path[..MaxNibbles] else path
  }

  function Zeros(n: nat): (r: Path)
    ensures |r| == n && forall i :: 0 <= i < n ==> r[i] == 0
  {
    seq(n, i => 0)
  }

  /** The sixteen nibbles of the slot. */
  function SlotNibbles(path: Path): (r: Path)
    requires IsNibbles(path)
    ensures |r| == 16 && IsNibbles(r)
  {
    var p := Shorten(path);
    if p == [] then [8] + Zeros(15) else p + Zeros(MaxNibbles - |p|) + [|p| as Byte]
  }

  function CompactPath(path: Path): (r: Bytes)
    requires IsNibbles(path)
    ensures |r| == PathSlot
  {
    Pack(SlotNibbles(path))
  }

  /** Keys keep apart exactly the paths that differ within their first 15 nibbles, or in length up to that. */
  lemma CompactPathInjective(p: Path, q: Path)
    requires IsNibbles(p) && IsNibbles(q)
    ensures CompactPath(p) == CompactPath(q) <==> Shorten(p) == Shorten(q)
  {
    if CompactPath(p) == CompactPath(q) {
      UnpackPack(SlotNibbles(p));
      UnpackPack(SlotNibbles(q));
      SlotInjective(Shorten(p), SlotNibbles(p));
      SlotInjective(Shorten(q), SlotNibbles(q));
    }
  }

  /** A slot tells the nibbles it was made from. */
  lemma SlotInjective(p: Path, slot: Path)
    requires |p| <= MaxNibbles && |slot| == 16
    requires slot == if p == [] then [8] + Zeros(15) else p + Zeros(MaxNibbles - |p|) + [|p| as Byte]
    ensures slot[15] as int == |p| && slot[..|p|] == p
  {
  }

  /** compactPath: the slot is cleared, then filled nibble by nibble. */
  method FillPathSlot(slot: array<Byte>, path: Path)
    requires slot.Length == PathSlot && IsNibbles(path)
    modifies slot
    ensures slot[..] == CompactPath(path)
  {
    ClearSlot(slot);
    var pathLen := |path|;
    if pathLen > MaxNibbles { pathLen := MaxNibbles; }
    if pathLen > 0 {
      FillNibbles(slot, path, pathLen);
      slot[7] := slot[7] + pathLen as Byte;
    } else {
      slot[0] := 8 * 16;
    }
    SlotHolds(slot[..], path, pathLen);
  }

  method ClearSlot(slot: array<Byte>)
    requires slot.Length == PathSlot
    modifies slot
    ensures forall j :: 0 <= j < 8 ==> slot[j] == 0
  {
    var i := 0;
    while i < 8
      invariant 0 <= i <= 8
      invariant forall j :: 0 <= j < i ==> slot[j] == 0
    {
      slot[i] := 0;
      i := i + 1;
    }
  }

  /** Even nibbles are the upper halves of bytes, odd ones the lower. */
  method FillNibbles(slot: array<Byte>, path: Path, pathLen: nat)
    requires slot.Length == PathSlot && IsNibbles(path) && pathLen <= |path| && pathLen <= MaxNibbles
    requires forall j :: 0 <= j < 8 ==> slot[j] == 0
    modifies slot
    ensures forall j :: 0 <= j < 8 ==> slot[j] == 16 * Half(path, pathLen, 2 * j) + Half(path, pathLen, 2 * j + 1)
  {
    var i := 0;
    while i < pathLen
      invariant 0 <= i <= pathLen
      invariant forall j :: 0 <= j < 8 ==> slot[j] == 16 * Half(path, i, 2 * j) + Half(path, i, 2 * j + 1)
    {
      if i % 2 == 0 {
        slot[i / 2] := slot[i / 2] + path[i] * 16;
      } else {
        slot[i / 2] := slot[i / 2] + path[i];
      }
      i := i + 1;
    }
  }

  /** Nibble k of the slot after the first n nibbles of the path have been put in. */
  function Half(path: Path, n: nat, k: nat): (r: Byte)
    requires n <= |path| && IsNibbles(path)
    ensures r < 16
  {
    if k < n then path[k] else 0
  }

  lemma SlotHolds(slot: Bytes, path: Path, pathLen: nat)
    requires |slot| == PathSlot && IsNibbles(path) && pathLen == if |path| > MaxNibbles then MaxNibbles else |path|
    requires forall j :: 0 <= j < 7 ==>
               slot[j] == if pathLen == 0 then (if j == 0 then 128 else 0) else 16 * Half(path, pathLen, 2 * j) + Half(path, pathLen, 2 * j + 1)
    requires slot[7] == if pathLen == 0 then 0 else 16 * Half(path, pathLen, 14) + pathLen as Byte
    ensures slot == CompactPath(path)
  {
    var want := SlotNibbles(path);
    forall j | 0 <= j < 8 ensures slot[j] == 16 * want[2 * j] + want[2 * j + 1] {
      if pathLen > 0 && j < 7 { assert want[2 * j] == Half(path, pathLen, 2 * j) && want[2 * j + 1] == Half(path, pathLen, 2 * j + 1); }
    }
    PackPairs(want, slot);
  }

  lemma {:induction false} PackPairs(s: Path, r: Bytes)
    requires |s| == 2 * |r| && IsNibbles(s)
    requires forall j :: 0 <= j < |r| ==> r[j] == 16 * s[2 * j] + s[2 * j + 1]
    ensures r == Pack(s)
    decreases |r|
  {
    if r != [] {
      forall j | 0 <= j < |r[1..]| ensures r[1..][j] == 16 * s[2..][2 * j] + s[2..][2 * j + 1] {
        assert r[1..][j] == r[j + 1] && s[2..][2 * j] == s[2 * (j + 1)] && s[2..][2 * j + 1] == s[2 * (j + 1) + 1];
      }
      PackPairs(s[2..], r[1..]);
      assert r == [r[0]] + r[1..];
    }
  }
}
