/**
  Key encodings of the trie (trie/encoding.go): KEYBYTES, HEX (one nibble per
  element with an optional terminator 16) and COMPACT, the hex-prefix encoding of
  Appendix C of the Ethereum Yellow Paper.
 */
module Hex {

  newtype Byte = b: int | 0 <= b < 256
  type Bytes = seq<Byte>

  /** A HEX path: nibbles, possibly closed by the terminator. */
  type Path = seq<Byte>

  const TERM: Byte := 16

  datatype Option<+T> = None | Some(value: T)

  /** Only nibbles, no terminator. */
  predicate IsNibbles(s: Path) {
    forall i :: 0 <= i < |s| ==> s[i] < 16
  }

  /** A piece of a key: nibbles everywhere, with a terminator allowed in last place. */
  predicate IsSegment(s: Path) {
    forall i :: 0 <= i < |s| ==> s[i] < 16 || (i == |s| - 1 && s[i] == TERM)
  }

  /** What is left of a terminated key: empty, or ending in its only terminator. */
  predicate IsKey(s: Path) {
    IsSegment(s) && (|s| > 0 ==> s[|s| - 1] == TERM)
  }

  predicate HasTerm(s: Path) {
    |s| > 0 && s[|s| - 1] == TERM
  }

  // ----- specification functions -----

  function Unpack(s: Bytes): (r: Path)
    ensures |r| == 2 * |s| && IsNibbles(r)
  {
    if s == [] then [] else [s[0] / 16, s[0] % 16] + Unpack(s[1..])
  }

  function Pack(s: Path): (r: Bytes)
    requires |s| % 2 == 0 && IsNibbles(s)
    ensures |r| == |s| / 2
  {
    if s == [] then [] else [16 * s[0] + s[1]] + Pack(s[2..])
  }

  /** The HEX form of a byte key. */
  function HexOf(key: Bytes): (r: Path)
    ensures |r| == 2 * |key| + 1 && IsKey(r)
  {
    Unpack(key) + [TERM]
  }

  /** Two if the encoded key is terminated, plus one if it has an odd number of nibbles. */
  function FlagNibble(term: bool, odd: bool): (r: Byte)
    ensures r < 4 && (r >= 2 <==> term) && (r % 2 == 1 <==> odd)
  {
    (if term then 2 else 0) + (if odd then 1 else 0)
  }

  /** The hex-prefix encoding: a flag nibble, then the nibbles packed two to a byte. */
  function CompactOf(hex: Path): (r: Bytes)
    requires IsSegment(hex)
  {
    var term := HasTerm(hex);
    var body := if term then hex[..|hex| - 1] else hex;
    if |body| % 2 == 1
    then [16 * FlagNibble(term, true) + body[0]] + Pack(body[1..])
    else [16 * FlagNibble(term, false) + 0] + Pack(body)
  }

  /** Drop the flag nibble, the padding nibble of an even length, and an unset terminator. */
  function Chop(base: Path): (r: Path)
    requires |base| >= 3
  {
    var trimmed := if base[0] < 2 then base[..|base| - 1] else base;
    if base[0] % 2 == 1 then trimmed[1..] else trimmed[2..]
  }

  /** Decoding of any byte string as hex-prefix, as the source does it. */
  function HexOfCompact(compact: Bytes): (r: Path)
    ensures IsSegment(r)
  {
    if compact == [] then [] else Chop(HexOf(compact))
  }

  /** The greatest length on which a and b agree. */
  function PrefixLen(a: Path, b: Path): (n: nat)
    ensures n <= |a| && n <= |b|
    ensures a[..n] == b[..n]
    ensures n < |a| && n < |b| ==> a[n] != b[n]
  {
    if a == [] || b == [] || a[0] != b[0] then 0
    else
      var n := 1 + PrefixLen(a[1..], b[1..]);
      assert a[..n] == [a[0]] + a[1..][..n - 1];
      assert b[..n] == [b[0]] + b[1..][..n - 1];
      n
  }

  // ----- round trips -----

  lemma {:induction false} PackUnpack(s: Bytes)
    ensures Pack(Unpack(s)) == s
  {
    if s != [] {
      PackUnpack(s[1..]);
      assert Unpack(s)[2..] == Unpack(s[1..]);
    }
  }

  lemma {:induction false} UnpackPack(s: Path)
    requires |s| % 2 == 0 && IsNibbles(s)
    ensures Unpack(Pack(s)) == s
  {
    if s != [] {
      UnpackPack(s[2..]);
      assert Pack(s)[1..] == Pack(s[2..]);
      assert s == [s[0], s[1]] + s[2..];
    }
  }

  /** Distinct byte keys have distinct HEX keys. */
  lemma HexInjective(a: Bytes, b: Bytes)
    requires HexOf(a) == HexOf(b)
    ensures a == b
  {
    assert Unpack(a) == HexOf(a)[..2 * |a|];
    assert Unpack(b) == HexOf(b)[..2 * |b|];
    PackUnpack(a);
    PackUnpack(b);
  }

  /** A key from its odd first nibble, its paired nibbles and its terminator. */
  function Assemble(term: bool, odd: bool, lo: Byte, rest: Path): (r: Path) {
    var tail := if term then rest + [TERM] else rest;
    if odd then [lo] + tail else tail
  }

  lemma ChopFlag(term: bool, odd: bool, lo: Byte, rest: Path)
    ensures Chop([FlagNibble(term, odd), lo] + rest + [TERM]) == Assemble(term, odd, lo, rest)
  {
    var hi := FlagNibble(term, odd);
    var base := [hi, lo] + rest + [TERM];
    var tail := if term then rest + [TERM] else rest;
    var trimmed := if term then base else base[..|base| - 1];
    assert trimmed == [hi, lo] + tail;
    assert trimmed[1..] == [lo] + tail && trimmed[2..] == tail;
  }

  /** The first byte holds the flag nibble and, for an odd length, the first nibble `lo`. */
  lemma DecodeFlagByte(term: bool, odd: bool, lo: Byte, c: Bytes)
    requires lo < 16 && |c| > 0 && c[0] == 16 * FlagNibble(term, odd) + lo
    ensures HexOfCompact(c) == Assemble(term, odd, lo, Unpack(c[1..]))
  {
    var hi := FlagNibble(term, odd);
    assert c[0] / 16 == hi && c[0] % 16 == lo;
    assert HexOf(c) == [hi, lo] + Unpack(c[1..]) + [TERM];
    ChopFlag(term, odd, lo, Unpack(c[1..]));
  }

  lemma AssembleBody(hex: Path)
    ensures var term := HasTerm(hex);
            var body := if term then hex[..|hex| - 1] else hex;
            && Assemble(term, false, 0, body) == hex
            && (|body| > 0 ==> Assemble(term, true, body[0], body[1..]) == hex)
  {
  }

  /** CompactOf, read byte by byte. */
  lemma CompactPieces(hex: Path, c: Bytes)
    requires IsSegment(hex) && |c| > 0
    requires var term := HasTerm(hex);
             var body := if term then hex[..|hex| - 1] else hex;
             if |body| % 2 == 1
             then c[0] == 16 * FlagNibble(term, true) + body[0] && c[1..] == Pack(body[1..])
             else c[0] == 16 * FlagNibble(term, false) && c[1..] == Pack(body)
    ensures c == CompactOf(hex)
  {
    assert c == [c[0]] + c[1..];
  }

  /** Hex-prefix decoding undoes hex-prefix encoding on every key segment. */
  lemma CompactRoundTrip(hex: Path)
    requires IsSegment(hex)
    ensures HexOfCompact(CompactOf(hex)) == hex
  {
    var term := HasTerm(hex);
    var body := if term then hex[..|hex| - 1] else hex;
    var c := CompactOf(hex);
    AssembleBody(hex);
    if |body| % 2 == 1 {
      assert c[1..] == Pack(body[1..]);
      DecodeFlagByte(term, true, body[0], c);
      UnpackPack(body[1..]);
    } else {
      assert c[1..] == Pack(body);
      DecodeFlagByte(term, false, 0, c);
      UnpackPack(body);
    }
  }

  // ----- the loops of the source -----

  /** keybytesToHex. */
  method KeybytesToHex(str: Bytes) returns (r: Path)
    ensures r == HexOf(str)
  {
    var l := |str| * 2 + 1;
    var nibbles := new Byte[l](_ => 0);
    var i := 0;
    while i < |str|
      invariant 0 <= i <= |str|
      invariant nibbles[..2 * i] == Unpack(str[..i])
    {
      nibbles[i * 2] := str[i] / 16;
      nibbles[i * 2 + 1] := str[i] % 16;
      UnpackSnoc(str[..i], str[i]);
      assert str[..i + 1] == str[..i] + [str[i]];
      assert nibbles[..2 * (i + 1)] == nibbles[..2 * i] + [str[i] / 16, str[i] % 16];
      i := i + 1;
    }
    nibbles[l - 1] := TERM;
    assert str[..i] == str;
    assert nibbles[..] == nibbles[..2 * i] + [TERM];
    return nibbles[..];
  }

  lemma {:induction false} UnpackSnoc(s: Bytes, b: Byte)
    ensures Unpack(s + [b]) == Unpack(s) + [b / 16, b % 16]
  {
    if s != [] {
      UnpackSnoc(s[1..], b);
      assert (s + [b])[1..] == s[1..] + [b];
    }
  }

  lemma {:induction false} PackSnoc(s: Path, x: Byte, y: Byte)
    requires |s| % 2 == 0 && IsNibbles(s) && x < 16 && y < 16
    ensures Pack(s + [x, y]) == Pack(s) + [16 * x + y]
  {
    if s != [] {
      PackSnoc(s[2..], x, y);
      assert (s + [x, y])[2..] == s[2..] + [x, y];
    } else {
      assert s + [x, y] == [x, y];
    }
  }

  /** decodeNibbles, writing from index `from` of the buffer on. */
  method DecodeNibbles(nibbles: Path, bytes: array<Byte>, from: nat)
    requires |nibbles| % 2 == 0 && IsNibbles(nibbles)
    requires from + |nibbles| / 2 <= bytes.Length
    modifies bytes
    ensures bytes[from..from + |nibbles| / 2] == Pack(nibbles)
    ensures bytes[..from] == old(bytes[..from])
    ensures bytes[from + |nibbles| / 2..] == old(bytes[from + |nibbles| / 2..])
  {
    var bi, ni := 0, 0;
    while ni < |nibbles|
      invariant ni == 2 * bi && 0 <= ni <= |nibbles|
      invariant bytes[from..from + bi] == Pack(nibbles[..ni])
      invariant bytes[..from] == old(bytes[..from])
      invariant forall j :: from + |nibbles| / 2 <= j < bytes.Length ==> bytes[j] == old(bytes[j])
    {
      bytes[from + bi] := nibbles[ni] * 16 + nibbles[ni + 1];
      PackSnoc(nibbles[..ni], nibbles[ni], nibbles[ni + 1]);
      assert nibbles[..ni + 2] == nibbles[..ni] + [nibbles[ni], nibbles[ni + 1]];
      assert bytes[from..from + bi + 1] == bytes[from..from + bi] + [bytes[from + bi]];
      bi, ni := bi + 1, ni + 2;
    }
    assert nibbles[..ni] == nibbles;
  }

  /** hexToCompact. */
  method HexToCompact(hex: Path) returns (r: Bytes)
    requires IsSegment(hex)
    ensures r == CompactOf(hex)
  {
    var terminator, rest := false, hex;
    if HasTerm(hex) {
      terminator := true;
      rest := hex[..|hex| - 1];
    }
    var buf := new Byte[|rest| / 2 + 1](_ => 0);
    buf[0] := if terminator then 32 else 0;
    if |rest| % 2 == 1 {
      buf[0] := buf[0] + 16 + rest[0];
      rest := rest[1..];
    }
    ghost var flagByte := buf[0];
    DecodeNibbles(rest, buf, 1);
    r := buf[..];
    assert r[0] == buf[..1][0] == flagByte;
    assert r[1..] == buf[1..1 + |rest| / 2];
    CompactPieces(hex, r);
  }

  /** hexToKeybytes: None stands for the panic on an odd number of nibbles. */
  method HexToKeybytes(hex: Path) returns (r: Option<Bytes>)
    requires IsSegment(hex)
    ensures r.None? <==> (|hex| - if HasTerm(hex) then 1 else 0) % 2 == 1
    ensures r.Some? ==> Unpack(r.value) == if HasTerm(hex) then hex[..|hex| - 1] else hex
  {
    var rest := if HasTerm(hex) then hex[..|hex| - 1] else hex;
    if |rest| % 2 != 0 { return None; }
    var key := new Byte[|rest| / 2](_ => 0);
    DecodeNibbles(rest, key, 0);
    UnpackPack(rest);
    assert key[..] == key[0..0 + |rest| / 2];
    return Some(key[..]);
  }

  /** prefixLen. */
  method ComputePrefixLen(a: Path, b: Path) returns (i: nat)
    ensures i == PrefixLen(a, b)
  {
    var length := |a|;
    if |b| < length { length := |b|; }
    i := 0;
    while i < length
      invariant 0 <= i <= length
      invariant PrefixLen(a, b) == i + PrefixLen(a[i..], b[i..])
    {
      if a[i] != b[i] { return; }
      assert a[i..][1..] == a[i + 1..] && b[i..][1..] == b[i + 1..];
      i := i + 1;
    }
  }
}
