/**
  Jump destination analysis (vm/analysis.go): a packed bitmap of the data bytes of
  a program, against the plain scan over its instructions.
 */
module Analysis {
  import opened Hex

  const JUMPDEST: Byte := 0x5b
  const PUSH1: Byte := 0x60
  const PUSH32: Byte := 0x7f

  // ----- the plain scan -----

  predicate IsPush(op: Byte) {
    PUSH1 <= op <= PUSH32
  }

  /** Bytes that belong to an instruction, its opcode included. */
  function Length(op: Byte): (n: nat)
    ensures 1 <= n <= 33
  {
    if IsPush(op) then (op - PUSH1) as int + 2 else 1
  }

  /** Whether scanning on from an instruction at pc comes by target. */
  predicate Scan(code: Bytes, pc: nat, target: nat)
    decreases target - pc
  {
    pc == target || (pc < target && pc < |code| && Scan(code, pc + Length(code[pc]), target))
  }

  /** An instruction starts here; the end of the code counts. */
  predicate IsStart(code: Bytes, pc: nat) {
    Scan(code, 0, pc)
  }

  lemma {:induction false} ScanNext(code: Bytes, from: nat, pc: nat)
    requires Scan(code, from, pc) && pc < |code|
    ensures Scan(code, from, pc + Length(code[pc]))
    decreases pc - from
  {
    if from < pc { ScanNext(code, from + Length(code[from]), pc); }
  }

  /** Nothing starts between an instruction and the next. */
  lemma {:induction false} ScanGap(code: Bytes, from: nat, pc: nat, q: nat)
    requires Scan(code, from, pc) && pc < |code| && pc < q < pc + Length(code[pc])
    ensures !Scan(code, from, q)
    decreases pc - from
  {
    if from < pc { ScanGap(code, from + Length(code[from]), pc, q); }
  }

  // ----- bits -----

  function Mask(i: nat): bv8
    requires i < 8
  {
    0x80 >> i
  }

  lemma SetBit(b: bv8, i: nat, j: nat)
    requires i < 8 && j < 8
    ensures (b | Mask(i)) & Mask(j) != 0 <==> i == j || b & Mask(j) != 0
  {
    Masks();
  }

  lemma Masks()
    ensures Mask(0) == 0x80 && Mask(1) == 0x40 && Mask(2) == 0x20 && Mask(3) == 0x10
    ensures Mask(4) == 0x08 && Mask(5) == 0x04 && Mask(6) == 0x02 && Mask(7) == 0x01
  {
  }

  function Tail(i: nat): bv8
    requires i < 8
  {
    0xFF >> i
  }

  lemma SetTail(b: bv8, i: nat, j: nat)
    requires i < 8 && j < 8
    ensures (b | Tail(i)) & Mask(j) != 0 <==> i <= j || b & Mask(j) != 0
    ensures (b | !Tail(i)) & Mask(j) != 0 <==> j < i || b & Mask(j) != 0
  {
    Masks();
    Tails();
  }

  lemma Tails()
    ensures Tail(0) == 0xFF && Tail(1) == 0x7F && Tail(2) == 0x3F && Tail(3) == 0x1F
    ensures Tail(4) == 0x0F && Tail(5) == 0x07 && Tail(6) == 0x03 && Tail(7) == 0x01
  {
  }

  predicate Bit(bits: seq<bv8>, pos: nat)
    requires pos / 8 < |bits|
  {
    bits[pos / 8] & Mask(pos % 8) != 0
  }

  /** The bits of the second vector are those of the first, and those from lo up to hi. */
  ghost predicate Sets(bits: seq<bv8>, bits': seq<bv8>, lo: nat, hi: nat) {
    |bits'| == |bits| && forall q: nat :: q / 8 < |bits| ==> (Bit(bits', q) <==> Bit(bits, q) || lo <= q < hi)
  }

  method Set(bits: array<bv8>, pos: nat)
    requires pos / 8 < bits.Length
    modifies bits
    ensures Sets(old(bits[..]), bits[..], pos, pos + 1)
  {
    ghost var before := bits[..];
    bits[pos / 8] := bits[pos / 8] | (0x80 >> (pos % 8));
    forall q: nat | q / 8 < |before| ensures Bit(bits[..], q) <==> Bit(before, q) || q == pos {
      SetBit(before[pos / 8], pos % 8, q % 8);
    }
  }

  method Set8(bits: array<bv8>, pos: nat)
    requires pos / 8 + 1 < bits.Length
    modifies bits
    ensures Sets(old(bits[..]), bits[..], pos, pos + 8)
  {
    ghost var before := bits[..];
    bits[pos / 8] := bits[pos / 8] | (0xFF >> (pos % 8));
    bits[pos / 8 + 1] := bits[pos / 8 + 1] | !(0xFF >> (pos % 8));
    forall q: nat | q / 8 < |before| ensures Bit(bits[..], q) <==> Bit(before, q) || pos <= q < pos + 8 {
      SetTail(before[q / 8], pos % 8, q % 8);
      Within8(pos, q);
    }
  }

  lemma Within8(pos: nat, q: nat)
    ensures pos <= q < pos + 8 <==> (q / 8 == pos / 8 && pos % 8 <= q % 8) || (q / 8 == pos / 8 + 1 && q % 8 < pos % 8)
  {
    assert pos == 8 * (pos / 8) + pos % 8 && q == 8 * (q / 8) + q % 8;
  }

  lemma SetsMore(a: seq<bv8>, b: seq<bv8>, c: seq<bv8>, lo: nat, mid: nat, hi: nat)
    requires Sets(a, b, lo, mid) && Sets(b, c, mid, hi) && lo <= mid <= hi
    ensures Sets(a, c, lo, hi)
  {
  }

  /** Mark n data bytes from pos: eight at a time, then one by one. */
  method SetData(bits: array<bv8>, pos: nat, n: nat)
    requires 0 < n <= 32 && (pos + n - 1) / 8 < bits.Length && (n >= 8 ==> (pos + n) / 8 < bits.Length)
    modifies bits
    ensures Sets(old(bits[..]), bits[..], pos, pos + n)
  {
    var pc, numbits := pos, n;
    ghost var before := bits[..];
    while numbits >= 8
      invariant pc + numbits == pos + n && pc >= pos && Sets(before, bits[..], pos, pc)
    {
      ghost var last := bits[..];
      Set8(bits, pc);
      SetsMore(before, last, bits[..], pos, pc, pc + 8);
      pc, numbits := pc + 8, numbits - 8;
    }
    while numbits > 0
      invariant pc + numbits == pos + n && pc >= pos && Sets(before, bits[..], pos, pc)
    {
      ghost var last := bits[..];
      Set(bits, pc);
      SetsMore(before, last, bits[..], pos, pc, pc + 1);
      pc, numbits := pc + 1, numbits - 1;
    }
  }

  /** Below pc the bits are set exactly where no instruction starts; from pc on none is set. */
  ghost predicate Marked(code: Bytes, bits: seq<bv8>, pc: nat) {
    forall q: nat :: q / 8 < |bits| ==> (Bit(bits, q) <==> q < pc && !IsStart(code, q))
  }

  lemma MarkedNext(code: Bytes, bits: seq<bv8>, bits': seq<bv8>, pc: nat)
    requires pc < |code| && IsStart(code, pc) && Marked(code, bits, pc)
    requires Sets(bits, bits', pc + 1, pc + Length(code[pc]))
    ensures IsStart(code, pc + Length(code[pc])) && Marked(code, bits', pc + Length(code[pc]))
  {
    ScanNext(code, 0, pc);
    forall q: nat | q / 8 < |bits'| ensures Bit(bits', q) <==> q < pc + Length(code[pc]) && !IsStart(code, q) {
      if pc < q < pc + Length(code[pc]) { ScanGap(code, 0, pc, q); }
    }
  }

  /** The bits describe the code: a clear bit is an instruction start. */
  ghost predicate Describes(bits: seq<bv8>, code: Bytes) {
    |bits| == |code| / 8 + 5 && forall pos: nat :: pos < |code| ==> (Bit(bits, pos) <==> !IsStart(code, pos))
  }

  /** codeSegment: in a bitmap of the code, whether an instruction starts at the position. */
  method CodeSegment(bits: seq<bv8>, pos: nat, ghost code: Bytes) returns (r: bool)
    requires pos < |code| && Describes(bits, code)
    ensures r <==> IsStart(code, pos)
  {
    r := bits[pos / 8] & (0x80 >> (pos % 8)) == 0;
  }

  /** The bitmap marks exactly the bytes of the code at which no instruction starts. */
  method CodeBitmap(code: Bytes) returns (bits: array<bv8>)
    ensures fresh(bits) && Describes(bits[..], code)
  {
    bits := new bv8[|code| / 8 + 1 + 4](i => 0);
    assert forall q: nat :: q / 8 < |bits[..]| ==> bits[..][q / 8] == 0;
    var pc := 0;
    while pc < |code|
      invariant IsStart(code, pc) && Marked(code, bits[..], pc)
    {
      ghost var before := bits[..];
      var op := code[pc];
      if IsPush(op) {
        SetData(bits, pc + 1, (op - PUSH1) as int + 1);
      }
      MarkedNext(code, before, bits[..], pc);
      pc := pc + Length(op);
    }
  }
}
