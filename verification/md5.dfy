/**
 * The digest column of the output manifest (examples/parallel_decompile.rs:737-809) by RFC 1321:
 * padding (sections 3.1 and 3.2) and the four rounds (section 3.4) over 32-bit words.
 *
 * The RFC lists sixteen operations for each round, with the registers renamed from one to the
 * next; the source runs one loop of 64 steps that computes the word index and the selector and
 * turns the registers.  The two are compared over any type of word and any operation first.
 */
module Md5 {
  import opened LittleEndian

  type Word = bv32

  type Octets = seq<bv8>

  type Shift = s: nat | s <= 32
  type Index = i: nat | i < 16

  /** The per-step shifts of the source, one line of its table for each round. */
  function ShiftLine(round: nat): (s: seq<Shift>)
    ensures |s| == 16
  {
    if round == 0 then [7, 12, 17, 22, 7, 12, 17, 22, 7, 12, 17, 22, 7, 12, 17, 22]
    else if round == 1 then [5, 9, 14, 20, 5, 9, 14, 20, 5, 9, 14, 20, 5, 9, 14, 20]
    else if round == 2 then [4, 11, 16, 23, 4, 11, 16, 23, 4, 11, 16, 23, 4, 11, 16, 23]
    else [6, 10, 15, 21, 6, 10, 15, 21, 6, 10, 15, 21, 6, 10, 15, 21]
  }

  /** The table of sines, four for each row of the operation list. */
  function SineRow(n: nat): (k: seq<Word>)
    ensures |k| == 4
  {
    match n
    case 0 => [0xd76aa478, 0xe8c7b756, 0x242070db, 0xc1bdceee]
    case 1 => [0xf57c0faf, 0x4787c62a, 0xa8304613, 0xfd469501]
    case 2 => [0x698098d8, 0x8b44f7af, 0xffff5bb1, 0x895cd7be]
    case 3 => [0x6b901122, 0xfd987193, 0xa679438e, 0x49b40821]
    case 4 => [0xf61e2562, 0xc040b340, 0x265e5a51, 0xe9b6c7aa]
    case 5 => [0xd62f105d, 0x02441453, 0xd8a1e681, 0xe7d3fbc8]
    case 6 => [0x21e1cde6, 0xc33707d6, 0xf4d50d87, 0x455a14ed]
    case 7 => [0xa9e3e905, 0xfcefa3f8, 0x676f02d9, 0x8d2a4c8a]
    case 8 => [0xfffa3942, 0x8771f681, 0x6d9d6122, 0xfde5380c]
    case 9 => [0xa4beea44, 0x4bdecfa9, 0xf6bb4b60, 0xbebfbc70]
    case 10 => [0x289b7ec6, 0xeaa127fa, 0xd4ef3085, 0x04881d05]
    case 11 => [0xd9d4d039, 0xe6db99e5, 0x1fa27cf8, 0xc4ac5665]
    case 12 => [0xf4292244, 0x432aff97, 0xab9423a7, 0xfc93a039]
    case 13 => [0x655b59c3, 0x8f0ccc92, 0xffeff47d, 0x85845dd1]
    case 14 => [0x6fa87e4f, 0xfe2ce6e0, 0xa3014314, 0x4e0811a1]
    case _ => [0xf7537e82, 0xbd3af235, 0x2ad7d2bb, 0xeb86d391]
  }

  // ---------- Padding ----------

  function Zeros(n: nat): Octets { seq(n, i => 0) }

  /** The byte of a number below 256, bit by bit. */
  function Bits(n: nat, k: nat): bv8
    requires k <= 8
  {
    if k == 0 then 0 else (Bits(n / 2, k - 1) << 1) | (if n % 2 == 1 then 1 else 0)
  }

  function Octet(b: Byte): bv8 { Bits(b, 8) }

  /** The low eight bytes of `n`, least significant first. */
  function LittleEndian64(n: nat): (b: Octets)
    ensures |b| == 8
  {
    seq(8, i requires 0 <= i < 8 => Octet(LowBytes(n, 8)[i]))
  }

  /** The fewest zero bytes that leave room for the length field (section 3.1). */
  function Gap(length: nat): (g: nat)
    ensures g < 64 && (length + 1 + g) % 64 == 56
  {
    (119 - length % 64) % 64
  }

  /** Sections 3.1 and 3.2: a one bit, zeros, and the bit length. */
  function Padded(data: Octets): Octets {
    data + [0x80] + Zeros(Gap(|data|)) + LittleEndian64(8 * |data|)
  }

  /** The padding loop ends, with exactly the zeros the RFC asks for. */
  method PadZeros(data: Octets) returns (msg: Octets)
    ensures msg == data + [0x80] + Zeros(Gap(|data|))
  {
    msg := data + [0x80];
    ghost var g := 0;
    while |msg| % 64 != 56
      invariant g <= Gap(|data|) && msg == data + [0x80] + Zeros(g) && |msg| == |data| + 1 + g
      decreases Gap(|data|) - g
    {
      GapOpen(|data|, g);
      assert Zeros(g + 1) == Zeros(g) + [0];
      msg := msg + [0];
      g := g + 1;
    }
    GapUnique(|data|, g);
  }

  method Pad(data: Octets) returns (msg: Octets)
    ensures msg == Padded(data)
  {
    var bitLen := |data| * 8 % 0x1_0000_0000_0000_0000;
    msg := PadZeros(data);
    FieldWraps(|data| * 8);
    msg := msg + LittleEndian64(bitLen);
  }

  /** The length field is read modulo 2^64. */
  lemma FieldWraps(n: nat)
    ensures LittleEndian64(n % 0x1_0000_0000_0000_0000) == LittleEndian64(n)
  {
    LowBytesMod(n, 8);
    assert Pow256(8) == 0x1_0000_0000_0000_0000;
  }

  lemma GapOpen(length: nat, g: nat)
    requires g <= Gap(length) && (length + 1 + g) % 64 != 56
    ensures g < Gap(length)
  {
  }

  lemma GapUnique(length: nat, g: nat)
    requires g <= Gap(length) && (length + 1 + g) % 64 == 56
    ensures g == Gap(length)
  {
  }

  function Pow256(k: nat): (p: nat)
    ensures p > 0
  {
    if k == 0 then 1 else 256 * Pow256(k - 1)
  }

  lemma ModUnique(x: nat, m: nat, a: nat, r: nat)
    requires r < m && x == m * a + r
    ensures x % m == r && x / m == a
  {
    MulFar(m, x / m - a);
    assert m * (x / m - a) == m * (x / m) - m * a;
  }

  lemma MulFar(m: nat, k: int)
    ensures k >= 1 ==> m * k >= m
    ensures k <= -1 ==> m * k <= 0 - m
  {
    if k >= 1 { assert m * k == m + m * (k - 1); }
    if k <= -1 { assert m * k == (0 - m) + m * (k + 1); }
  }

  /** Dropping what does not fit the field does not change the field. */
  lemma {:induction false} LowBytesMod(n: nat, k: nat)
    ensures LowBytes(n % Pow256(k), k) == LowBytes(n, k)
    decreases k
  {
    if k > 0 {
      SplitMod(n, Pow256(k - 1));
      LowBytesMod(n / 256, k - 1);
    }
  }

  lemma SplitMod(n: nat, p: nat)
    requires p > 0
    ensures n % (256 * p) % 256 == n % 256 && n % (256 * p) / 256 == n / 256 % p
  {
    var q := n / 256;
    var r := 256 * (q % p) + n % 256;
    MulAssoc(256, p, q / p);
    assert n == (256 * p) * (q / p) + r by {
      assert q == p * (q / p) + q % p;
    }
    ModUnique(n, 256 * p, q / p, r);
  }

  lemma MulAssoc(a: nat, b: nat, c: nat)
    ensures a * (b * c) == (a * b) * c
  {
  }

  /** The padding fills whole blocks and is as short as the length field allows. */
  lemma PadLength(data: Octets)
    ensures |Padded(data)| == |data| + 9 + Gap(|data|) && |Padded(data)| % 64 == 0
    ensures 9 <= |Padded(data)| - |data| <= 72
  {
    GapSum(|data|, Gap(|data|));
  }

  lemma GapSum(n: nat, g: nat)
    requires (n + 1 + g) % 64 == 56
    ensures (n + 9 + g) % 64 == 0
  {
  }

  /** Different messages have different paddings, of whatever length they are: the length field
      is read modulo 2^64, but paddings of equal length differ by less than a block. */
  lemma PaddingInjective(a: Octets, b: Octets)
    ensures Padded(a) == Padded(b) <==> a == b
  {
    if Padded(a) == Padded(b) { SamePadding(a, b); }
  }

  lemma SamePadding(a: Octets, b: Octets)
    requires Padded(a) == Padded(b)
    ensures a == b
  {
    PadLength(a);
    PadLength(b);
    var n := |Padded(a)| - 8;
    assert Padded(a)[n..] == LittleEndian64(8 * |a|) && Padded(b)[n..] == LittleEndian64(8 * |b|);
    SameLength(|a|, |b|);
    assert a == Padded(a)[..|a|] && b == Padded(b)[..|b|];
  }

  lemma SameLength(m: nat, n: nat)
    requires -64 < m - n < 64 && LittleEndian64(8 * m) == LittleEndian64(8 * n)
    ensures m == n
  {
    SameOctet(8 * m, 8 * n, 0);
    SameOctet(8 * m, 8 * n, 1);
    TwoBytes(8 * m, 8);
    TwoBytes(8 * n, 8);
  }

  lemma SameOctet(m: nat, n: nat, i: nat)
    requires i < 8 && LittleEndian64(m) == LittleEndian64(n)
    ensures LowBytes(m, 8)[i] == LowBytes(n, 8)[i]
  {
    var a, b := LowBytes(m, 8)[i], LowBytes(n, 8)[i];
    assert LittleEndian64(m)[i] == Octet(a) && LittleEndian64(n)[i] == Octet(b);
    OctetValue(a);
    OctetValue(b);
  }

  lemma OctetValue(b: Byte)
    ensures Octet(b) as int == b
  {
    BitsValue(b, 8, 256);
  }

  lemma {:induction false} BitsValue(n: nat, k: nat, limit: nat)
    requires k <= 8 && n < limit && limit == (if k == 8 then 256 else if k == 7 then 128 else if k == 6 then 64
      else if k == 5 then 32 else if k == 4 then 16 else if k == 3 then 8 else if k == 2 then 4 else if k == 1 then 2 else 1)
    ensures Bits(n, k) as int == n
    decreases k
  {
    if k > 0 {
      BitsValue(n / 2, k - 1, limit / 2);
      ShiftIn(Bits(n / 2, k - 1), n % 2 == 1);
    }
  }

  lemma ShiftIn(w: bv8, on: bool)
    requires w as int < 128
    ensures ((w << 1) | (if on then 1 else 0)) as int == 2 * (w as int) + (if on then 1 else 0)
  {
    assert w < 0x80;
  }

  lemma TwoBytes(n: nat, k: nat)
    requires k >= 2
    ensures LowBytes(n, k)[0] == n % 256 && LowBytes(n, k)[1] == n / 256 % 256
  {
    assert LowBytes(n, k)[1..] == LowBytes(n / 256, k - 1);
  }

  // ---------- Words ----------

  /** Four bytes, low-order first (section 2). */
  function WordAt(block: Octets, i: nat): Word
    requires 4 * i + 4 <= |block|
  {
    Join(block[4 * i], block[4 * i + 1], block[4 * i + 2], block[4 * i + 3])
  }

  function Join(a: bv8, b: bv8, c: bv8, d: bv8): Word {
    ((d as bv32) << 24) | ((c as bv32) << 16) | ((b as bv32) << 8) | (a as bv32)
  }

  /** The four bytes of a word, low-order first (section 3.5). */
  function WordBytes(w: Word): Octets {
    [(w & 0xff) as bv8, ((w >> 8) & 0xff) as bv8, ((w >> 16) & 0xff) as bv8, ((w >> 24) & 0xff) as bv8]
  }

  lemma OctetsValue(a: bv8, b: bv8, c: bv8, d: bv8)
    ensures (((d as bv32) << 24) | ((c as bv32) << 16) | ((b as bv32) << 8) | (a as bv32)) as int
      == a as int + 0x100 * (b as int) + 0x1_0000 * (c as int) + 0x100_0000 * (d as int)
  {
  }

  lemma JoinValue(a: bv8, b: bv8, c: bv8, d: bv8)
    ensures Join(a, b, c, d) as int == a as int + 0x100 * (b as int) + 0x1_0000 * (c as int) + 0x100_0000 * (d as int)
  {
    calc {
      Join(a, b, c, d) as int;
      (((d as bv32) << 24) | ((c as bv32) << 16) | ((b as bv32) << 8) | (a as bv32)) as int;
      { OctetsValue(a, b, c, d); }
      a as int + 0x100 * (b as int) + 0x1_0000 * (c as int) + 0x100_0000 * (d as int);
    }
  }

  lemma JoinSplits(a: bv8, b: bv8, c: bv8, d: bv8)
    ensures WordBytes(Join(a, b, c, d)) == [a, b, c, d]
  {
  }

  /** The word read at a place is the number whose bytes stand there, low-order first, and
      writing it gives them back. */
  lemma WordReadsBytes(block: Octets, i: nat)
    requires 4 * i + 4 <= |block|
    ensures WordAt(block, i) as int == block[4 * i] as int + 0x100 * (block[4 * i + 1] as int)
      + 0x1_0000 * (block[4 * i + 2] as int) + 0x100_0000 * (block[4 * i + 3] as int)
    ensures WordBytes(WordAt(block, i)) == block[4 * i..4 * i + 4]
  {
    JoinValue(block[4 * i], block[4 * i + 1], block[4 * i + 2], block[4 * i + 3]);
    JoinSplits(block[4 * i], block[4 * i + 1], block[4 * i + 2], block[4 * i + 3]);
  }

  function Words(block: Octets): (m: seq<Word>)
    requires |block| == 64
    ensures |m| == 16
  {
    seq(16, i requires 0 <= i < 16 => WordAt(block, i))
  }

  /** The four registers, over any type of word. */
  datatype Registers<W> = Registers(a: W, b: W, c: W, d: W)

  function Sum(x: Registers<Word>, y: Registers<Word>): Registers<Word> {
    Registers(x.a + y.a, x.b + y.b, x.c + y.c, x.d + y.d)
  }

  // ---------- The four rounds of section 3.4 ----------

  function F(x: Word, y: Word, z: Word): Word { (x & y) | (!x & z) }

  function G(x: Word, y: Word, z: Word): Word { (x & z) | (y & !z) }

  function H(x: Word, y: Word, z: Word): Word { x ^ y ^ z }

  function I(x: Word, y: Word, z: Word): Word { y ^ (x | !z) }

  function Mix(round: nat, x: Word, y: Word, z: Word): Word {
    if round == 0 then F(x, y, z) else if round == 1 then G(x, y, z) else if round == 2 then H(x, y, z) else I(x, y, z)
  }

  function Rotate(w: Word, s: Shift): Word { w.RotateLeft(s) }

  /** b + ((a + f + p + q) <<< s), in wrapping words. */
  function Turned(a: Word, b: Word, f: Word, p: Word, q: Word, s: Shift): Word { b + Rotate(a + f + p + q, s) }

  /** The word indices of the sixteen operations of a round, as the RFC lists them. */
  function IndexList(round: nat): (s: seq<Index>)
    ensures |s| == 16
  {
    if round == 0 then [0, 1, 2, 3, 4, 5, 6, 7, 8, 9, 10, 11, 12, 13, 14, 15]
    else if round == 1 then [1, 6, 11, 0, 5, 10, 15, 4, 9, 14, 3, 8, 13, 2, 7, 12]
    else if round == 2 then [5, 8, 11, 14, 1, 4, 7, 10, 13, 0, 3, 6, 9, 12, 15, 2]
    else [0, 7, 14, 5, 12, 3, 10, 1, 8, 15, 6, 13, 4, 11, 2, 9]
  }

  /** The four shift amounts of a round. */
  function ShiftList(round: nat): (s: seq<Shift>)
    ensures |s| == 4
  {
    if round == 0 then [7, 12, 17, 22] else if round == 1 then [5, 9, 14, 20]
    else if round == 2 then [4, 11, 16, 23] else [6, 10, 15, 21]
  }

  function Sine(i: nat): Word { SineRow(i / 4)[i % 4] }

  /** The operation [abcd k s i] of the RFC's list: a = b + ((a + mix(b,c,d) + X[k] + T[i]) <<< s),
      counting i from 0. */
  function Listed(x: seq<Word>, i: nat, a: Word, b: Word, c: Word, d: Word): Word
    requires |x| == 16
  {
    var round := i / 16;
    Turned(a, b, Mix(round, b, c, d), x[IndexList(round)[i % 16]], Sine(i), ShiftList(round)[i % 4])
  }

  /** An operation computes the new value of the register in role a. */
  type Operation<!W> = (nat, W, W, W, W) -> W

  /** Row `n` of the RFC's list: [ABCD] [DABC] [CDAB] [BCDA] in turn. */
  function Row<W>(op: Operation<W>, r: Registers<W>, n: nat): Registers<W> {
    var a := op(4 * n, r.a, r.b, r.c, r.d);
    var d := op(4 * n + 1, r.d, a, r.b, r.c);
    var c := op(4 * n + 2, r.c, d, a, r.b);
    var b := op(4 * n + 3, r.b, c, d, a);
    Registers(a, b, c, d)
  }

  function Rows<W>(op: Operation<W>, r: Registers<W>, n: nat): Registers<W> {
    if n == 0 then r else Row(op, Rows(op, r, n - 1), n - 1)
  }

  function ListedBy(x: seq<Word>): Operation<Word>
    requires |x| == 16
  {
    (i: nat, a: Word, b: Word, c: Word, d: Word) => Listed(x, i, a, b, c, d)
  }

  /** One block: the sixteen rows, added to the registers they started from. */
  function Block(r: Registers<Word>, x: seq<Word>): Registers<Word>
    requires |x| == 16
  {
    Sum(r, Rows(ListedBy(x), r, 16))
  }

  const INIT: Registers<Word> := Registers(0x67452301, 0xefcdab89, 0x98badcfe, 0x10325476)

  function ChunkAt(msg: Octets, n: nat): (chunk: Octets)
    requires 64 * (n + 1) <= |msg|
    ensures |chunk| == 64
  {
    msg[64 * n..64 * (n + 1)]
  }

  /** The registers after the first `n` blocks of a padded message. */
  function Blocks(msg: Octets, n: nat): Registers<Word>
    requires 64 * n <= |msg|
  {
    if n == 0 then INIT else Block(Blocks(msg, n - 1), Words(ChunkAt(msg, n - 1)))
  }

  function Rfc1321(data: Octets): Octets {
    PadLength(data);
    var r := Blocks(Padded(data), |Padded(data)| / 64);
    WordBytes(r.a) + WordBytes(r.b) + WordBytes(r.c) + WordBytes(r.d)
  }

  const DIGITS := "0123456789abcdef"

  function HexByte(b: bv8): string { [DIGITS[(b >> 4) as int], DIGITS[(b & 0xf) as int]] }

  function Hex(bytes: Octets): string {
    if bytes == [] then "" else Hex(bytes[..|bytes| - 1]) + HexByte(bytes[|bytes| - 1])
  }

  // ---------- The single loop of the source ----------

  /** The selector of step `i`. */
  function Selector(i: nat, b: Word, c: Word, d: Word): Word {
    if i / 16 == 0 then (b & c) | (!b & d)
    else if i / 16 == 1 then (d & b) | (!d & c)
    else if i / 16 == 2 then b ^ c ^ d
    else c ^ (b | !d)
  }

  /** The word index of step `i`. */
  function Computed(i: nat): Index {
    if i / 16 == 0 then i
    else if i / 16 == 1 then (5 * i + 1) % 16
    else if i / 16 == 2 then (3 * i + 5) % 16
    else (7 * i) % 16
  }

  /** What step `i` of the loop puts into register b. */
  function Stepped(x: seq<Word>, i: nat, a: Word, b: Word, c: Word, d: Word): Word
    requires |x| == 16
  {
    Turned(a, b, Selector(i, b, c, d), Sine(i), x[Computed(i)], ShiftLine(i / 16)[i % 16])
  }

  function SteppedBy(x: seq<Word>): Operation<Word>
    requires |x| == 16
  {
    (i: nat, a: Word, b: Word, c: Word, d: Word) => Stepped(x, i, a, b, c, d)
  }

  /** The loop turns the registers by one role at each step. */
  function Steps<W>(op: Operation<W>, r: Registers<W>, n: nat): Registers<W> {
    if n == 0 then r
    else
      var p := Steps(op, r, n - 1);
      Registers(p.d, op(n - 1, p.a, p.b, p.c, p.d), p.b, p.c)
  }

  /** The computed word index is the RFC's list, and the shift line repeats its four shifts. */
  lemma TablesMatch(round: nat, k: nat)
    requires round < 4 && k < 16
    ensures Computed(16 * round + k) == IndexList(round)[k]
    ensures ShiftLine(round)[k] == ShiftList(round)[k % 4]
  {
    IndicesMatch(round, k);
    ShiftsMatch(round, k);
  }

  lemma IndicesMatch(round: nat, k: nat)
    requires round < 4 && k < 16
    ensures Computed(16 * round + k) == IndexList(round)[k]
  {
    assert (16 * round + k) / 16 == round;
    match round
    case 0 => FirstList(k);
    case 1 => SecondList(k);
    case 2 => ThirdList(k);
    case _ => FourthList(k);
  }

  lemma FirstList(k: nat)
    requires k < 16
    ensures k == IndexList(0)[k]
  {
    match k
    case 0 => case 1 => case 2 => case 3 => case 4 => case 5 => case 6 => case 7 =>
    case 8 => case 9 => case 10 => case 11 => case 12 => case 13 => case 14 => case _ =>
  }

  lemma SecondList(k: nat)
    requires k < 16
    ensures (5 * (16 + k) + 1) % 16 == IndexList(1)[k]
  {
    match k
    case 0 => case 1 => case 2 => case 3 => case 4 => case 5 => case 6 => case 7 =>
    case 8 => case 9 => case 10 => case 11 => case 12 => case 13 => case 14 => case _ =>
  }

  lemma ThirdList(k: nat)
    requires k < 16
    ensures (3 * (32 + k) + 5) % 16 == IndexList(2)[k]
  {
    match k
    case 0 => case 1 => case 2 => case 3 => case 4 => case 5 => case 6 => case 7 =>
    case 8 => case 9 => case 10 => case 11 => case 12 => case 13 => case 14 => case _ =>
  }

  lemma FourthList(k: nat)
    requires k < 16
    ensures (7 * (48 + k)) % 16 == IndexList(3)[k]
  {
    match k
    case 0 => case 1 => case 2 => case 3 => case 4 => case 5 => case 6 => case 7 =>
    case 8 => case 9 => case 10 => case 11 => case 12 => case 13 => case 14 => case _ =>
  }

  lemma ShiftsMatch(round: nat, k: nat)
    requires round < 4 && k < 16
    ensures ShiftLine(round)[k] == ShiftList(round)[k % 4]
  {
    match k
    case 0 => case 1 => case 2 => case 3 => case 4 => case 5 => case 6 => case 7 =>
    case 8 => case 9 => case 10 => case 11 => case 12 => case 13 => case 14 => case _ =>
  }

  lemma GForm(b: Word, c: Word, d: Word)
    ensures (d & b) | (!d & c) == (b & d) | (c & !d)
  {
  }

  lemma AddSwap(p: Word, x: Word, y: Word)
    ensures p + x + y == p + y + x
  {
  }

  /** A step of the loop performs the listed operation. */
  lemma StepIsListed(x: seq<Word>, i: nat, a: Word, b: Word, c: Word, d: Word)
    requires |x| == 16 && i < 64
    ensures Stepped(x, i, a, b, c, d) == Listed(x, i, a, b, c, d)
  {
    TablesAt(i);
    SelectorIsMix(i, b, c, d);
    var f, w, s := Selector(i, b, c, d), x[Computed(i)], ShiftLine(i / 16)[i % 16];
    TurnedSwap(a, b, f, Sine(i), w, s);
    SteppedTurns(x, i, a, b, c, d);
    ListedTurns(x, i, a, b, c, d, f, w, s);
  }

  lemma SteppedTurns(x: seq<Word>, i: nat, a: Word, b: Word, c: Word, d: Word)
    requires |x| == 16
    ensures Stepped(x, i, a, b, c, d) == Turned(a, b, Selector(i, b, c, d), Sine(i), x[Computed(i)], ShiftLine(i / 16)[i % 16])
  {
  }

  lemma ListedTurns(x: seq<Word>, i: nat, a: Word, b: Word, c: Word, d: Word, f: Word, w: Word, s: Shift)
    requires |x| == 16
    requires f == Mix(i / 16, b, c, d) && w == x[IndexList(i / 16)[i % 16]] && s == ShiftList(i / 16)[i % 4]
    ensures Listed(x, i, a, b, c, d) == Turned(a, b, f, w, Sine(i), s)
  {
  }

  lemma TurnedSwap(a: Word, b: Word, f: Word, t: Word, x: Word, s: Shift)
    ensures Turned(a, b, f, t, x, s) == Turned(a, b, f, x, t, s)
  {
    AddSwap(a + f, t, x);
  }

  lemma SelectorIsMix(i: nat, b: Word, c: Word, d: Word)
    ensures Selector(i, b, c, d) == Mix(i / 16, b, c, d)
  {
    var round := i / 16;
    if round == 0 {
      assert Selector(i, b, c, d) == F(b, c, d);
    } else if round == 1 {
      GForm(b, c, d);
      assert Selector(i, b, c, d) == G(b, c, d);
    } else if round == 2 {
      assert Selector(i, b, c, d) == H(b, c, d);
    } else {
      assert Selector(i, b, c, d) == I(b, c, d);
    }
  }

  lemma TablesAt(i: nat)
    requires i < 64
    ensures Computed(i) == IndexList(i / 16)[i % 16]
    ensures ShiftLine(i / 16)[i % 16] == ShiftList(i / 16)[i % 4]
  {
    var round, k := i / 16, i % 16;
    Positions(i);
    assert i == 16 * round + k && round < 4;
    TablesMatch(round, k);
  }

  lemma Positions(i: nat)
    ensures i == 16 * (i / 16) + i % 16 && i % 16 % 4 == i % 4
    ensures i < 64 ==> i / 16 < 4
  {
  }

  /** Four steps bring the registers back to their names: one row of the RFC's list. */
  lemma {:induction false} StepsAreRows<W(!new)>(op: Operation<W>, listed: Operation<W>, r: Registers<W>, n: nat)
    requires n <= 16
    requires forall i: nat, a, b, c, d | i < 64 :: op(i, a, b, c, d) == listed(i, a, b, c, d)
    ensures Steps(op, r, 4 * n) == Rows(listed, r, n)
    decreases n
  {
    if n > 0 {
      StepsAreRows(op, listed, r, n - 1);
      var m := 4 * (n - 1);
      var p, q, s := Steps(op, r, m + 1), Steps(op, r, m + 2), Steps(op, r, m + 3);
      assert Steps(op, r, m + 4) == Registers(s.d, op(m + 3, s.a, s.b, s.c, s.d), s.b, s.c);
      assert s == Registers(q.d, op(m + 2, q.a, q.b, q.c, q.d), q.b, q.c);
      assert q == Registers(p.d, op(m + 1, p.a, p.b, p.c, p.d), p.b, p.c);
    }
  }

  /** The 64-step loop computes the four rounds. */
  lemma LoopIsRounds(x: seq<Word>, r: Registers<Word>)
    requires |x| == 16
    ensures Steps(SteppedBy(x), r, 64) == Rows(ListedBy(x), r, 16)
  {
    forall i: nat, a: Word, b: Word, c: Word, d: Word | i < 64
      ensures SteppedBy(x)(i, a, b, c, d) == ListedBy(x)(i, a, b, c, d)
    {
      StepIsListed(x, i, a, b, c, d);
    }
    StepsAreRows(SteppedBy(x), ListedBy(x), r, 16);
  }

  /** The sixteen words of a chunk. */
  method Decode(chunk: Octets) returns (m: seq<Word>)
    requires |chunk| == 64
    ensures m == Words(chunk)
  {
    m := [];
    for i := 0 to 16
      invariant |m| == i && forall k | 0 <= k < i :: m[k] == WordAt(chunk, k)
    {
      m := m + [WordAt(chunk, i)];
    }
  }

  /** The 64 steps. */
  method Loop(m: seq<Word>, r: Registers<Word>) returns (r': Registers<Word>)
    requires |m| == 16
    ensures r' == Steps(SteppedBy(m), r, 64)
  {
    var a, b, c, d := r.a, r.b, r.c, r.d;
    for i := 0 to 64
      invariant Registers(a, b, c, d) == Steps(SteppedBy(m), r, i)
    {
      a, b, c, d := d, Stepped(m, i, a, b, c, d), b, c;
    }
    r' := Registers(a, b, c, d);
  }

  /** One chunk of the message. */
  method Chunk(r: Registers<Word>, chunk: Octets) returns (r': Registers<Word>)
    requires |chunk| == 64
    ensures r' == Block(r, Words(chunk))
  {
    var m := Decode(chunk);
    var stepped := Loop(m, r);
    LoopIsRounds(m, r);
    r' := Sum(r, stepped);
  }

  method ToHex(bytes: Octets) returns (s: string)
    ensures s == Hex(bytes)
  {
    s := "";
    for i := 0 to |bytes|
      invariant s == Hex(bytes[..i])
    {
      assert bytes[..i + 1][..i] == bytes[..i];
      s := s + HexByte(bytes[i]);
    }
    assert bytes[..|bytes|] == bytes;
  }

  method AllChunks(msg: Octets) returns (r: Registers<Word>)
    ensures r == Blocks(msg, |msg| / 64)
  {
    r := INIT;
    for n := 0 to |msg| / 64
      invariant r == Blocks(msg, n)
    {
      r := Chunk(r, ChunkAt(msg, n));
    }
  }

  /** `md5_hex` is the digest of RFC 1321 in lower-case hex, for every input. */
  method Md5Hex(data: Octets) returns (digest: string)
    ensures digest == Hex(Rfc1321(data))
  {
    var msg := Pad(data);
    PadLength(data);
    var r := AllChunks(msg);
    digest := ToHex(WordBytes(r.a) + WordBytes(r.b) + WordBytes(r.c) + WordBytes(r.d));
  }
}
