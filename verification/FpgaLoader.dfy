/** The bit-serial FPGA loader (Configure_Altera): every configuration byte goes out least
    significant bit first, each bit as one write with the clock low and one with the clock high. */
module FpgaLoader {
  import opened CArithmetic

  // One writel: the value, and the offset from the board's base address in words.
  datatype Write = Write(value: int, offset: int)

  // Where the data and clock lines are: the 2 MB and the larger address space differ.
  function DataLine(use2m: bool, w: Write): int {
    if use2m then w.value % 2 else w.value / 2 % 2
  }

  function ClockLine(use2m: bool, w: Write): int {
    if use2m then w.value / 2 % 2 else w.value / 4 % 2
  }

  // Besides data and clock, bits 6 and 7 of the larger address space are set and no others.
  predicate OtherLines(use2m: bool, w: Write) {
    if use2m then 0 <= w.value < 4 else w.value / 8 == 0x18 && w.value % 2 == 0
  }

  // A write to the loader with this clock
  predicate Proper(use2m: bool, w: Write, clock: int) {
    && w.offset == (if use2m then 0x4_0000 else 0x40_0000)
    && ClockLine(use2m, w) == clock && OtherLines(use2m, w)
  }

  // What the FPGA sees: the data line at every rising edge of the clock line.
  function Sampled(use2m: bool, trace: seq<Write>): seq<int> {
    var n := |trace|;
    if n < 2 then []
    else
      Sampled(use2m, trace[..n - 1])
      + if ClockLine(use2m, trace[n - 2]) == 0 && ClockLine(use2m, trace[n - 1]) == 1
        then [DataLine(use2m, trace[n - 1])] else []
  }

  // Regrouping sampled bits by eight, least significant first
  function ByteOf(bits: seq<int>): int {
    if bits == [] then 0 else bits[0] + 2 * ByteOf(bits[1..])
  }

  function Regrouped(bits: seq<int>): seq<int>
    decreases |bits|
  {
    if |bits| < 8 then [] else [ByteOf(bits[..8])] + Regrouped(bits[8..])
  }

  // The k lowest bits of b
  function Bits(b: int, k: nat): (bits: seq<int>)
    ensures |bits| == k
    decreases k
  {
    if k == 0 then [] else [b % 2] + Bits(b / 2, k - 1)
  }

  function AllBits(bytes: seq<int>): (bits: seq<int>)
    ensures |bits| == 8 * |bytes|
  {
    if bytes == [] then [] else AllBits(bytes[..|bytes| - 1]) + Bits(bytes[|bytes| - 1], 8)
  }

  // The two writes of one bit: clock low, then clock high, with the same data
  predicate BitPair(use2m: bool, low: Write, high: Write) {
    Proper(use2m, low, 0) && Proper(use2m, high, 1) && DataLine(use2m, low) == DataLine(use2m, high)
  }

  // A trace of such pairs
  predicate StablePairs(use2m: bool, trace: seq<Write>) {
    var n := |trace|;
    n == 0 || (n >= 2 && StablePairs(use2m, trace[..n - 2]) && BitPair(use2m, trace[n - 2], trace[n - 1]))
  }

  lemma {:induction false} ByteOfBits(b: int, k: nat)
    requires 0 <= b < Pow2(k)
    ensures ByteOf(Bits(b, k)) == b
  {
    if k == 0 {
    } else {
      ByteOfBits(b / 2, k - 1);
      assert Bits(b, k)[1..] == Bits(b / 2, k - 1);
    }
  }

  lemma ByteOfEightBits(b: Byte)
    ensures ByteOf(Bits(b, 8)) == b
  {
    assert Pow2(8) == 256;
    ByteOfBits(b, 8);
  }

  lemma ByteAppended(bits: seq<int>, n: nat, b: Byte)
    requires |bits| == 8 * n
    ensures Regrouped(bits + Bits(b, 8)) == Regrouped(bits) + [b]
  {
    ByteOfEightBits(b);
    RegroupedAppend(bits, n, Bits(b, 8));
  }

  lemma {:induction false} BytesOfBits(bytes: seq<Byte>)
    ensures Regrouped(AllBits(bytes)) == bytes
  {
    if bytes == [] {
    } else {
      var n := |bytes| - 1;
      var front, last := bytes[..n], bytes[n];
      BytesOfBits(front);
      ByteAppended(AllBits(front), n, last);
      LastAppended(bytes);
    }
  }

  lemma LastAppended(bytes: seq<Byte>)
    requires bytes != []
    ensures bytes == bytes[..|bytes| - 1] + [bytes[|bytes| - 1]]
  {
  }

  lemma {:induction false} RegroupedAppend(bits: seq<int>, n: nat, last: seq<int>)
    requires |bits| == 8 * n && |last| == 8
    ensures Regrouped(bits + last) == Regrouped(bits) + [ByteOf(last)]
    decreases n
  {
    if bits == [] {
      assert bits + last == last && last[..8] == last && last[8..] == [];
    } else {
      RegroupedAppend(bits[8..], n - 1, last);
      assert (bits + last)[..8] == bits[..8];
      assert (bits + last)[8..] == bits[8..] + last;
    }
  }

  // A trace whose low and high writes have sent these bits.
  predicate Sent(use2m: bool, trace: seq<Write>, bits: seq<int>) {
    StablePairs(use2m, trace) && |trace| == 2 * |bits| && Sampled(use2m, trace) == bits
  }

  lemma SendBit(use2m: bool, trace: seq<Write>, bits: seq<int>, low: Write, high: Write)
    requires Sent(use2m, trace, bits) && BitPair(use2m, low, high)
    ensures Sent(use2m, trace + [low, high], bits + [DataLine(use2m, high)])
  {
    var t1, t2 := trace + [low], trace + [low, high];
    assert t1[..|trace|] == trace && t2[..|t1|] == t1 && t2[..|trace|] == trace;
    assert Sampled(use2m, t1) == Sampled(use2m, trace) by {
      assert ClockLine(use2m, t1[|trace|]) == 0;
    }
    assert Sampled(use2m, t2) == bits + [DataLine(use2m, high)] by {
      assert t2[|trace|] == low && t2[|trace| + 1] == high;
    }
  }

  // The two writes for one data bit, in the address space in use.
  method WriteBit(use2m: bool, buf: int) returns (low: Write, high: Write)
    ensures BitPair(use2m, low, high) && DataLine(use2m, high) == buf % 2
    ensures low.offset == high.offset == if use2m then 0x4_0000 else 0x40_0000
    ensures use2m ==> low.value == buf % 2 && high.value == 2 + buf % 2
    ensures !use2m ==> low.value == 0xC0 + 2 * (buf % 2) && high.value == 0xC4 + 2 * (buf % 2)
  {
    var maskdata := buf % 2 * 2;
    if use2m {
      maskdata := buf % 2;
      low, high := Write(0x0 + maskdata, 0x4_0000), Write(0x2 + maskdata, 0x4_0000);
    } else {
      low, high := Write(0xC0 + maskdata, 0x40_0000), Write(0xC4 + maskdata, 0x40_0000);
    }
  }

  // Some bits of a byte are sent, and the other ones are the lowest of buf.
  predicate Sending(use2m: bool, trace: seq<Write>, buf: int, left: nat, bits: seq<int>) {
    |bits| >= left && bits[|bits| - left..] == Bits(buf, left) && Sent(use2m, trace, bits[..|bits| - left])
  }

  lemma NothingSent(use2m: bool, trace: seq<Write>, bits: seq<int>, b: int, left: nat)
    requires Sent(use2m, trace, bits)
    ensures Sending(use2m, trace, b, left, bits + Bits(b, left))
  {
    assert (bits + Bits(b, left))[..|bits|] == bits;
  }

  lemma AllSent(use2m: bool, trace: seq<Write>, buf: int, bits: seq<int>)
    requires Sending(use2m, trace, buf, 0, bits)
    ensures Sent(use2m, trace, bits)
  {
    assert bits[..|bits|] == bits;
  }

  // One pass: send the lowest bit and shift it out.
  method SendLowestBit(use2m: bool, trace: seq<Write>, buf: int, ghost left: nat, ghost bits: seq<int>)
    returns (longer: seq<Write>, half: int)
    requires left > 0 && Sending(use2m, trace, buf, left, bits)
    ensures Sending(use2m, longer, half, left - 1, bits)
  {
    var low, high := WriteBit(use2m, buf);
    ghost var n := |bits| - left;
    SendBit(use2m, trace, bits[..n], low, high);
    assert bits[n] == bits[n..][0] && bits[n + 1..] == bits[n..][1..];
    assert bits[..n + 1] == bits[..n] + [buf % 2];
    longer, half := trace + [low, high], buf / 2;
  }

  // The inner loop: shift one byte out.
  method SendByte(use2m: bool, trace: seq<Write>, b: Byte, ghost bits: seq<int>) returns (longer: seq<Write>)
    requires Sent(use2m, trace, bits)
    ensures Sent(use2m, longer, bits + Bits(b, 8))
  {
    var buf: int := b;
    ghost var all := bits + Bits(b, 8);
    longer := trace;
    NothingSent(use2m, trace, bits, b, 8);
    for j := 0 to 8
      invariant Sending(use2m, longer, buf, 8 - j, all)
    {
      longer, buf := SendLowestBit(use2m, longer, buf, 8 - j, all);
    }
    AllSent(use2m, longer, buf, all);
  }

  // Configure_Altera. Bit 31 of the size selects the 2 MB space; 24 bits of it count bytes.
  method ConfigureAltera(size: nat, buffer: seq<Byte>) returns (trace: seq<Write>)
    requires size % 0x100_0000 <= |buffer|
    ensures var n := size % 0x100_0000; var use2m := size / 0x8000_0000 == 1;
      && |trace| == 16 * n
      && StablePairs(use2m, trace)
      && Regrouped(Sampled(use2m, trace)) == buffer[..n]
  {
    var use2m := size / 0x8000_0000 == 1;
    var n := size % 0x100_0000;
    trace := [];
    for i := 0 to n
      invariant Sent(use2m, trace, AllBits(buffer[..i]))
    {
      trace := SendByte(use2m, trace, buffer[i], AllBits(buffer[..i]));
      assert buffer[..i + 1][..i] == buffer[..i];
    }
    BytesOfBits(buffer[..n]);
  }
}
