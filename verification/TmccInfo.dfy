/** Decoding and validation of the ISDB-T TMCC words that the stream library reports
    (UpdateRemuxInfo, HaveTmccInformation). */
module TmccInfo {
  import opened CArithmetic

  // The fields of one 19-bit word, lowest bits first.
  datatype Fields = Fields(
    segments: int, codeRate: int, constellation: int, interleaving: int,
    mode: int, guard: int, partial: int, broadcast: int)
  {
    predicate InRange() {
      && 0 <= segments < 16 && 0 <= codeRate < 8 && 0 <= constellation < 8 && 0 <= interleaving < 8
      && 0 <= mode < 4 && 0 <= guard < 4 && 0 <= partial < 2 && 0 <= broadcast < 2
    }
  }

  const BITS := 0x8_0000

  function Pack(f: Fields): int {
    f.segments + 0x10 * f.codeRate + 0x80 * f.constellation + 0x400 * f.interleaving
    + 0x2000 * f.mode + 0x8000 * f.guard + 0x2_0000 * f.partial + 0x4_0000 * f.broadcast
  }

  function Unpack(w: int): (f: Fields)
    requires w >= 0
    ensures f.InRange()
    ensures Pack(f) == w % BITS
  {
    var code := w / 16;
    var constellation := code / 8;
    var interleaving := constellation / 8;
    var mode := interleaving / 8;
    var guard := mode / 4;
    var partial := guard / 4;
    var broadcast := partial / 2;
    var f := Fields(w % 16, code % 8, constellation % 8, interleaving % 8, mode % 4, guard % 4, partial % 2, broadcast % 2);
    DivModUnique(w, BITS, broadcast / 2, Pack(f));
    f
  }

  // Which bits of the word each field takes
  lemma FieldsOfWord(w: nat)
    ensures var f := Unpack(w);
      && f.segments == w % 0x10 && f.codeRate == w / 0x10 % 8 && f.constellation == w / 0x80 % 8
      && f.interleaving == w / 0x400 % 8 && f.mode == w / 0x2000 % 4 && f.guard == w / 0x8000 % 4
      && f.partial == w / 0x2_0000 % 2 && f.broadcast == w / 0x4_0000 % 2
  {
    DivDiv(w, 0x10, 8);
    DivDiv(w, 0x80, 8);
    DivDiv(w, 0x400, 8);
    DivDiv(w, 0x2000, 4);
    DivDiv(w, 0x8000, 4);
    DivDiv(w, 0x2_0000, 2);
  }

  // Packing loses nothing: a packed word, with anything above its 19 bits, has one decoding.
  lemma PackIsInjective(f: Fields, g: Fields)
    requires f.InRange() && g.InRange() && Pack(f) == Pack(g)
    ensures f == g
  {
    SameQuotient(16, Upper(f, 1), f.segments, Upper(g, 1), g.segments);
    SameQuotient(8, Upper(f, 2), f.codeRate, Upper(g, 2), g.codeRate);
    SameQuotient(8, Upper(f, 3), f.constellation, Upper(g, 3), g.constellation);
    SameQuotient(8, Upper(f, 4), f.interleaving, Upper(g, 4), g.interleaving);
    SameQuotient(4, Upper(f, 5), f.mode, Upper(g, 5), g.mode);
    SameQuotient(4, Upper(f, 6), f.guard, Upper(g, 6), g.guard);
  }

  // What is left of a packed word above its first k fields
  function Upper(f: Fields, k: nat): int
    requires 1 <= k <= 6
    decreases 6 - k
  {
    match k
    case 6 => f.partial + 2 * f.broadcast
    case 5 => f.guard + 4 * Upper(f, 6)
    case 4 => f.mode + 4 * Upper(f, 5)
    case 3 => f.interleaving + 8 * Upper(f, 4)
    case 2 => f.constellation + 8 * Upper(f, 3)
    case 1 => f.codeRate + 8 * Upper(f, 2)
  }

  lemma PackBelowBits(f: Fields)
    requires f.InRange()
    ensures 0 <= Pack(f) < BITS
  {
  }

  function Abs(x: int): (n: nat)
    ensures n == x || n == -x
  {
    if x >= 0 then x else -x
  }

  // x & 1, and x / 2 as C divides
  function LowBit(x: int): int {
    if x % 2 == 0 then 0 else 1
  }

  lemma Powers()
    ensures Pow2(0) == 0x1 && Pow2(1) == 0x2 && Pow2(2) == 0x4 && Pow2(3) == 0x8
    ensures Pow2(4) == 0x10 && Pow2(5) == 0x20 && Pow2(6) == 0x40 && Pow2(7) == 0x80
    ensures Pow2(8) == 0x100 && Pow2(9) == 0x200 && Pow2(10) == 0x400 && Pow2(11) == 0x800
    ensures Pow2(12) == 0x1000 && Pow2(13) == 0x2000 && Pow2(14) == 0x4000 && Pow2(15) == 0x8000
    ensures Pow2(16) == 0x1_0000 && Pow2(17) == 0x2_0000 && Pow2(18) == 0x4_0000 && Pow2(19) == 0x8_0000
  {
  }

  // The weight that bit number i (from 1) has within its field.
  function Weight(i: nat): int
    requires 1 <= i <= 19
  {
    if i <= 4 then Pow2(i - 1)
    else if i <= 7 then Pow2(i - 5)
    else if i <= 10 then Pow2(i - 8)
    else if i <= 13 then Pow2(i - 11)
    else if i <= 15 then Pow2(i - 14)
    else if i <= 17 then Pow2(i - 16)
    else 1
  }

  // What the i-th pass of the loop adds to the fields.
  function WithBit(f: Fields, i: nat, bit: int): Fields
    requires 1 <= i <= 19
  {
    var v := if bit == 1 then Weight(i) else 0;
    if i <= 4 then f.(segments := f.segments + v)
    else if i <= 7 then f.(codeRate := f.codeRate + v)
    else if i <= 10 then f.(constellation := f.constellation + v)
    else if i <= 13 then f.(interleaving := f.interleaving + v)
    else if i <= 15 then f.(mode := f.mode + v)
    else if i <= 17 then f.(guard := f.guard + v)
    else if i == 18 then f.(partial := bit)
    else f.(broadcast := bit)
  }

  // The i-th bit weighs Pow2(i - 1) in the packed word, and fits its field when the bits above
  // it are still clear.
  lemma BitStep(f: Fields, i: nat, bit: int)
    requires 1 <= i <= 19 && 0 <= bit <= 1 && f.InRange() && Pack(f) < Pow2(i - 1)
    ensures WithBit(f, i, bit).InRange()
    ensures Pack(WithBit(f, i, bit)) == Pack(f) + if bit == 1 then Pow2(i - 1) else 0
  {
    if i <= 7 {
      LowFields(f, i, bit);
    } else if i <= 13 {
      MiddleFields(f, i, bit);
    } else {
      HighFields(f, i, bit);
    }
  }

  lemma LowFields(f: Fields, i: nat, bit: int)
    requires 1 <= i <= 7 && 0 <= bit <= 1 && f.InRange() && Pack(f) < Pow2(i - 1)
    ensures WithBit(f, i, bit).InRange()
    ensures Pack(WithBit(f, i, bit)) == Pack(f) + if bit == 1 then Pow2(i - 1) else 0
  {
    Powers();
    match i {
      case 1 => case 2 => case 3 => case 4 => case 5 => case 6 => case 7 =>
    }
  }

  lemma MiddleFields(f: Fields, i: nat, bit: int)
    requires 8 <= i <= 13 && 0 <= bit <= 1 && f.InRange() && Pack(f) < Pow2(i - 1)
    ensures WithBit(f, i, bit).InRange()
    ensures Pack(WithBit(f, i, bit)) == Pack(f) + if bit == 1 then Pow2(i - 1) else 0
  {
    Powers();
    match i {
      case 8 => case 9 => case 10 => case 11 => case 12 => case 13 =>
    }
  }

  lemma HighFields(f: Fields, i: nat, bit: int)
    requires 14 <= i <= 19 && 0 <= bit <= 1 && f.InRange() && Pack(f) < Pow2(i - 1)
    ensures WithBit(f, i, bit).InRange()
    ensures Pack(WithBit(f, i, bit)) == Pack(f) + if bit == 1 then Pow2(i - 1) else 0
  {
    Powers();
    match i {
      case 14 => case 15 => case 16 => case 17 => case 18 => case 19 =>
    }
  }

  // n after k halvings, and the bits that these have taken from it
  function Rest(n: nat, k: nat): nat {
    if k == 0 then n else Rest(n, k - 1) / 2
  }

  function Low(n: nat, k: nat): nat
    requires k <= 19
  {
    if k == 0 then 0 else Low(n, k - 1) + if LowBit(Rest(n, k - 1)) == 1 then Pow2(k - 1) else 0
  }

  lemma {:induction false} LowAndRest(n: nat, k: nat)
    requires k <= 19
    ensures n == Low(n, k) + Pow2(k) * Rest(n, k) && Low(n, k) < Pow2(k)
  {
    if k == 0 {
    } else {
      LowAndRest(n, k - 1);
      var half := Rest(n, k);
      Distribute(Pow2(k - 1), half, Rest(n, k - 1) - 2 * half);
    }
  }

  lemma Distribute(p: int, half: int, bit: int)
    ensures p * (2 * half + bit) == 2 * p * half + p * bit
  {
  }

  // The fields hold the lowest k bits of n, and rest the others.
  predicate Taken(n: nat, k: nat, f: Fields, rest: int) {
    k <= 19 && f.InRange() && Pack(f) == Low(n, k) && Abs(rest) == Rest(n, k)
  }

  lemma AllTaken(n: nat, k: nat, f: Fields, rest: int)
    requires Taken(n, k, f, rest) && k == 19
    ensures f == Unpack(n)
  {
    LowAndRest(n, k);
    Powers();
    DivModUnique(n, BITS, Rest(n, k), Low(n, k));
    PackIsInjective(f, Unpack(n));
  }

  lemma LowBelow(n: nat, k: nat)
    requires k <= 19
    ensures Low(n, k) < Pow2(k)
  {
  }

  lemma HalfTaken(n: nat, k: nat, rest: int)
    requires k < 19 && Abs(rest) == Rest(n, k)
    ensures Abs(Div(rest, 2)) == Rest(n, k + 1)
    ensures Low(n, k + 1) == Low(n, k) + if LowBit(rest) == 1 then Pow2(k) else 0
  {
  }

  // What the loop holds after k passes
  function Remaining(word: int, k: nat): int {
    if k == 0 then word else Div(Remaining(word, k - 1), 2)
  }

  function Collected(word: int, k: nat): Fields
    requires k <= 19
  {
    if k == 0 then Fields(0, 0, 0, 0, 0, 0, 0, 0)
    else WithBit(Collected(word, k - 1), k, LowBit(Remaining(word, k - 1)))
  }

  lemma {:induction false} PassesTake(word: int, k: nat)
    requires k <= 19
    ensures Taken(Abs(word), k, Collected(word, k), Remaining(word, k))
  {
    if k == 0 {
    } else {
      var n, f, rest := Abs(word), Collected(word, k - 1), Remaining(word, k - 1);
      PassesTake(word, k - 1);
      LowBelow(n, k - 1);
      HalfTaken(n, k - 1, rest);
      BitStep(f, k, LowBit(rest));
    }
  }

  // The nineteen passes over one word: each takes the low bit into its field and halves the rest.
  // A negative word decodes as its absolute value.
  method DecodeWord(word: int) returns (f: Fields)
    ensures f == Unpack(Abs(word))
  {
    var rest := word;
    f := Fields(0, 0, 0, 0, 0, 0, 0, 0);
    for i := 1 to 20
      invariant f == Collected(word, i - 1) && rest == Remaining(word, i - 1)
    {
      f := WithBit(f, i, LowBit(rest));
      rest := Div(rest, 2);
    }
    AllPasses(word, 19);
  }

  lemma AllPasses(word: int, k: nat)
    requires k == 19
    ensures Collected(word, k) == Unpack(Abs(word))
  {
    PassesTake(word, k);
    AllTaken(Abs(word), k, Collected(word, k), Remaining(word, k));
  }

  // The loop inverts packing, whatever the word holds above its 19 bits.
  lemma UnpackInvertsPack(f: Fields, above: nat)
    requires f.InRange()
    ensures Unpack(Pack(f) + BITS * above) == f
  {
    PackBelowBits(f);
    DivModUnique(Pack(f) + BITS * above, BITS, above, Pack(f));
    PackIsInjective(f, Unpack(Pack(f) + BITS * above));
  }

  // TSPH_GET_REMUX_INFO for one file: entries 0..2 are the words of the layers, 3..5 their bit
  // rates and 6 the total bit rate.
  type Library = int -> int

  function Layer(library: Library, j: int): Fields {
    Unpack(Abs(library(j)))
  }

  function TotalSegments(library: Library): int {
    Layer(library, 0).segments + Layer(library, 1).segments + Layer(library, 2).segments
  }

  function PositivePart(x: int): (part: int)
    ensures 0 <= part && x <= part && part * (part - x) == 0
  {
    if x > 0 then x else 0
  }

  // The segment total that a decoded word allows. Its third layer decides the broadcast type.
  predicate SegmentsFit(library: Library) {
    var total, last := TotalSegments(library), Layer(library, 2);
    if last.broadcast == 1 then total == 1
    else if last.partial == 1 then 1 <= total <= 13
    else total == 13
  }

  // The validity check that both functions make.
  method CheckSegments(segments: int, broadcast: int, partial: int) returns (ret: int)
    ensures ret == 0 || ret == 1
    ensures ret == 1 <==>
      && (broadcast == 0 ==> if partial == 1 then 1 <= segments <= 13 else segments == 13)
      && (broadcast == 1 ==> segments == 1)
      && (broadcast == 2 ==> if partial == 1 then 1 <= segments <= 3 else segments == 3)
  {
    ret := 1;
    if broadcast == 0 {
      if partial == 1 {
        if segments <= 0 || segments > 13 {
          ret := 0;
        }
      } else {
        if segments != 13 {
          ret := 0;
        }
      }
    } else if broadcast == 1 {
      if segments != 1 {
        ret := 0;
      }
    } else if broadcast == 2 {
      if partial == 1 {
        if segments <= 0 || segments > 3 {
          ret := 0;
        }
      } else {
        if segments != 3 {
          ret := 0;
        }
      }
    }
  }

  // UpdateRemuxInfo: the decoded layers, and 1 when they are valid.
  method UpdateRemuxInfo(fileExists: bool, library: Library) returns (ret: int, layers: seq<Fields>)
    ensures ret == 0 || ret == 1
    ensures ret == 1 <==> fileExists && SegmentsFit(library)
    ensures fileExists ==> layers == [Unpack(Abs(library(0))), Unpack(Abs(library(1))), Unpack(Abs(library(2)))]
    ensures fileExists ==>
      var total := layers[0].segments + layers[1].segments + layers[2].segments;
      ret == 1 <==>
        if layers[2].broadcast == 1 then total == 1
        else if layers[2].partial == 1 then 1 <= total <= 13
        else total == 13
  {
    layers := [];
    if !fileExists {
      return 0, [];
    }
    for j := 0 to 3
      invariant |layers| == j && forall k :: 0 <= k < j ==> layers[k] == Layer(library, k)
    {
      var f := DecodeWord(library(j));
      layers := layers + [f];
    }
    ret := CheckSegments(layers[0].segments + layers[1].segments + layers[2].segments,
                         layers[2].broadcast, layers[2].partial);
  }

  // HaveTmccInformation also wants the total bit rate to be the sum of the positive layer rates.
  method HaveTmccInformation(library: Library) returns (ret: int)
    ensures ret == 0 || ret == 1
    ensures ret == 1 <==>
      && SegmentsFit(library)
      && library(6) >= 0
      && library(6) == PositivePart(library(3)) + PositivePart(library(4)) + PositivePart(library(5))
  {
    var rateSum, segments, partial, broadcast := 0, 0, 0, 0;
    for j := 0 to 3
      invariant rateSum == (if j > 0 then PositivePart(library(3)) else 0)
        + (if j > 1 then PositivePart(library(4)) else 0) + (if j > 2 then PositivePart(library(5)) else 0)
      invariant segments == (if j > 0 then Layer(library, 0).segments else 0)
        + (if j > 1 then Layer(library, 1).segments else 0) + (if j > 2 then Layer(library, 2).segments else 0)
      invariant j == 3 ==> partial == Layer(library, 2).partial && broadcast == Layer(library, 2).broadcast
    {
      if library(j + 3) > 0 {
        rateSum := rateSum + library(j + 3);
      }
      var f := DecodeWord(library(j));
      segments, partial, broadcast := segments + f.segments, f.partial, f.broadcast;
    }
    if library(6) < 0 {
      return 0;
    }
    if library(6) != rateSum {
      return 0;
    }
    ret := CheckSegments(segments, broadcast, partial);
  }

  // For any library answers: what HaveTmccInformation accepts, UpdateRemuxInfo accepts.
  method HaveImpliesUpdate(library: Library) returns (have: int, update: int)
    ensures have == 1 ==> update == 1
    ensures update == 1 && have != 1 ==>
      library(6) < 0
      || library(6) != PositivePart(library(3)) + PositivePart(library(4)) + PositivePart(library(5))
  {
    have := HaveTmccInformation(library);
    var layers: seq<Fields>;
    update, layers := UpdateRemuxInfo(true, library);
  }
}
