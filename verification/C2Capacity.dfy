/** DVB-C2 capacity: the cells a PLP occupies, the rate it carries, and the maximum rate of
    the carrier map. Rates are exact reals up to the program's final truncation or rounding. */
module C2Capacity {
  import opened CArithmetic
  import opened CarrierMap

  // bandwidth, L1 time interleaving mode and guard index
  datatype Frame = Frame(bandwidth: int, l1ti: int, guard: int)

  // FEC frame size (0: 16K, otherwise 64K), modulation and code rate index
  datatype Coding = Coding(fec: int, modulation: int, code: int) {
    predicate Valid() {
      0 <= modulation <= 4 && 0 <= code <= 4
    }
  }

  function FrameTime(f: Frame): (time: real)
    ensures time > 0.0
  {
    var symbols := if f.l1ti == 0 || f.l1ti == 1 then 449.0 else if f.l1ti == 2 then 452.0 else 456.0;
    var guard := if f.guard == 0 then 32.0 else 64.0;
    var sample := 7.0 / 1000000.0 / if f.bandwidth == 0 then 48.0 else if f.bandwidth == 1 then 56.0 else 64.0;
    symbols * (4096.0 + guard) * sample
  }

  function BitsPerCell(c: Coding): int {
    if 0 <= c.modulation <= 4 then 4 + 2 * c.modulation else 0
  }

  function CodeLength(c: Coding): int {
    if c.fec == 0 then 16200 else 64800
  }

  // Ncells
  function CellsPerBlock(c: Coding): int {
    if c.fec == 0 then
      match c.modulation case 0 => 4050 case 1 => 2700 case 2 => 2025 case 3 => 1620 case 4 => 1350 case _ => 0
    else
      match c.modulation case 0 => 16200 case 1 => 10800 case 2 => 8100 case 3 => 6480 case 4 => 5400 case _ => 0
  }

  // K_bch
  function BchPayload(c: Coding): int {
    if c.fec == 0 then
      match c.code case 0 => 10632 case 1 => 11712 case 2 => 12432 case 3 => 13152 case 4 => 14232 case _ => 0
    else
      match c.code case 0 => 43040 case 1 => 48408 case 2 => 51648 case 3 => 53840 case 4 => 58192 case _ => 0
  }

  // K_ldpc
  function LdpcPayload(c: Coding): int {
    if c.fec == 0 then
      match c.code case 0 => 10800 case 1 => 11880 case 2 => 12600 case 3 => 13320 case 4 => 14400 case _ => 0
    else
      match c.code case 0 => 43200 case 1 => 48600 case 2 => 51840 case 3 => 54000 case 4 => 58320 case _ => 0
  }

  // The code rate, as LDPC_code
  function LdpcRate(c: Coding): real {
    if c.fec == 0 then
      match c.code
      case 0 => 2.0 / 3.0 case 1 => 11.0 / 15.0 case 2 => 7.0 / 9.0 case 3 => 37.0 / 45.0 case 4 => 8.0 / 9.0
      case _ => 0.0
    else
      match c.code
      case 0 => 2.0 / 3.0 case 1 => 3.0 / 4.0 case 2 => 4.0 / 5.0 case 3 => 5.0 / 6.0 case 4 => 9.0 / 10.0
      case _ => 0.0
  }

  function HeaderCells(header: int): nat {
    if header == 0 then 32 else 16
  }

  // High efficiency mode removes the packet sync byte.
  function HemFactor(hem: int): (factor: real)
    ensures factor > 0.0
  {
    if hem == 0 then 1.0 else 188.0 / 187.0
  }

  // One row of the tables above.
  datatype Code = Code(length: int, cells: int, bitsPerCell: int, bch: int, ldpc: int, rate: real) {
    predicate Consistent() {
      && length as real * rate == ldpc as real
      && ldpc > bch > 80
      && cells > 0 && cells * bitsPerCell == length
    }
  }

  function CodeOf(c: Coding): Code {
    Code(CodeLength(c), CellsPerBlock(c), BitsPerCell(c), BchPayload(c), LdpcPayload(c), LdpcRate(c))
  }

  // Every row with a valid modulation and code rate is consistent: N_ldpc * code == K_ldpc.
  lemma TablesAreConsistent(c: Coding)
    requires c.Valid()
    ensures CodeOf(c).Consistent()
  {
  }

  // CalcC2MI_plpCells
  function PlpCells(c: Coding, header: int, blocks: int): int {
    (CellsPerBlock(c) + HeaderCells(header)) * blocks
  }

  function PlpRate(time: real, k: Code, blocks: int, factor: real): real
    requires time > 0.0
  {
    blocks as real * (k.bch - 80) as real * factor / time
  }

  // CalcC2MI_PLPBitrate
  function PlpBitrate(f: Frame, c: Coding, blocks: int, hem: int): int {
    Trunc(PlpRate(FrameTime(f), CodeOf(c), blocks, HemFactor(hem)))
  }

  // PayloadBitTemp: payload bits for each code bit.
  function PayloadPerCodeBit(k: Code): real
    requires k.Consistent()
  {
    k.rate * (k.bch as real / k.ldpc as real) * ((k.bch as real - 80.0) / k.bch as real)
  }

  // Cells that one FEC block takes: data slice type 1 adds the header.
  function CellsOfBlock(k: Code, slice: int, headerCells: nat): (cells: int)
    requires k.Consistent()
    ensures cells > 0
  {
    if slice == 0 then k.cells else k.cells + headerCells
  }

  // MaxBitRateTemp, scaled for high efficiency mode. A cell total that is no multiple of the
  // block size gets a correction for the cells outside N_FEC_FRAME blocks.
  function MaxRate(time: real, k: Code, slice: int, headerCells: nat, factor: real, cells: int): real
    requires time > 0.0 && k.Consistent()
  {
    var size := CellsOfBlock(k, slice, headerCells);
    var blocks := cells as real / size as real;
    var inBlocks := k.length as real * blocks * PayloadPerCodeBit(k);
    var outside := cells as real - blocks * size as real;
    var share := if slice == 0 then 1.0 else k.cells as real / size as real;
    var bits :=
      if cells % size == 0 then inBlocks
      else inBlocks + outside * share * k.bitsPerCell as real * PayloadPerCodeBit(k);
    bits / time * factor
  }

  // CalcC2MI_Bitrate once its grid has been counted
  function MaxBitrate(platform: Platform, f: Frame, c: Coding, slice: int, header: int, hem: int, cells: int): int
    requires c.Valid()
  {
    TablesAreConsistent(c);
    Round(platform, MaxRate(FrameTime(f), CodeOf(c), slice, HeaderCells(header), HemFactor(hem), cells))
  }

  // CalcC2MI_Bitrate
  method CalcBitrate(platform: Platform, f: Frame, c: Coding, slice: int, header: int, hem: int,
                     p: Parameters, tones: seq<int>)
    returns (rate: int)
    requires p.Valid() && p.guard == f.guard && c.Valid()
    ensures rate == MaxBitrate(platform, f, c, slice, header, hem,
                               112 * PayloadCount(p, Tables(ContinualPilots(), tones)))
  {
    var cells := CalcCtot(p, tones);
    rate := MaxBitrate(platform, f, c, slice, header, hem, cells);
  }

  lemma PayloadOfCodeWord(k: Code)
    requires k.Consistent()
    ensures k.length as real * PayloadPerCodeBit(k) == (k.bch - 80) as real
  {
  }

  // The correction term vanishes, because N_FEC_FRAME is not rounded to whole blocks.
  lemma MaxRateIsProportional(time: real, k: Code, slice: int, headerCells: nat, factor: real, cells: int)
    requires time > 0.0 && k.Consistent()
    ensures MaxRate(time, k, slice, headerCells, factor, cells)
            == cells as real / CellsOfBlock(k, slice, headerCells) as real * (k.bch - 80) as real / time * factor
  {
    var size := CellsOfBlock(k, slice, headerCells) as real;
    var blocks := cells as real / size;
    var payload := PayloadPerCodeBit(k);
    assert blocks * size == cells as real;
    PayloadOfCodeWord(k);
    Commute(k.length as real, blocks, payload);
    var outside := cells as real - blocks * size;
    assert outside == 0.0;
  }

  lemma Commute(n: real, blocks: real, payload: real)
    ensures n * blocks * payload == blocks * (n * payload)
  {
  }

  // Before truncation and rounding, a PLP fits the maximum rate exactly when its blocks,
  // counted as the data slice type counts them, fit the cells of the carrier map.
  lemma RateFitsIffBlocksFit(time: real, k: Code, slice: int, headerCells: nat, factor: real, blocks: int, cells: int)
    requires time > 0.0 && k.Consistent() && factor > 0.0
    ensures PlpRate(time, k, blocks, factor) <= MaxRate(time, k, slice, headerCells, factor, cells)
            <==> CellsOfBlock(k, slice, headerCells) * blocks <= cells
  {
    MaxRateIsProportional(time, k, slice, headerCells, factor, cells);
    var size := CellsOfBlock(k, slice, headerCells);
    CompareRates(blocks as real, cells as real, size as real, (k.bch - 80) as real, factor, time);
    assert (size * blocks) as real == blocks as real * size as real;
  }

  lemma CompareRates(blocks: real, cells: real, size: real, bits: real, factor: real, time: real)
    requires size > 0.0 && bits > 0.0 && factor > 0.0 && time > 0.0
    ensures blocks * bits * factor / time <= cells / size * bits / time * factor <==> blocks * size <= cells
  {
  }

  // Every row of the tables: the modulation loads 4 to 12 bits on a cell, the BCH code takes
  // 168 parity bits of a short block and 128, 160 or 192 of a long one, and a higher index
  // means a higher code rate, from 2/3 upwards.
  lemma TableRows(c: Coding)
    requires c.Valid()
    ensures CellsPerBlock(c) * (4 + 2 * c.modulation) == if c.fec == 0 then 16200 else 64800
    ensures CodeLength(c) == if c.fec == 0 then 16200 else 64800
    ensures LdpcPayload(c) as real == LdpcRate(c) * CodeLength(c) as real
    ensures LdpcPayload(c) - BchPayload(c)
      == if c.fec == 0 then 168 else if c.code == 4 then 128 else if c.code == 0 || c.code == 3 then 160 else 192
    ensures c.code == 0 ==> LdpcRate(c) == 2.0 / 3.0
    ensures c.code < 4 ==> LdpcRate(c) < LdpcRate(c.(code := c.code + 1))
    ensures c.fec == 0 ==> LdpcPayload(c) % 360 == 0 && LdpcRate(c) <= 8.0 / 9.0
    ensures c.fec != 0 && c.code >= 1 ==>
      var n := if c.code == 4 then 10 else c.code + 3; LdpcRate(c) == 1.0 - 1.0 / n as real
  {
  }

  // The frame time in the units of EN 302 769: symbols, carriers with their guard, megahertz
  lemma FrameTimeIs(f: Frame)
    ensures FrameTime(f)
      == (if f.l1ti == 0 || f.l1ti == 1 then 449.0 else if f.l1ti == 2 then 452.0 else 456.0)
         * (if f.guard == 0 then 4128.0 else 4160.0)
         * 7.0 / (if f.bandwidth == 0 then 48000000.0 else if f.bandwidth == 1 then 56000000.0 else 64000000.0)
  {
  }

  // Without high efficiency mode a frame carries exactly the payload of its blocks.
  lemma PlpPayloadIsExact(f: Frame, c: Coding, blocks: int)
    requires c.Valid()
    ensures PlpRate(FrameTime(f), CodeOf(c), blocks, HemFactor(0)) * FrameTime(f)
      == (blocks * (BchPayload(c) - 80)) as real
  {
    QuotientTimes((blocks * (BchPayload(c) - 80)) as real, FrameTime(f));
  }

  lemma QuotientTimes(x: real, y: real)
    requires y > 0.0
    ensures x / y * y == x
  {
  }

  // High efficiency mode saves the sync byte of each packet: 188 bytes travel in 187.
  lemma HemGains(time: real, k: Code, slice: int, headerCells: nat, blocks: int, cells: int, hem: int)
    requires time > 0.0 && k.Consistent() && hem != 0
    ensures 187.0 * PlpRate(time, k, blocks, HemFactor(hem)) == 188.0 * PlpRate(time, k, blocks, HemFactor(0))
    ensures 187.0 * MaxRate(time, k, slice, headerCells, HemFactor(hem), cells)
      == 188.0 * MaxRate(time, k, slice, headerCells, HemFactor(0), cells)
  {
    MaxRateIsProportional(time, k, slice, headerCells, HemFactor(hem), cells);
    MaxRateIsProportional(time, k, slice, headerCells, HemFactor(0), cells);
    var x := cells as real / CellsOfBlock(k, slice, headerCells) as real * (k.bch - 80) as real / time;
    assert 187.0 * (x * (188.0 / 187.0)) == 188.0 * x;
    var bits := blocks as real * (k.bch - 80) as real;
    Rescaled(bits, time);
  }

  lemma Rescaled(bits: real, time: real)
    requires time > 0.0
    ensures 187.0 * (bits * (188.0 / 187.0) / time) == 188.0 * (bits * 1.0 / time)
  {
  }

  // At the maximum rate without high efficiency mode, a frame carries the payload of as many
  // blocks as its cells hold.
  lemma MaxPayloadIsExact(time: real, k: Code, slice: int, headerCells: nat, cells: int)
    requires k.Consistent() && time > 0.0
    ensures MaxRate(time, k, slice, headerCells, HemFactor(0), cells)
      * time * CellsOfBlock(k, slice, headerCells) as real == cells as real * (k.bch - 80) as real
  {
    var size := CellsOfBlock(k, slice, headerCells);
    MaxRateIsProportional(time, k, slice, headerCells, HemFactor(0), cells);
    Recover(cells as real, size as real, (k.bch - 80) as real, time);
  }

  // A block takes N_ldpc / n_mod cells, and with data slice type 1 also its header of 32 or 16.
  lemma BlockCells(c: Coding, slice: int, header: int)
    requires c.Valid() && CodeOf(c).Consistent()
    ensures CellsOfBlock(CodeOf(c), slice, HeaderCells(header))
      == (if c.fec == 0 then 16200 else 64800) / (4 + 2 * c.modulation)
         + if slice == 0 then 0 else if header == 0 then 32 else 16
  {
  }

  lemma Recover(cells: real, size: real, bits: real, time: real)
    requires size > 0.0 && time > 0.0
    ensures cells / size * bits / time * 1.0 * time * size == cells * bits
  {
  }

  // CalcC2MI_plpCells: a block takes N_ldpc / n_mod cells and its header of 32 or 16.
  lemma PlpCellsOfBlocks(c: Coding, header: int, blocks: int)
    requires c.Valid()
    ensures PlpCells(c, header, blocks)
      == ((if c.fec == 0 then 16200 else 64800) / (4 + 2 * c.modulation) + if header == 0 then 32 else 16) * blocks
  {
    TablesAreConsistent(c);
    BlockCells(c, 1, header);
  }

  // The reported rates: a PLP rate is truncated toward zero, the maximum rate rounded. High
  // efficiency mode multiplies both by 188 / 187.
  lemma ReportedRates(platform: Platform, f: Frame, c: Coding, slice: int, header: int, hem: int, blocks: int, cells: int)
    requires c.Valid()
    ensures CodeOf(c).Consistent() && CodeOf(c).bch == BchPayload(c)
    ensures var factor := if hem == 0 then 1.0 else 188.0 / 187.0;
      && PlpBitrate(f, c, blocks, hem) == Trunc(PlpRate(FrameTime(f), CodeOf(c), blocks, factor))
      && MaxBitrate(platform, f, c, slice, header, hem, cells)
         == Round(platform, MaxRate(FrameTime(f), CodeOf(c), slice, if header == 0 then 32 else 16, factor, cells))
  {
    TablesAreConsistent(c);
  }

  // Two values: 1000 blocks of 16QAM 2/3 in 16200 bits, 8 MHz, without and with high efficiency
  lemma PlpBitrateExample()
    ensures PlpBitrate(Frame(2, 0, 0), Coding(0, 0, 0), 1000, 0) == 52051192
    ensures PlpBitrate(Frame(2, 0, 0), Coding(0, 0, 0), 1000, 1) == 52329541
  {
  }

  // Admission: blocks that fit CalcC2MI_Ctot by CalcC2MI_plpCells never carry more than
  // CalcC2MI_Bitrate, for both data slice types, both header types and both HEM settings.
  lemma AdmittedPlpFits(platform: Platform, f: Frame, c: Coding, slice: int, header: int, hem: int, blocks: int,
                        p: Parameters, t: Tables)
    requires c.Valid() && p.Valid()
    requires PlpCells(c, header, blocks) <= BLOCKS_PER_FRAME * PayloadCount(p, t)
    ensures PlpBitrate(f, c, blocks, hem)
            <= MaxBitrate(platform, f, c, slice, header, hem, BLOCKS_PER_FRAME * PayloadCount(p, t))
  {
    TablesAreConsistent(c);
    var cells := BLOCKS_PER_FRAME * PayloadCount(p, t);
    Admission(platform, FrameTime(f), CodeOf(c), slice, HeaderCells(header), HemFactor(hem), blocks, cells);
  }

  lemma Admission(platform: Platform, time: real, k: Code, slice: int, headerCells: nat, factor: real,
                  blocks: int, cells: nat)
    requires time > 0.0 && k.Consistent() && factor > 0.0
    requires (k.cells + headerCells) * blocks <= cells
    ensures Trunc(PlpRate(time, k, blocks, factor))
            <= Round(platform, MaxRate(time, k, slice, headerCells, factor, cells))
  {
    var size := CellsOfBlock(k, slice, headerCells);
    assert size * blocks <= cells by {
      if blocks >= 0 {
        assert headerCells * blocks >= 0;
      } else {
        assert size * -blocks >= 0;
      }
    }
    RateFitsIffBlocksFit(time, k, slice, headerCells, factor, blocks, cells);
    RateFitsIffBlocksFit(time, k, slice, headerCells, factor, 0, cells);
    assert PlpRate(time, k, 0, factor) == 0.0;
    TruncBelowRound(platform, PlpRate(time, k, blocks, factor), MaxRate(time, k, slice, headerCells, factor, cells));
  }
}
