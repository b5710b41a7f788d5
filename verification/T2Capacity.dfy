/** DVB-T2 capacity: the configured rate of a PLP against the maximum rate of the T2 frame,
    as CalcT2MI_Bitrate computes the two. Rates are exact reals up to the final clamp. */
module T2Capacity {
  import opened CArithmetic
  import opened DvbT2

  datatype Frame = Frame(
    guard: int, fft: int, s1: int, dataSymbols: nat, pilot: int, bandwidth: int, extended: int, l1Post: int)

  function CellsP2(f: Frame): int {
    if f.s1 == 0 then
      match f.fft
      case 3 => 558 case 0 => 1118 case 2 => 2236 case 1 => 4472 case 6 => 4472 case 4 => 8944
      case 5 => 22432 case 7 => 22432 case _ => 558
    else if f.s1 == 1 then
      match f.fft
      case 3 => 546 case 0 => 1098 case 2 => 2198 case 1 => 4398 case 6 => 4398 case 4 => 8814
      case 5 => 17612 case 7 => 17612 case _ => 558
    else 558
  }

  // An FFT size or pilot pattern without an entry keeps the initial value.
  function ByPilot(row: seq<int>, pilot: int, initial: int): int {
    if 0 <= pilot < |row| then row[pilot] else initial
  }

  function CellsData(f: Frame): int {
    var row: seq<int> :=
      match f.fft
      case 3 => [764, 768, 798, 804, 818, 0, 0, 0]
      case 0 => [1522, 1532, 1596, 1602, 1632, 0, 1646, 0]
      case 2 => [3084, 3092, 3228, 3234, 3298, 0, 3328, 0]
      case 4 =>
        if f.extended == 0 then [12418, 12436, 12988, 13002, 13272, 13288, 13416, 13406]
        else [12678, 12698, 13262, 13276, 13552, 13568, 13698, 13688]
      case _ =>
        if f.fft == 1 || f.fft == 6 then
          if f.extended == 0 then [6208, 6124, 6494, 6498, 6634, 0, 6698, 6698]
          else [6296, 6298, 6584, 6588, 6728, 0, 6788, 6788]
        else if f.fft == 5 || f.fft == 7 then
          if f.extended == 0 then [0, 24886, 0, 26022, 0, 26592, 26836, 26812]
          else [0, 25412, 0, 26572, 0, 27152, 27404, 27376]
        else [];
    ByPilot(row, f.pilot, 764)
  }

  function CellsFrameClosing(f: Frame): int {
    var row: seq<int> :=
      match f.fft
      case 3 => [402, 654, 490, 707, 544, 0, 0, 0]
      case 0 => [804, 1309, 960, 1415, 1088, 0, 1396, 0]
      case 2 => [1609, 2619, 1961, 2381, 2177, 0, 2792, 0]
      case 4 =>
        if f.extended == 0 then [6437, 10476, 7845, 11324, 8709, 11801, 11170, 0]
        else [6573, 10697, 8011, 11563, 8893, 12051, 11406, 0]
      case _ =>
        if f.fft == 1 || f.fft == 6 then
          if f.extended == 0 then [3218, 5283, 3922, 5662, 4353, 0, 5585, 0]
          else [3264, 5312, 3978, 5742, 4416, 0, 5664, 0]
        else if f.fft == 5 || f.fft == 7 then
          if f.extended == 0 then [0, 20952, 0, 22649, 0, 23603, 0, 0]
          else [0, 21395, 0, 23127, 0, 24102, 0, 0]
        else [];
    ByPilot(row, f.pilot, 402)
  }

  // C_tot. Guard interval 1/128 has no frame closing symbol.
  function CellsTotal(f: Frame): int {
    var signalling := 1840 + f.l1Post;
    if f.guard == 4 then
      SymbolsP2(f.fft) * CellsP2(f) + f.dataSymbols * CellsData(f) - signalling
    else
      SymbolsP2(f.fft) * CellsP2(f) + (f.dataSymbols - 1) * CellsData(f) + CellsFrameClosing(f) - signalling
  }

  function GuardFraction(guard: int): (fraction: real)
    ensures fraction > 0.0
  {
    match guard
    case 0 => 1.0 / 32.0 case 1 => 1.0 / 16.0 case 2 => 1.0 / 8.0 case 3 => 1.0 / 4.0
    case 4 => 1.0 / 128.0 case 5 => 19.0 / 128.0 case 6 => 19.0 / 256.0 case _ => 1.0 / 32.0
  }

  function FftCarriers(fft: int): (carriers: int)
    ensures carriers > 0
  {
    1024 * match fft case 3 => 1 case 0 => 2 case 2 => 4 case 1 => 8 case 6 => 8 case 4 => 16 case 5 => 32 case 7 => 32
           case _ => 1
  }

  function ElementaryPeriod(bandwidth: int): (period: real)
    ensures period > 0.0
  {
    (match bandwidth
     case 0 => 71.0 / 131.0 case 1 => 7.0 / 40.0 case 2 => 7.0 / 48.0 case 3 => 1.0 / 8.0
     case 4 => 7.0 / 64.0 case 5 => 7.0 / 80.0 case _ => 71.0 / 131.0) / 1000000.0
  }

  // T_F
  function FrameTime(f: Frame): (time: real)
    ensures time > 0.0
  {
    FrameTimeOf(GuardFraction(f.guard), FftCarriers(f.fft), SymbolsP2(f.fft) + f.dataSymbols, ElementaryPeriod(f.bandwidth))
  }

  function FrameTimeOf(guard: real, carriers: int, symbols: int, period: real): (time: real)
    requires guard > 0.0 && carriers > 0 && symbols > 0 && period > 0.0
    ensures time > 0.0
  {
    var symbolPeriods := (1.0 + guard) * carriers as real;
    PositiveProduct(symbolPeriods, symbols as real);
    var periods := 2048.0 + symbolPeriods * symbols as real;
    PositiveProduct(periods, period);
    periods * period
  }

  // N_ldpc, K_ldpc, K_bch and LDPC_code of one PLP
  datatype Code = Code(length: int, ldpc: int, bch: int, rate: real) {
    predicate Consistent() {
      length as real * rate == ldpc as real && length > ldpc > bch > 80
    }
  }

  // A code rate index outside 0..5 leaves LDPC_code unset.
  function CodeOf(fec: int, cod: int): (code: Code)
    requires 0 <= cod <= 5
    ensures code.Consistent()
  {
    if fec == 1 then
      match cod
      case 0 => Code(64800, 32400, 32208, 1.0 / 2.0)
      case 1 => Code(64800, 38880, 38688, 3.0 / 5.0)
      case 2 => Code(64800, 43200, 43040, 2.0 / 3.0)
      case 3 => Code(64800, 48600, 48408, 3.0 / 4.0)
      case 4 => Code(64800, 51840, 51648, 4.0 / 5.0)
      case 5 => Code(64800, 54000, 53840, 5.0 / 6.0)
    else
      match cod
      case 0 => Code(16200, 7200, 7032, 4.0 / 9.0)
      case 1 => Code(16200, 9720, 9552, 3.0 / 5.0)
      case 2 => Code(16200, 10800, 10632, 2.0 / 3.0)
      case 3 => Code(16200, 11880, 11712, 11.0 / 15.0)
      case 4 => Code(16200, 12600, 12432, 7.0 / 9.0)
      case 5 => Code(16200, 13320, 13152, 37.0 / 45.0)
  }

  function BitsPerCell(modulation: int): int {
    match modulation case 0 => 2 case 1 => 4 case 2 => 6 case 3 => 8 case _ => 2
  }

  // The maximum rate gives every cell not spent on coding overhead to the payload.
  function MaxRate(time: real, k: Code, bits: int, cells: int, blocks: real): real
    requires time > 0.0
  {
    ((bits * cells) as real - (k.length as real - k.bch as real + 80.0) * blocks) / time
  }

  // HEM drops the sync byte and NPD the null packet counter.
  function HeaderFactor(hem: int, npd: int): real {
    (if hem == 1 then 188.0 / 187.0 else 1.0) * (if npd == 1 then 188.0 / 189.0 else 1.0)
  }

  function PlpRate(time: real, k: Code, blocks: real, factor: real): real
    requires time > 0.0 && k.Consistent()
  {
    k.length as real * blocks * k.rate * (k.bch as real / k.ldpc as real)
    * ((k.bch as real - 80.0) / k.bch as real) / time * factor
  }

  const LOWEST := -2147483647.0
  const HIGHEST := 2147483647.0

  function Clamp(rate: real): (clamped: real)
    ensures -2147483647.0 <= clamped <= 2147483647.0
    ensures -2147483647.0 <= rate <= 2147483647.0 ==> clamped == rate
    ensures rate < clamped ==> clamped == -2147483647.0
    ensures clamped < rate ==> clamped == 2147483647.0
  {
    if rate <= LOWEST then LOWEST else if rate > HIGHEST then HIGHEST else rate
  }

  // CalcT2MI_Bitrate: the maximum rate when calcMax is 1, otherwise the rate of the PLP.
  function Bitrate(calcMax: int, f: Frame, modulation: int, fec: int, cod: int, blocks: real, hem: int, npd: int): int
    requires 0 <= cod <= 5
  {
    var k := CodeOf(fec, cod);
    if calcMax == 1 then Trunc(Clamp(MaxRate(FrameTime(f), k, BitsPerCell(modulation), CellsTotal(f), blocks)))
    else Trunc(Clamp(PlpRate(FrameTime(f), k, blocks, HeaderFactor(hem, npd))))
  }

  // Cells of the k-th symbol of a frame: first the P2 symbols, then the data symbols, of which
  // the last one closes the frame unless the guard interval is 1/128.
  function SymbolCells(f: Frame, k: nat): int {
    if k < SymbolsP2(f.fft) then CellsP2(f)
    else if k == SymbolsP2(f.fft) + f.dataSymbols - 1 && f.guard != 4 then CellsFrameClosing(f)
    else CellsData(f)
  }

  function CellsUpTo(f: Frame, n: nat): int {
    if n == 0 then 0 else CellsUpTo(f, n - 1) + SymbolCells(f, n - 1)
  }

  lemma {:induction false} CellsOfP2(f: Frame, n: nat)
    requires n <= SymbolsP2(f.fft)
    ensures CellsUpTo(f, n) == n * CellsP2(f)
  {
    if n == 0 {
    } else {
      CellsOfP2(f, n - 1);
    }
  }

  lemma {:induction false} CellsOfData(f: Frame, n: nat)
    requires f.guard == 4 || n < f.dataSymbols
    ensures CellsUpTo(f, SymbolsP2(f.fft) + n) == SymbolsP2(f.fft) * CellsP2(f) + n * CellsData(f)
  {
    if n == 0 {
      CellsOfP2(f, SymbolsP2(f.fft));
    } else {
      CellsOfData(f, n - 1);
    }
  }

  // C_tot is what the symbols of the frame hold, less the 1840 cells of L1-pre and L1-post.
  lemma CellsTotalIsSum(f: Frame)
    requires f.dataSymbols >= 1 || f.guard == 4
    ensures CellsTotal(f) + 1840 + f.l1Post == CellsUpTo(f, SymbolsP2(f.fft) + f.dataSymbols)
  {
    if f.guard == 4 {
      CellsOfData(f, f.dataSymbols);
    } else {
      CellsOfData(f, f.dataSymbols - 1);
    }
  }

  // A closing symbol holds fewer cells than the data symbol it replaces, so that a frame of
  // guard interval 1/128 gains their difference.
  lemma ClosingSymbolCosts(f: Frame)
    requires f.guard != 4
    ensures CellsTotal(f.(guard := 4)) - CellsTotal(f) == CellsData(f) - CellsFrameClosing(f)
  {
    CellsWithoutGuard(f);
    var data := CellsData(f);
    assert f.dataSymbols * data == (f.dataSymbols - 1) * data + data;
  }

  lemma CellsWithoutGuard(f: Frame)
    ensures CellsP2(f.(guard := 4)) == CellsP2(f) && CellsData(f.(guard := 4)) == CellsData(f)
  {
  }

  lemma ClosingSymbolIsSmaller(f: Frame)
    ensures CellsData(f) > 0 ==> CellsFrameClosing(f) < CellsData(f)
  {
  }

  // A sparser pilot pattern leaves more cells: PP2 more than PP1 in every row that has both,
  // except in the one of 8K frames in normal carrier mode, which reads 6124 after 6208.
  lemma SecondPatternGains(f: Frame)
    requires 0 <= f.fft <= 7 && f.fft != 5 && f.fft != 7
    ensures CellsData(f.(pilot := 0)) < CellsData(f.(pilot := 1))
      <==> !((f.fft == 1 || f.fft == 6) && f.extended == 0)
  {
  }

  // Extended carrier mode never loses a cell of a data symbol, and only 16K and 32K frames and
  // 8K frames have it.
  lemma ExtendedModeGains(f: Frame)
    requires f.extended == 0
    ensures CellsData(f) <= CellsData(f.(extended := 1)) && CellsFrameClosing(f) <= CellsFrameClosing(f.(extended := 1))
    ensures f.fft == 3 || f.fft == 0 || f.fft == 2 ==> CellsData(f) == CellsData(f.(extended := 1))
  {
  }

  // Weighted totals of the table rows over the first n pilot patterns. They change with any one
  // entry, and when two entries of a row are exchanged.
  function RowTotals(f: Frame, n: nat): (int, int) {
    if n == 0 then (0, 0)
    else
      var front, g := RowTotals(f, n - 1), f.(pilot := n - 1);
      (front.0 + n * CellsData(g), front.1 + n * CellsFrameClosing(g))
  }

  function TableFrame(fft: int, extended: int): Frame {
    Frame(0, fft, 0, 0, 0, 0, extended, 0)
  }

  lemma TableTotals1K()
    ensures RowTotals(TableFrame(3, 0), 8) == (12000, 8728)
  {
  }

  lemma TableTotals2K()
    ensures RowTotals(TableFrame(0, 0), 8) == (35464, 27174)
  {
  }

  lemma TableTotals4K()
    ensures RowTotals(TableFrame(2, 0), 8) == (71674, 52683)
  {
  }

  lemma TableTotals8K()
    ensures RowTotals(TableFrame(1, 0), 8) == (197570, 109058)
  {
  }

  lemma TableTotalsExtended8K()
    ensures RowTotals(TableFrame(1, 1), 8) == (200456, 110518)
  {
  }

  lemma TableTotals16K()
    ensures RowTotals(TableFrame(4, 0), 8) == (475510, 288761)
  {
  }

  lemma TableTotalsExtended16K()
    ensures RowTotals(TableFrame(4, 1), 8) == (485522, 294865)
  {
  }

  lemma TableTotals32K()
    ensures RowTotals(TableFrame(5, 0), 8) == (715760, 274118)
  {
  }

  lemma TableTotalsExtended32K()
    ensures RowTotals(TableFrame(5, 1), 8) == (730860, 279910)
  {
  }

  lemma TableTotals()
    ensures RowTotals(TableFrame(3, 0), 8) == (12000, 8728)
    ensures RowTotals(TableFrame(0, 0), 8) == (35464, 27174)
    ensures RowTotals(TableFrame(2, 0), 8) == (71674, 52683)
    ensures RowTotals(TableFrame(1, 0), 8) == (197570, 109058)
    ensures RowTotals(TableFrame(1, 1), 8) == (200456, 110518)
    ensures RowTotals(TableFrame(4, 0), 8) == (475510, 288761)
    ensures RowTotals(TableFrame(4, 1), 8) == (485522, 294865)
    ensures RowTotals(TableFrame(5, 0), 8) == (715760, 274118)
    ensures RowTotals(TableFrame(5, 1), 8) == (730860, 279910)
  {
    TableTotals1K();
    TableTotals2K();
    TableTotals4K();
    TableTotals8K();
    TableTotalsExtended8K();
    TableTotals16K();
    TableTotalsExtended16K();
    TableTotals32K();
    TableTotalsExtended32K();
  }

  function P2Total(s1: int, n: nat): int {
    if n == 0 then 0 else P2Total(s1, n - 1) + n * CellsP2(TableFrame(n - 1, 0).(s1 := s1))
  }

  lemma P2Totals()
    ensures P2Total(0, 8) == 409074 && P2Total(1, 8) == 340096
  {
  }

  // The guard interval in units of 1/256 of a symbol
  lemma GuardFractionIs(guard: int)
    ensures GuardFraction(guard) * 256.0
      == match guard case 1 => 16.0 case 2 => 32.0 case 3 => 64.0 case 4 => 2.0 case 5 => 38.0 case 6 => 19.0 case _ => 8.0
  {
  }

  // 16K carriers for all P2 symbols together, and 32K for the one of the 32K modes
  lemma FftCarriersIs(fft: int)
    ensures FftCarriers(fft) * SymbolsP2(fft) == if fft == 5 || fft == 7 then 32768 else 16384
  {
  }

  // A sample lasts 1/8 of 7 / MHz microseconds at 5, 6, 7, 8 and 10 MHz, and 71/131 at 1.7 MHz.
  lemma ElementaryPeriodIs(bandwidth: int)
    ensures ElementaryPeriod(bandwidth) * 1000000.0
      == if 1 <= bandwidth <= 4 then 7.0 / (8.0 * (bandwidth + 4) as real)
         else if bandwidth == 5 then 7.0 / 80.0
         else 71.0 / 131.0
  {
  }

  // The frame lasts 2048 samples for the P1 symbol and one more symbol time for every further
  // symbol, whose guard interval comes on top of its carriers.
  lemma FrameTimeGrows(guard: real, carriers: int, symbols: int, period: real)
    requires guard > 0.0 && carriers > 0 && symbols > 0 && period > 0.0
    ensures FrameTimeOf(guard, carriers, 1, period) == (2048.0 + carriers as real + guard * carriers as real) * period
    ensures FrameTimeOf(guard, carriers, symbols + 1, period) - FrameTimeOf(guard, carriers, symbols, period)
      == (carriers as real + guard * carriers as real) * period
  {
  }

  lemma FrameTimeIs(f: Frame)
    ensures FrameTime(f)
      == FrameTimeOf(GuardFraction(f.guard), FftCarriers(f.fft), SymbolsP2(f.fft) + f.dataSymbols, ElementaryPeriod(f.bandwidth))
  {
  }

  // The tables of codes: an index means a higher rate, and the BCH code takes 168 parity bits
  // of a short block and 160 or 192 of a long one.
  lemma CodeRows(fec: int, cod: int)
    requires 0 <= cod <= 5
    ensures CodeOf(fec, cod).length == if fec == 1 then 64800 else 16200
    ensures CodeOf(fec, cod).ldpc - CodeOf(fec, cod).bch
      == if fec != 1 then 168 else if cod == 2 || cod == 5 then 160 else 192
    ensures cod < 5 ==> CodeOf(fec, cod).rate < CodeOf(fec, cod + 1).rate
    ensures CodeOf(fec, cod).ldpc % 360 == 0
  {
  }

  // The reported rates in the arguments. The modulations load 2, 4, 6 or 8 bits on a cell.
  lemma ReportedRates(f: Frame, modulation: int, fec: int, cod: int, blocks: real, hem: int, npd: int)
    requires 0 <= cod <= 5 && 0 <= modulation <= 3
    ensures var k := CodeOf(fec, cod);
      && Bitrate(1, f, modulation, fec, cod, blocks, hem, npd)
         == Trunc(Clamp(MaxRate(FrameTime(f), k, 2 * (modulation + 1), CellsTotal(f), blocks)))
      && Bitrate(0, f, modulation, fec, cod, blocks, hem, npd)
         == Trunc(Clamp(PlpRate(FrameTime(f), k, blocks,
                                (if hem == 1 then 188.0 / 187.0 else 1.0) * if npd == 1 then 188.0 / 189.0 else 1.0)))
  {
  }

  // At the maximum rate a frame carries all its modulated bits but the parity and the 80 header
  // bits of each block.
  lemma MaxPayloadIsExact(time: real, k: Code, bits: int, cells: int, blocks: real)
    requires time > 0.0
    ensures MaxRate(time, k, bits, cells, blocks) * time
      == (bits * cells) as real - blocks * (k.length - k.bch + 80) as real
  {
  }

  // A frame of 60 data symbols in 16K SISO with guard interval 1/32 and pilot pattern PP1, at
  // 8 MHz, and the maximum rate of 90 blocks of 64800 bits in 256QAM 2/3
  lemma BitrateExample()
    ensures CellsTotal(Frame(0, 4, 0, 60, 0, 4, 0, 2000)) == 744203
    ensures Bitrate(1, Frame(0, 4, 0, 60, 0, 4, 0, 2000), 3, 1, 2, 90.0, 0, 0) == 35307245
  {
  }

  lemma PlpRateInClosedForm(time: real, k: Code, blocks: real, factor: real)
    requires time > 0.0 && k.Consistent()
    ensures PlpRate(time, k, blocks, factor) == blocks * (k.bch - 80) as real / time * factor
  {
  }

  // With HEM and NPD off, the two rates differ by the cells the FEC blocks leave free.
  lemma GapIsFreeCells(time: real, k: Code, bits: int, cells: int, blocks: real)
    requires time > 0.0 && k.Consistent()
    ensures MaxRate(time, k, bits, cells, blocks) - PlpRate(time, k, blocks, 1.0)
            == ((bits * cells) as real - blocks * k.length as real) / time
  {
  }

  // In every mode: the PLP rate is at most the maximum exactly when its code words, enlarged
  // by what the header modes save, fit the modulated cells.
  lemma RateFitsIffBlocksFit(time: real, k: Code, bits: int, cells: int, blocks: real, factor: real)
    requires time > 0.0 && k.Consistent()
    ensures PlpRate(time, k, blocks, factor) <= MaxRate(time, k, bits, cells, blocks)
            <==> blocks * k.length as real + (factor - 1.0) * (blocks * (k.bch - 80) as real) <= (bits * cells) as real
  {
  }

  lemma ClampMonotone(x: real, y: real)
    requires x <= y
    ensures Clamp(x) <= Clamp(y)
    ensures Trunc(Clamp(x)) <= Trunc(Clamp(y))
  {
  }

  // Admission for the T2 frame: with HEM and NPD off, a PLP whose code words fit the cells of
  // the frame never reports a rate above the reported maximum.
  lemma AdmittedPlpFits(f: Frame, modulation: int, fec: int, cod: int, blocks: real, hem: int, npd: int)
    requires 0 <= cod <= 5 && hem != 1 && npd != 1
    requires blocks * CodeOf(fec, cod).length as real <= (BitsPerCell(modulation) * CellsTotal(f)) as real
    ensures Bitrate(0, f, modulation, fec, cod, blocks, hem, npd) <= Bitrate(1, f, modulation, fec, cod, blocks, hem, npd)
  {
    var k := CodeOf(fec, cod);
    RateFitsIffBlocksFit(FrameTime(f), k, BitsPerCell(modulation), CellsTotal(f), blocks, 1.0);
    ClampMonotone(PlpRate(FrameTime(f), k, blocks, 1.0),
                  MaxRate(FrameTime(f), k, BitsPerCell(modulation), CellsTotal(f), blocks));
  }
}
