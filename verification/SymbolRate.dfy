/** Symbol rate and burst bitrate of the QAM_A, QPSK and DVB-S2 modulators. CalcSymbolRate
    turns a play rate into the next full kilobaud, CalcBurtBitrate goes the other way. */
module SymbolRate {
  import opened CArithmetic

  // gnQAMMode, gnCodeRate, or gnConstellation with gnCodeRate and gnPilot
  datatype Modulation =
    | QamA(mode: int)
    | Qpsk(code: int)
    | DvbS2(constellation: int, code: int, pilot: int)
  {
    predicate Valid() {
      match this
      case QamA(mode) => 0 <= mode <= 4
      case Qpsk(_) => true
      case DvbS2(constellation, _, _) => 0 <= constellation <= 3
    }
  }

  function ConvolutionalRate(code: int): real {
    match code case 0 => 1.0 / 2.0 case 1 => 2.0 / 3.0 case 2 => 3.0 / 4.0 case 3 => 5.0 / 6.0 case _ => 7.0 / 8.0
  }

  // Rows of EN 302 307 clause 5.3 for normal frames: code rate, Kbch and Nbch.
  datatype Fec = Fec(rate: real, kbch: real, nbch: real)

  function FecRow(row: nat): Fec {
    match row
    case 0 => Fec(1.0 / 4.0, 16008.0, 16200.0)
    case 1 => Fec(1.0 / 3.0, 21408.0, 21600.0)
    case 2 => Fec(2.0 / 5.0, 25728.0, 25920.0)
    case 3 => Fec(1.0 / 2.0, 32208.0, 32400.0)
    case 4 => Fec(3.0 / 5.0, 38688.0, 38880.0)
    case 5 => Fec(2.0 / 3.0, 43040.0, 43200.0)
    case 6 => Fec(3.0 / 4.0, 48408.0, 48600.0)
    case 7 => Fec(4.0 / 5.0, 51648.0, 51840.0)
    case 8 => Fec(5.0 / 6.0, 53840.0, 54000.0)
    case 9 => Fec(8.0 / 9.0, 57472.0, 57600.0)
    case _ => Fec(9.0 / 10.0, 58192.0, 58320.0)
  }

  // A code rate index above the list of its constellation means 9/10.
  function FecOf(constellation: int, code: int): Fec {
    match constellation
    case 0 => FecRow(if 0 <= code <= 9 then code else 10)
    case 1 => FecRow(match code case 0 => 4 case 1 => 5 case 2 => 6 case 3 => 8 case 4 => 9 case _ => 10)
    case 2 => FecRow(if 0 <= code <= 4 then 5 + code else 10)
    case _ => FecRow(if 0 <= code <= 3 then 6 + code else 10)
  }

  function Slots(constellation: int): int {
    match constellation case 0 => 360 case 1 => 240 case 2 => 180 case _ => 144
  }

  // EN 302 307 clause 5.5.3: pilot blocks of 36 symbols after every 16 slots.
  function FramingEfficiency(constellation: int, pilot: int): (efficiency: real)
    ensures 0.9 < efficiency < 1.0
  {
    var slots := Slots(constellation) as real;
    var pilots := if pilot == 0 then 0.0 else 36.0 * Trunc((slots - 1.0) / 16.0) as real;
    assert 0.0 <= pilots <= 0.05 * 90.0 * slots;
    RatioAbove(90.0 * slots, 90.0 * (slots + 1.0) + pilots);
    90.0 * slots / (90.0 * (slots + 1.0) + pilots)
  }

  lemma RatioAbove(x: real, y: real)
    requires 0.0 < x < y && 0.9 * y < x
    ensures 0.9 < x / y < 1.0
  {
    var q := x / y;
    assert q * y == x;
    var above, below := q - 0.9, 1.0 - q;
    assert above * y == x - 0.9 * y && below * y == y - x;
    SameSign(above, y);
    SameSign(below, y);
  }

  lemma EfficiencyAbove(rate: real, framing: real, share: real)
    requires rate >= 0.25 && framing > 0.9 && share > 0.9
    ensures rate * framing * share > 0.2
  {
  }

  // The pilot blocks of a frame: one after every 16 slots, but none at its end
  function PilotBlocks(slots: nat): set<nat> {
    set k: nat | k < slots && k >= 1 && k % 16 == 0
  }

  lemma {:induction false} CountPilotBlocks(slots: nat)
    requires slots >= 1
    ensures |PilotBlocks(slots)| == (slots - 1) / 16
  {
    if slots == 1 {
      assert PilotBlocks(1) == {};
    } else {
      var k := slots - 1;
      CountPilotBlocks(k);
      assert PilotBlocks(slots) == PilotBlocks(k) + if k % 16 == 0 then {k} else {};
    }
  }

  // 64800 coded bits make S slots of 90 symbols. A frame adds a header of one slot, and with
  // pilots 36 symbols for each pilot block.
  function FrameSymbols(constellation: int, pilot: int): int {
    var slots := match constellation case 0 => 360 case 1 => 240 case 2 => 180 case _ => 144;
    90 * (slots + 1) + if pilot == 0 then 0 else 36 * |PilotBlocks(slots)|
  }

  // The efficiency is the share of the symbols that carry data.
  lemma EfficiencyOfFrame(constellation: int, pilot: int)
    requires 0 <= constellation <= 3
    ensures FrameSymbols(constellation, pilot) > 0
    ensures FramingEfficiency(constellation, pilot) * FrameSymbols(constellation, pilot) as real
      == 64800.0 / (constellation as real + 2.0)
    ensures pilot == 0 ==>
      FrameSymbols(constellation, pilot)
      == 90 * match constellation case 0 => 361 case 1 => 241 case 2 => 181 case 3 => 145
    ensures pilot != 0 ==>
      FrameSymbols(constellation, pilot) == FrameSymbols(constellation, 0)
        + 36 * |PilotBlocks(match constellation case 0 => 360 case 1 => 240 case 2 => 180 case 3 => 144)|
  {
    var slots := Slots(constellation);
    CountPilotBlocks(slots);
    FloorOfQuotient(slots - 1, 16);
  }

  // The rows of EN 302 307: the BCH block is what the code rate leaves of 64800 bits, and its
  // parity takes 128, 160 or 192 of them.
  lemma FecRows(row: nat)
    ensures FecRow(row).nbch == 64800.0 * FecRow(row).rate
    ensures FecRow(row).nbch - FecRow(row).kbch
      == if row >= 9 then 128.0 else if row == 5 || row == 8 then 160.0 else 192.0
    ensures row < 10 ==> FecRow(row).rate < FecRow(row + 1).rate
    ensures FecRow(row).rate in {
      1.0 / 4.0, 1.0 / 3.0, 2.0 / 5.0, 1.0 / 2.0, 3.0 / 5.0, 2.0 / 3.0, 3.0 / 4.0, 4.0 / 5.0, 5.0 / 6.0, 8.0 / 9.0, 9.0 / 10.0}
  {
  }

  // For each constellation a higher index means a higher code rate, from its lowest one up to
  // 9/10, which also stands for every index beyond the list. 8PSK skips 4/5.
  lemma FecIndices(constellation: int, code: int)
    requires 0 <= constellation <= 3
    ensures var last := match constellation case 0 => 10 case 1 => 5 case 2 => 5 case 3 => 4;
      && FecOf(constellation, 0).rate
         == (match constellation case 0 => 1.0 / 4.0 case 1 => 3.0 / 5.0 case 2 => 2.0 / 3.0 case 3 => 3.0 / 4.0)
      && (0 <= code < last ==> FecOf(constellation, code).rate < FecOf(constellation, code + 1).rate)
      && (code < 0 || code >= last ==> FecOf(constellation, code).rate == 9.0 / 10.0)
      && (constellation == 1 ==> FecOf(constellation, code).rate != 4.0 / 5.0)
  {
    assert FecRow(10).rate == 0.9;
  }

  // What the two formulas use of a setting: bits of a symbol, code rate, and for DVB-S2 the
  // product of code rate, framing efficiency and payload share of a BCH frame.
  datatype Channel =
    | ReedSolomon(bits: real)
    | Convolutional(rate: real)
    | Satellite(bits: real, efficiency: real)
  {
    predicate Valid() {
      match this
      case ReedSolomon(bits) => bits >= 1.0
      case Convolutional(rate) => rate >= 0.5
      case Satellite(bits, efficiency) => bits >= 2.0 && efficiency > 0.2
    }
  }

  function ChannelOf(m: Modulation): (channel: Channel)
    requires m.Valid()
    ensures channel.Valid()
  {
    match m
    case QamA(mode) => ReedSolomon((mode + 4) as real)
    case Qpsk(code) => Convolutional(ConvolutionalRate(code))
    case DvbS2(constellation, code, pilot) =>
      var fec := FecOf(constellation, code);
      var framing, share := FramingEfficiency(constellation, pilot), (fec.kbch - 80.0) / fec.nbch;
      EfficiencyAbove(fec.rate, framing, share);
      Satellite(constellation as real + 2.0, fec.rate * framing * share)
  }

  // CalcBurtBitrate and CalcBurtBitrate_DVB_S2
  function BurstBitrate(c: Channel, symbolRate: int): int
    requires c.Valid()
  {
    match c
    case ReedSolomon(bits) => Trunc(symbolRate as real / (204.0 / 188.0) * bits)
    case Convolutional(rate) => Trunc((symbolRate * 2) as real / (204.0 / 188.0) * rate)
    case Satellite(bits, efficiency) => Trunc(symbolRate as real * bits * efficiency)
  }

  function NextThousand(n: int): int {
    (if Rem(n, 1000) > 0 then Div(n, 1000) + 1 else Div(n, 1000)) * 1000
  }

  // The symbol rate before the program cuts it to an integer.
  function ExactSymbolRate(c: Channel, bitrate: int): real
    requires c.Valid()
  {
    match c
    case ReedSolomon(bits) => bitrate as real * (204.0 / 188.0) / bits
    case Convolutional(rate) => bitrate as real / 2.0 * (204.0 / 188.0) / rate
    case Satellite(bits, efficiency) =>
      SatellitePositive(bits, efficiency);
      bitrate as real / (bits * efficiency)
  }

  // CalcSymbolRate and CalcSymbolRate_DVBS2
  function SymbolRateFor(c: Channel, bitrate: int): int
    requires c.Valid()
  {
    NextThousand(Trunc(ExactSymbolRate(c, bitrate)))
  }

  // Payload bits that one symbol carries after coding and framing.
  function BitsPerSymbol(c: Channel): real
    requires c.Valid()
  {
    match c
    case ReedSolomon(bits) => 188.0 / 204.0 * bits
    case Convolutional(rate) => 2.0 * (188.0 / 204.0) * rate
    case Satellite(bits, efficiency) => bits * efficiency
  }

  lemma SatellitePositive(bits: real, efficiency: real)
    requires bits >= 2.0 && efficiency > 0.2
    ensures bits * efficiency > 0.25
  {
  }

  function Times(x: int, k: real): real {
    x as real * k
  }

  function Per(x: int, k: real): real
    requires k > 0.0
  {
    x as real / k
  }

  // Both directions use the same number of bits per symbol.
  predicate SameEfficiency(c: Channel, symbolRate: int, bitrate: int)
    requires c.Valid()
  {
    && BitsPerSymbol(c) > 0.25
    && BurstBitrate(c, symbolRate) == Trunc(Times(symbolRate, BitsPerSymbol(c)))
    && ExactSymbolRate(c, bitrate) == Per(bitrate, BitsPerSymbol(c))
  }

  lemma EfficiencyAgrees(c: Channel, symbolRate: int, bitrate: int)
    requires c.Valid()
    ensures SameEfficiency(c, symbolRate, bitrate)
  {
    match c {
      case ReedSolomon(bits) => ReedSolomonAgrees(bits, symbolRate, bitrate);
      case Convolutional(rate) => ConvolutionalAgrees(rate, symbolRate, bitrate);
      case Satellite(bits, efficiency) => SatelliteAgrees(bits, efficiency, symbolRate, bitrate);
    }
  }

  lemma ReedSolomonAgrees(bits: real, symbolRate: int, bitrate: int)
    requires bits >= 1.0
    ensures SameEfficiency(ReedSolomon(bits), symbolRate, bitrate)
  {
  }

  lemma ConvolutionalAgrees(rate: real, symbolRate: int, bitrate: int)
    requires rate >= 0.5
    ensures SameEfficiency(Convolutional(rate), symbolRate, bitrate)
  {
  }

  lemma SatelliteAgrees(bits: real, efficiency: real, symbolRate: int, bitrate: int)
    requires bits >= 2.0 && efficiency > 0.2
    ensures SameEfficiency(Satellite(bits, efficiency), symbolRate, bitrate)
  {
  }

  lemma NextThousandBounds(n: int)
    requires n >= 0
    ensures NextThousand(n) % 1000 == 0 && n <= NextThousand(n) <= n + 999
  {
  }

  lemma MultipleInWindow(a: int, b: int)
    requires a % 1000 == 0 && b % 1000 == 0 && -1000 < a - b < 1000
    ensures a == b
  {
  }

  lemma SplitProduct(x: real, y: real, k: real)
    ensures (x - y) * k == x * k - y * k
  {
  }

  lemma QuotientFloor(x: real, k: real)
    requires k > 0.25 && x >= 0.0
    ensures x / k >= 0.0
    ensures Trunc(x / k) as real * k <= x < Trunc(x / k) as real * k + k
  {
    var y := x / k;
    assert y * k == x;
    if y < 0.0 {
      PositiveProduct(-y, k);
    }
    MultipleBelow(x, k, y, Trunc(y) as real);
    MultipleAbove(x, k, y, Trunc(y) as real);
  }

  lemma MultipleBelow(x: real, k: real, y: real, t: real)
    requires k > 0.0 && y * k == x && t <= y
    ensures t * k <= x
  {
  }

  lemma MultipleAbove(x: real, k: real, y: real, t: real)
    requires k > 0.0 && y * k == x && y < t + 1.0
    ensures x < t * k + k
  {
    var next := t + 1.0;
    ProductBelow(y, next, k);
    assert next * k == t * k + k;
  }

  // Truncating the bitrate loses less than one bit per second, hence at most four symbols.
  lemma RecoveredWithinFour(s: nat, k: real)
    requires k > 0.25
    ensures s - 4 <= Trunc(Trunc(s as real * k) as real / k) <= s
    ensures 0 <= Trunc(Trunc(s as real * k) as real / k)
  {
    NonNegativeProduct(s as real, k);
    var b := Trunc(s as real * k);
    QuotientFloor(b as real, k);
    var t := Trunc(b as real / k);
    var ahead := t as real - s as real;
    assert ahead * k == t as real * k - s as real * k;
    if t >= s + 1 {
      NonNegativeProduct(ahead - 1.0, k);
    }
    if t + 5 <= s {
      NonNegativeProduct(-ahead - 5.0, k);
    }
  }

  lemma RecoverFullKilobauds(s: nat, k: real, burst: int, exact: real)
    requires k > 0.25 && burst == Trunc(Times(s, k)) && exact == Per(burst, k)
    ensures NextThousand(Trunc(exact)) == s <==> s % 1000 == 0
  {
    RecoveredWithinFour(s, k);
    var t := Trunc(exact);
    NextThousandBounds(t);
    if s % 1000 == 0 {
      MultipleInWindow(NextThousand(t), s);
    }
  }

  // A burst bitrate is close to the requested one, and covers it exactly unless the symbol rate
  // t that the program truncates to was a full kilobaud that carries less than requested.
  predicate Covers(requested: nat, k: real, t: int, burst: int) {
    && requested as real - k - 1.0 < burst as real <= requested as real + 999.0 * k
    && (burst >= requested <==> t % 1000 != 0 || Times(t, k) == requested as real)
  }

  lemma CoverRequest(r: nat, k: real, t: int, s: int, burst: int)
    requires k > 0.25 && t == Trunc(Per(r, k)) && burst == Trunc(Times(s, k)) && InWindow(t, s)
    ensures Covers(r, k, t, burst)
  {
    QuotientFloor(r as real, k);
    CloseToRequest(r, k, t, s, Times(t, k), Times(s, k));
    CoversExactly(r, k, t, s, Times(t, k), Times(s, k));
  }

  lemma CloseToRequest(r: nat, k: real, t: int, s: int, low: real, x: real)
    requires k > 0.25 && low == t as real * k && x == s as real * k
    requires low <= r as real < low + k && 0 <= t <= s <= t + 999
    ensures r as real - k - 1.0 < Trunc(x) as real <= r as real + 999.0 * k
  {
    WithinWindow(r as real, t as real, s as real, k);
  }

  lemma CoversExactly(r: nat, k: real, t: int, s: int, low: real, x: real)
    requires k > 0.25 && low == t as real * k && x == s as real * k
    requires 0.0 <= low <= r as real < low + k && InWindow(t, s)
    ensures Trunc(x) >= r <==> t % 1000 != 0 || low == r as real
  {
    if t % 1000 != 0 {
      AboveWindow(r as real, t as real, s as real, k);
    } else {
      ReachesFromBelow(r, low);
    }
  }

  lemma ReachesFromBelow(r: nat, x: real)
    requires 0.0 <= x <= r as real
    ensures Trunc(x) >= r <==> x == r as real
  {
  }

  lemma AboveWindow(r: real, t: real, s: real, k: real)
    requires k > 0.0 && t + 1.0 <= s && r < t * k + k
    ensures r < s * k
  {
    var next := t + 1.0;
    NonNegativeProduct(s - next, k);
    SplitProduct(s, next, k);
    assert next * k == t * k + k;
  }

  lemma WithinWindow(r: real, t: real, s: real, k: real)
    requires k > 0.0 && 0.0 <= t <= s <= t + 999.0 && t * k <= r < t * k + k
    ensures 0.0 <= s * k && r - k < s * k <= r + 999.0 * k
  {
    var more := s - t;
    SplitProduct(s, t, k);
    NonNegativeProduct(t, k);
    NonNegativeProduct(more, k);
    NonNegativeProduct(999.0 - more, k);
    SplitProduct(999.0, more, k);
  }

  lemma RoundTripOn(c: Channel, symbolRate: nat)
    requires c.Valid()
    ensures SymbolRateFor(c, BurstBitrate(c, symbolRate)) == symbolRate <==> symbolRate % 1000 == 0
  {
    var burst := BurstBitrate(c, symbolRate);
    EfficiencyAgrees(c, symbolRate, burst);
    RecoverFullKilobauds(symbolRate, BitsPerSymbol(c), burst, ExactSymbolRate(c, burst));
  }

  // Symbol rate to burst bitrate and back is the identity exactly on full kilobauds.
  lemma RoundTrip(m: Modulation, symbolRate: nat)
    requires m.Valid()
    ensures var c := ChannelOf(m);
            SymbolRateFor(c, BurstBitrate(c, symbolRate)) == symbolRate <==> symbolRate % 1000 == 0
  {
    RoundTripOn(ChannelOf(m), symbolRate);
  }

  predicate InWindow(t: int, s: int) {
    t <= s <= t + 999 && (t % 1000 != 0 <==> t < s)
  }

  lemma BurstCoversRequestOn(c: Channel, bitrate: nat, s: int)
    requires c.Valid() && InWindow(Trunc(ExactSymbolRate(c, bitrate)), s)
    ensures Covers(bitrate, BitsPerSymbol(c), Trunc(ExactSymbolRate(c, bitrate)), BurstBitrate(c, s))
  {
    EfficiencyAgrees(c, s, bitrate);
    CoverRequest(bitrate, BitsPerSymbol(c), Trunc(ExactSymbolRate(c, bitrate)), s, BurstBitrate(c, s));
  }

  lemma RateIsNextThousand(c: Channel, bitrate: nat)
    requires c.Valid()
    ensures InWindow(Trunc(ExactSymbolRate(c, bitrate)), SymbolRateFor(c, bitrate))
  {
  }

  // Bitrate to symbol rate and back: the burst bitrate offered for a requested bitrate.
  lemma BurstCoversRequest(m: Modulation, bitrate: nat)
    requires m.Valid()
    ensures var c := ChannelOf(m);
            Covers(bitrate, BitsPerSymbol(c), Trunc(ExactSymbolRate(c, bitrate)),
                   BurstBitrate(c, SymbolRateFor(c, bitrate)))
  {
    var c := ChannelOf(m);
    RateIsNextThousand(c, bitrate);
    BurstCoversRequestOn(c, bitrate, SymbolRateFor(c, bitrate));
  }

  // A DVB-S2 frame of F symbols carries exactly the K_bch bits of its BCH block less the 80 of
  // the baseband header.
  lemma FramePayload(constellation: int, code: int, pilot: int)
    requires 0 <= constellation <= 3
    ensures Carries(BitsPerSymbol(ChannelOf(DvbS2(constellation, code, pilot))), FrameSymbols(constellation, pilot))
      == FecOf(constellation, code).kbch - 80.0
  {
    var framing, symbols := FramingEfficiency(constellation, pilot), FrameSymbols(constellation, pilot);
    SatelliteBits(constellation, code, pilot);
    assert Carries(framing, symbols) == 64800.0 / (constellation as real + 2.0) by {
      EfficiencyOfFrame(constellation, pilot);
    }
    FecIsRow(constellation, code);
    PayloadOfSymbols(constellation as real + 2.0, FecOf(constellation, code), framing, symbols);
  }

  function Carries(bitsPerSymbol: real, symbols: int): real {
    bitsPerSymbol * symbols as real
  }

  lemma SatelliteBits(constellation: int, code: int, pilot: int)
    requires 0 <= constellation <= 3
    ensures FecOf(constellation, code).nbch > 0.0
    ensures BitsPerSymbol(ChannelOf(DvbS2(constellation, code, pilot)))
      == SatellitePayload(constellation as real + 2.0, FecOf(constellation, code), FramingEfficiency(constellation, pilot))
  {
  }

  lemma FecIsRow(constellation: int, code: int)
    requires 0 <= constellation <= 3
    ensures FecOf(constellation, code).nbch == 64800.0 * FecOf(constellation, code).rate > 0.0
  {
  }

  lemma PayloadOfSymbols(bits: real, fec: Fec, framing: real, symbols: int)
    requires bits >= 2.0 && fec.nbch == 64800.0 * fec.rate > 0.0 && Carries(framing, symbols) == 64800.0 / bits
    ensures Carries(SatellitePayload(bits, fec, framing), symbols) == fec.kbch - 80.0
  {
    var payload, share, f := fec.kbch - 80.0, (fec.kbch - 80.0) / fec.nbch, symbols as real;
    assert share * fec.nbch == payload;
    assert bits * (framing * f) == 64800.0;
    assert bits * (fec.rate * framing * share) * f == (bits * (framing * f)) * (fec.rate * share);
  }

  function SatellitePayload(bits: real, fec: Fec, framing: real): real
    requires fec.nbch > 0.0
  {
    bits * (fec.rate * framing * ((fec.kbch - 80.0) / fec.nbch))
  }

  // Pilots cost bits: every symbol rate yields less before truncation.
  lemma PilotsCost(constellation: int, code: int, pilot: int)
    requires 0 <= constellation <= 3 && pilot != 0
    ensures BitsPerSymbol(ChannelOf(DvbS2(constellation, code, pilot)))
      < BitsPerSymbol(ChannelOf(DvbS2(constellation, code, 0)))
  {
    var x := BitsPerSymbol(ChannelOf(DvbS2(constellation, code, pilot)));
    var y := BitsPerSymbol(ChannelOf(DvbS2(constellation, code, 0)));
    FramePayload(constellation, code, pilot);
    FramePayload(constellation, code, 0);
    PilotsLengthen(constellation, pilot);
    CarriesBits(ChannelOf(DvbS2(constellation, code, pilot)));
    LongerFrame(x, y, FrameSymbols(constellation, pilot), FrameSymbols(constellation, 0));
  }

  lemma CarriesBits(c: Channel)
    requires c.Valid()
    ensures BitsPerSymbol(c) > 0.0
  {
    EfficiencyAgrees(c, 0, 0);
  }

  lemma PilotsLengthen(constellation: int, pilot: int)
    requires 0 <= constellation <= 3 && pilot != 0
    ensures FrameSymbols(constellation, pilot) > FrameSymbols(constellation, 0) > 0
  {
    CountPilotBlocks(Slots(constellation));
  }

  lemma LongerFrame(x: real, y: real, f: int, g: int)
    requires x > 0.0 && f > g > 0 && Carries(x, f) == Carries(y, g)
    ensures x < y
  {
  }

  // A QAM_A symbol carries 4 to 8 bits and a QPSK symbol two bits of the convolutional code, of
  // which 188 in 204 are payload.
  lemma CablePayload(mode: int, code: int)
    requires 0 <= mode <= 4
    ensures 204.0 * BitsPerSymbol(ChannelOf(QamA(mode))) == (188 * (mode + 4)) as real
    ensures var rate := if 0 <= code <= 2 then (code + 1) as real / (code + 2) as real
                        else if code == 3 then 5.0 / 6.0 else 7.0 / 8.0;
      204.0 * BitsPerSymbol(ChannelOf(Qpsk(code))) == 376.0 * rate
  {
  }

  // QPSK 1/2 at 20 megabaud, without and with pilots
  lemma BurstExample()
    ensures BurstBitrate(ChannelOf(DvbS2(0, 3, 0)), 20000000) == 19777162
    ensures BurstBitrate(ChannelOf(DvbS2(0, 3, 1)), 20000000) == 19306532
  {
    assert Slots(0) == 360 && Trunc(359.0 / 16.0) == 22;
    assert FramingEfficiency(0, 1) == 32400.0 / 33282.0;
  }
}
