/** Size of the DVB-T2 L1-post signalling in modulated cells (Calulate_L1_Post_Size). */
module L1PostSize {
  import opened CArithmetic
  import opened DvbT2

  const K_BCH := 7032

  function BitsPerCell(l1Mod: int): (bits: int)
    ensures bits >= 1
  {
    match l1Mod case 0 => 1 case 1 => 2 case 2 => 4 case 3 => 6 case _ => 1
  }

  // BPSK carries 1 bit, and QPSK, 16QAM and 64QAM 2, 4 and 6.
  lemma BitsPerCellIs(l1Mod: int)
    ensures BitsPerCell(l1Mod) == if 1 <= l1Mod <= 3 then 2 * l1Mod else 1
  {
  }

  // The intermediate values of the program, by their names.
  datatype Sizes = Sizes(
    blocks: int,        // N_post_FEC_Block
    padding: int,       // K_L1_PADDING
    post: int,          // K_post
    sig: int,           // K_sig
    multiple: int,      // N_L1_mult
    puncturing: int,    // N_punc_temp
    temporary: int,     // N_post_temp
    coded: int,         // N_post
    cells: int)         // N_MOD_Total

  // EN 302 755 clause 7.3.1.2 multiplies by 6/5 before puncturing; the program's (int)(6.0 / 5.0) is 1.
  function Puncturing(sig: int, multiple: int): int {
    var punctured := Trunc(Trunc(6.0 / 5.0) as real * (K_BCH - sig) as real);
    if punctured < multiple - 1 then multiple - 1 else punctured
  }

  function Compute(platform: Platform, l1Mod: int, fft: int, infoSize: int): Sizes
    requires infoSize >= 0
  {
    var unpadded := infoSize + 32;
    var blocks := Round(platform, unpadded as real / K_BCH as real + 0.5);
    BlocksPositive(platform, unpadded);
    var padding := Round(platform, unpadded as real / blocks as real + 0.5) * blocks - unpadded;
    var post := unpadded + padding;
    var sig := Trunc(post as real / blocks as real);
    var group := if SymbolsP2(fft) == 1 then 2 else SymbolsP2(fft);
    var multiple := group * BitsPerCell(l1Mod);
    var puncturing := Puncturing(sig, multiple);
    var temporary := Trunc((sig + 168) as real + 16200.0 * (1.0 - 4.0 / 9.0) - puncturing as real);
    var coded := Round(platform, temporary as real / multiple as real + 0.5) * multiple;
    var cellsPerBlock := Trunc(coded as real / BitsPerCell(l1Mod) as real);
    Sizes(blocks, padding, post, sig, multiple, puncturing, temporary, coded, cellsPerBlock * blocks)
  }

  lemma BlocksPositive(platform: Platform, unpadded: int)
    requires unpadded >= 32
    ensures Round(platform, unpadded as real / K_BCH as real + 0.5) > 0
    ensures Round(platform, unpadded as real / K_BCH as real + 0.5) == RoundedUp(platform, unpadded, K_BCH)
  {
  }

  lemma ExactQuotient(q: int, d: int)
    requires d > 0
    ensures Trunc((q * d) as real / d as real) == q
  {
    assert (q * d) as real == q as real * d as real;
    assert (q * d) as real / d as real == q as real;
  }

  // Rounding a quotient up and multiplying back adds between 1 and d; the WIN32 build may add 0.
  lemma RoundedUpExcess(platform: Platform, n: int, d: int)
    requires n >= 0 && d > 0
    ensures n <= RoundedUp(platform, n, d) * d <= n + d
    ensures RoundedUp(platform, n, d) * d % d == 0
    ensures n == RoundedUp(platform, n, d) * d <==> platform == Win32 && n % d == 0 && n / d % 2 == 0
  {
  }

  // The blocks are enough: no block is padded beyond the 7032 bits of the BCH code.
  lemma SigFitsBch(platform: Platform, unpadded: int, blocks: int)
    requires unpadded >= 32 && blocks == RoundedUp(platform, unpadded, K_BCH)
    ensures blocks > 0 && 0 < RoundedUp(platform, unpadded, blocks) <= K_BCH
  {
    RoundedUpExcess(platform, unpadded, K_BCH);
    QuotientAtMost(unpadded, blocks, K_BCH);
  }

  lemma QuotientAtMost(n: int, d: int, m: int)
    requires 0 <= n <= m * d && d > 0
    ensures 0 <= n / d <= m
    ensures n / d == m ==> n % d == 0 && n == m * d
  {
  }

  // The number of blocks, K_sig and N_L1_mult from the inputs alone, without rounding in doubles
  function BlocksFor(platform: Platform, infoSize: int): (blocks: int)
    requires infoSize >= 0
    ensures blocks > 0
  {
    BlocksPositive(platform, infoSize + 32);
    RoundedUp(platform, infoSize + 32, K_BCH)
  }

  function SigFor(platform: Platform, infoSize: int): (sig: int)
    requires infoSize >= 0
  {
    RoundedUp(platform, infoSize + 32, BlocksFor(platform, infoSize))
  }

  function MultipleFor(l1Mod: int, fft: int): (multiple: int)
    ensures 1 <= multiple <= 96
  {
    (if SymbolsP2(fft) == 1 then 2 else SymbolsP2(fft)) * BitsPerCell(l1Mod)
  }

  // Beside K_sig there are 9168 = 168 + 16200 * 5 / 9 parity bits, less the punctured ones.
  function PuncturedSize(sig: int, multiple: int): int {
    sig + 9168 - if K_BCH - sig < multiple - 1 then multiple - 1 else K_BCH - sig
  }

  function TemporaryFor(platform: Platform, l1Mod: int, fft: int, infoSize: int): int
    requires infoSize >= 0
  {
    PuncturedSize(SigFor(platform, infoSize), MultipleFor(l1Mod, fft))
  }

  // Padding fills the FEC blocks evenly and within their BCH payload.
  lemma PaddingFits(platform: Platform, l1Mod: int, fft: int, infoSize: int)
    requires infoSize >= 0
    ensures var s := Compute(platform, l1Mod, fft, infoSize);
      && s.blocks == BlocksFor(platform, infoSize) > 0
      && 0 <= s.padding <= s.blocks
      && s.post == infoSize + 32 + s.padding
      && s.sig * s.blocks == s.post
      && 0 < s.sig == SigFor(platform, infoSize) <= K_BCH
  {
    var s := Compute(platform, l1Mod, fft, infoSize);
    var unpadded := infoSize + 32;
    BlocksPositive(platform, unpadded);
    RoundOfHalfMore(platform, unpadded, s.blocks);
    var sig := RoundedUp(platform, unpadded, s.blocks);
    RoundedUpExcess(platform, unpadded, s.blocks);
    assert s.post == sig * s.blocks;
    ExactQuotient(sig, s.blocks);
    SigFitsBch(platform, unpadded, s.blocks);
  }

  // Puncturing is never negative, and the coded size is the next multiple of N_L1_mult.
  lemma CodingFits(platform: Platform, l1Mod: int, fft: int, infoSize: int)
    requires infoSize >= 0
    ensures var s := Compute(platform, l1Mod, fft, infoSize);
      && s.multiple == MultipleFor(l1Mod, fft) > 0
      && s.puncturing >= s.multiple - 1 && s.puncturing >= K_BCH - s.sig >= 0
      && s.temporary == TemporaryFor(platform, l1Mod, fft, infoSize) == s.sig + 9168 - s.puncturing > 0
      && s.temporary <= s.coded <= s.temporary + s.multiple
      && s.coded % s.multiple == 0
  {
    var s := Compute(platform, l1Mod, fft, infoSize);
    PaddingFits(platform, l1Mod, fft, infoSize);
    PuncturingBound(s.sig, s.multiple);
    RoundOfHalfMore(platform, s.temporary, s.multiple);
    RoundedUpExcess(platform, s.temporary, s.multiple);
  }

  lemma PuncturingBound(sig: int, multiple: int)
    requires 0 < sig <= K_BCH && 1 <= multiple <= 96
    ensures multiple - 1 <= Puncturing(sig, multiple) && K_BCH - sig <= Puncturing(sig, multiple)
    ensures Trunc((sig + 168) as real + 16200.0 * (1.0 - 4.0 / 9.0) - Puncturing(sig, multiple) as real)
            == sig + 9168 - Puncturing(sig, multiple) == PuncturedSize(sig, multiple) > 0
  {
  }

  // Where a rounded quotient comes out exact and even, the WIN32 build rounds to the quotient.
  predicate RoundsToQuotient(platform: Platform, n: int, d: int)
    requires d > 0
  {
    platform == Win32 && n % d == 0 && n / d % 2 == 0
  }

  // The Linux build always pads and always enlarges; the WIN32 build does neither exactly when
  // the quotient, which the inputs give, is exact and even.
  lemma WhenNothingIsAdded(platform: Platform, l1Mod: int, fft: int, infoSize: int)
    requires infoSize >= 0
    ensures var s := Compute(platform, l1Mod, fft, infoSize);
      && (s.padding == 0 <==> RoundsToQuotient(platform, infoSize + 32, BlocksFor(platform, infoSize)))
      && (s.coded == s.temporary <==>
          RoundsToQuotient(platform, TemporaryFor(platform, l1Mod, fft, infoSize), MultipleFor(l1Mod, fft)))
  {
    var s := Compute(platform, l1Mod, fft, infoSize);
    BlocksPositive(platform, infoSize + 32);
    PaddingFits(platform, l1Mod, fft, infoSize);
    CodingFits(platform, l1Mod, fft, infoSize);
    RoundOfHalfMore(platform, infoSize + 32, s.blocks);
    RoundedUpExcess(platform, infoSize + 32, s.blocks);
    RoundOfHalfMore(platform, s.temporary, s.multiple);
    RoundedUpExcess(platform, s.temporary, s.multiple);
  }

  // An input for which the WIN32 build adds nothing: an empty L1-post with BPSK and 16K FFT.
  lemma NothingIsAddedTo32Bits()
    ensures var s := Compute(Win32, 0, 4, 0);
      s.blocks == 1 && s.padding == 0 && s.coded == s.temporary == 2200
  {
    SizesOf32Bits(0, 4, 0);
    PaddingFits(Win32, 0, 4, 0);
    CodingFits(Win32, 0, 4, 0);
    WhenNothingIsAdded(Win32, 0, 4, 0);
  }

  lemma SizesOf32Bits(l1Mod: int, fft: int, infoSize: int)
    requires l1Mod == 0 && fft == 4 && infoSize == 0
    ensures BlocksFor(Win32, infoSize) == 1
    ensures MultipleFor(l1Mod, fft) == 2 && TemporaryFor(Win32, l1Mod, fft, infoSize) == 2200
  {
    assert SigFor(Win32, infoSize) == 32;
  }

  // The cells divide evenly over the FEC blocks and, within a block, over the P2 symbols.
  lemma CellsDivide(platform: Platform, l1Mod: int, fft: int, infoSize: int)
    requires infoSize >= 0
    ensures var s := Compute(platform, l1Mod, fft, infoSize);
            var group := if SymbolsP2(fft) == 1 then 2 else SymbolsP2(fft);
      && s.blocks > 0
      && s.cells * BitsPerCell(l1Mod) == s.coded * s.blocks
      && s.cells % (s.blocks * group) == 0
  {
    var s := Compute(platform, l1Mod, fft, infoSize);
    PaddingFits(platform, l1Mod, fft, infoSize);
    CodingFits(platform, l1Mod, fft, infoSize);
    var group := if SymbolsP2(fft) == 1 then 2 else SymbolsP2(fft);
    var bits := BitsPerCell(l1Mod);
    assert s.multiple == group * bits >= 1;
    RoundOfHalfMore(platform, s.temporary, s.multiple);
    var q := RoundedUp(platform, s.temporary, s.multiple);
    Spread(q, group, bits, s.blocks);
    ExactQuotient(q * group, bits);
  }

  lemma Spread(q: int, group: int, bits: int, blocks: int)
    requires group > 0 && bits > 0 && blocks > 0
    ensures q * (group * bits) == q * group * bits
    ensures q * group * blocks * bits == q * (group * bits) * blocks
    ensures blocks * group > 0 && q * group * blocks % (blocks * group) == 0
  {
    assert q * group * blocks == (blocks * group) * q + 0;
    assert blocks * group > 0;
    DivModUnique(q * group * blocks, blocks * group, q, 0);
  }
}
