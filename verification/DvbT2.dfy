/** What the DVB-T2 capacity and the size of its signalling share. */
module DvbT2 {
  // N_P2, by the FFT size
  function SymbolsP2(fft: int): (symbols: int)
    ensures 1 <= symbols <= 16
  {
    match fft case 3 => 16 case 0 => 8 case 2 => 4 case 1 => 2 case 6 => 2 case 4 => 1 case 5 => 1 case 7 => 1
    case _ => 16
  }

  // N_P2 is what fills the carriers of 16K with those of the FFT size, and 1 for 32K.
  lemma SymbolsP2Is(fft: int)
    ensures fft == 0 ==> SymbolsP2(fft) * 2048 == 16384
    ensures fft == 1 || fft == 6 ==> SymbolsP2(fft) * 8192 == 16384
    ensures fft == 2 ==> SymbolsP2(fft) * 4096 == 16384
    ensures fft == 3 ==> SymbolsP2(fft) * 1024 == 16384
    ensures fft == 4 || fft == 5 || fft == 7 ==> SymbolsP2(fft) == 1
  {
  }
}
