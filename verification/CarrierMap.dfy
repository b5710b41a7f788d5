/** The DVB-C2 carrier map of CalcC2MI_Ctot: four OFDM symbols over 3408 carriers, in which
    pilots, reserved tones, the block edge and a notch displace payload cells. */
module CarrierMap {
  import opened CArithmetic

  const SYMBOLS := 4
  const WIDTH := 3408
  const BLOCKS_PER_FRAME := 112

  // EN 302 769 clause 9.6: continual pilot carriers, repeating every 3408 carriers.
  function ContinualPilot(k: nat): nat
    requires k < 30
  {
    match k
    case 0 => 96 case 1 => 216 case 2 => 306 case 3 => 390 case 4 => 450
    case 5 => 486 case 6 => 780 case 7 => 804 case 8 => 924 case 9 => 1026
    case 10 => 1224 case 11 => 1422 case 12 => 1554 case 13 => 1620 case 14 => 1680
    case 15 => 1902 case 16 => 1956 case 17 => 2016 case 18 => 2142 case 19 => 2220
    case 20 => 2310 case 21 => 2424 case 22 => 2466 case 23 => 2736 case 24 => 3048
    case 25 => 3126 case 26 => 3156 case 27 => 3228 case 28 => 3294 case _ => 3366
  }

  function ContinualPilots(): seq<int> {
    seq(30, (k: nat) requires k < 30 => ContinualPilot(k))
  }

  // The two location lists of the program: continual pilots modulo 3408, and reserved tones
  // modulo 8 * 3408. The map is defined for any pair of lists.
  datatype Tables = Tables(continual: seq<int>, tones: seq<int>)

  datatype Parameters = Parameters(
    start: int, guard: int, reserved: int, numNotch: int, notchStart: int, notchWidth: int)
  {
    // A guard index other than 0 or 1 leaves Dx and Dy at zero, and the program divides by them.
    predicate Valid() {
      guard == 0 || guard == 1
    }

    function Dx(): (dx: int)
      requires Valid()
      ensures dx == 24 || dx == 12
    {
      if guard == 0 then 24 else 12
    }

    function NotchFirst(): int
      requires Valid()
    {
      notchStart * Dx() + start + 1
    }

    function NotchLast(): int
      requires Valid()
    {
      (notchStart + notchWidth) * Dx() + start - 1
    }
  }

  predicate Scattered(dx: int, i: nat, j: int)
    requires dx > 0
  {
    Rem(j, dx * 4) == dx * (i % 4)
  }

  predicate Continual(t: Tables, j: int) {
    Rem(j, WIDTH) in t.continual
  }

  predicate ReservedTone(p: Parameters, t: Tables, i: nat, j: int)
    requires p.Valid()
  {
    p.reserved == 1 && Rem(j, 8 * WIDTH) - p.Dx() * (i % 4) in t.tones
  }

  predicate Edge(p: Parameters, j: int)
    requires p.Valid()
  {
    j == p.start || (p.numNotch != 0 && (j == p.NotchFirst() - 1 || j == p.NotchLast() + 1))
  }

  predicate Notched(p: Parameters, j: int)
    requires p.Valid()
  {
    p.numNotch == 1 && p.NotchFirst() <= j <= p.NotchLast()
  }

  // A payload cell is in none of the five classes.
  predicate Payload(p: Parameters, t: Tables, i: nat, j: int)
    requires p.Valid()
  {
    && !Scattered(p.Dx(), i, j)
    && !Continual(t, j)
    && !ReservedTone(p, t, i, j)
    && !Edge(p, j)
    && !Notched(p, j)
  }

  // The mark left in the grid: notch over edge over reserved over continual over scattered.
  function Mark(p: Parameters, t: Tables, i: nat, j: int): (mark: int)
    requires p.Valid()
    ensures mark == 4 <==> Notched(p, j)
    ensures mark == 5 <==> Edge(p, j) && !Notched(p, j)
    ensures mark == 3 <==> ReservedTone(p, t, i, j) && !Edge(p, j) && !Notched(p, j)
    ensures mark == 2 <==> Continual(t, j) && !ReservedTone(p, t, i, j) && !Edge(p, j) && !Notched(p, j)
    ensures mark == 0 <==> Payload(p, t, i, j)
  {
    if Notched(p, j) then 4
    else if Edge(p, j) then 5
    else if ReservedTone(p, t, i, j) then 3
    else if Continual(t, j) then 2
    else if Scattered(p.Dx(), i, j) then 1
    else 0
  }

  // Payload carriers of symbol i in [start, hi).
  function PayloadCarriers(p: Parameters, t: Tables, i: nat, hi: int): set<int>
    requires p.Valid()
  {
    set j | p.start <= j < hi && Payload(p, t, i, j)
  }

  function PayloadOfSymbol(p: Parameters, t: Tables, i: nat): set<int>
    requires p.Valid()
  {
    PayloadCarriers(p, t, i, p.start + WIDTH)
  }

  // The number of payload cells in one repetition of the four-symbol pattern.
  function PayloadCount(p: Parameters, t: Tables): nat
    requires p.Valid()
  {
    |PayloadOfSymbol(p, t, 0)| + |PayloadOfSymbol(p, t, 1)|
    + |PayloadOfSymbol(p, t, 2)| + |PayloadOfSymbol(p, t, 3)|
  }

  // The body of the grid loop for one cell, which starts from the cell's current mark.
  method MarkCell(p: Parameters, t: Tables, i: nat, j: int, current: int) returns (mark: int)
    requires p.Valid()
    ensures current == 0 ==> mark == Mark(p, t, i, j)
  {
    mark := current;
    if Rem(j, p.Dx() * 4) == p.Dx() * (i % 4) {
      mark := 1;
    }
    var before := mark;
    for a := 0 to |t.continual|
      invariant mark == if Rem(j, WIDTH) in t.continual[..a] then 2 else before
    {
      if Rem(j, WIDTH) == t.continual[a] {
        mark := 2;
      }
    }
    before := mark;
    if p.reserved == 1 {
      for b := 0 to |t.tones|
        invariant mark == if Rem(j, 8 * WIDTH) - p.Dx() * (i % 4) in t.tones[..b] then 3 else before
      {
        if Rem(j, 8 * WIDTH) - p.Dx() * (i % 4) == t.tones[b] {
          mark := 3;
        }
      }
    }
    if p.numNotch == 0 {
      if j == p.start {
        mark := 5;
      }
    } else {
      if j == p.start || j == p.NotchFirst() - 1 || j == p.NotchLast() + 1 {
        mark := 5;
      }
    }
    if p.numNotch == 1 && j >= p.NotchFirst() && j <= p.NotchLast() {
      mark := 4;
    }
  }

  // The grid loops: every cell gets its mark and every symbol its number of unmarked cells.
  method FillFrame(p: Parameters, t: Tables, frame: array2<int>, symbols: array<int>)
    requires p.Valid()
    requires frame.Length0 == SYMBOLS && frame.Length1 == WIDTH && symbols.Length == SYMBOLS
    requires forall i, c :: 0 <= i < SYMBOLS && 0 <= c < WIDTH ==> frame[i, c] == 0
    requires forall i :: 0 <= i < SYMBOLS ==> symbols[i] == 0
    modifies frame, symbols
    ensures forall i, c :: 0 <= i < SYMBOLS && 0 <= c < WIDTH ==> frame[i, c] == Mark(p, t, i, p.start + c)
    ensures forall i :: 0 <= i < SYMBOLS ==> symbols[i] == |PayloadOfSymbol(p, t, i)|
  {
    for i := 0 to SYMBOLS
      invariant forall k, c :: 0 <= k < i && 0 <= c < WIDTH ==> frame[k, c] == Mark(p, t, k, p.start + c)
      invariant forall k, c :: i <= k < SYMBOLS && 0 <= c < WIDTH ==> frame[k, c] == 0
      invariant forall k :: 0 <= k < i ==> symbols[k] == |PayloadOfSymbol(p, t, k)|
      invariant forall k :: i <= k < SYMBOLS ==> symbols[k] == 0
    {
      for j := p.start to p.start + WIDTH
        invariant forall k, c :: 0 <= k < i && 0 <= c < WIDTH ==> frame[k, c] == Mark(p, t, k, p.start + c)
        invariant forall c :: 0 <= c < j - p.start ==> frame[i, c] == Mark(p, t, i, p.start + c)
        invariant forall c :: j - p.start <= c < WIDTH ==> frame[i, c] == 0
        invariant forall k, c :: i < k < SYMBOLS && 0 <= c < WIDTH ==> frame[k, c] == 0
        invariant forall k :: 0 <= k < i ==> symbols[k] == |PayloadOfSymbol(p, t, k)|
        invariant symbols[i] == |PayloadCarriers(p, t, i, j)|
        invariant forall k :: i < k < SYMBOLS ==> symbols[k] == 0
      {
        CarriersStep(p, t, i, j);
        var mark := MarkCell(p, t, i, j, frame[i, j - p.start]);
        frame[i, j - p.start] := mark;
        if frame[i, j - p.start] == 0 {
          symbols[i] := symbols[i] + 1;
        }
      }
    }
  }

  lemma CarriersStep(p: Parameters, t: Tables, i: nat, j: int)
    requires p.Valid() && p.start <= j
    ensures |PayloadCarriers(p, t, i, p.start)| == 0
    ensures |PayloadCarriers(p, t, i, j + 1)|
            == |PayloadCarriers(p, t, i, j)| + if Payload(p, t, i, j) then 1 else 0
  {
    assert PayloadCarriers(p, t, i, p.start) == {};
    var before, after := PayloadCarriers(p, t, i, j), PayloadCarriers(p, t, i, j + 1);
    assert after == if Payload(p, t, i, j) then before + {j} else before;
  }

  // CalcC2MI_Ctot; CalcC2MI_Bitrate repeats the same loops.
  method CalcCtot(p: Parameters, tones: seq<int>) returns (cells: int)
    requires p.Valid()
    ensures cells == 112 * PayloadCount(p, Tables(ContinualPilots(), tones))
  {
    var frame := new int[SYMBOLS, WIDTH]((i, c) => 0);
    var symbols := new int[SYMBOLS](i => 0);
    FillFrame(p, Tables(ContinualPilots(), tones), frame, symbols);
    cells := (symbols[0] + symbols[1] + symbols[2] + symbols[3]) * BLOCKS_PER_FRAME;
  }

  lemma FewerPayload(p: Parameters, q: Parameters, t: Tables, t': Tables)
    requires p.Valid() && q.Valid() && p.start == q.start
    requires forall i: nat, j | i < SYMBOLS && Payload(q, t', i, j) :: Payload(p, t, i, j)
    ensures PayloadCount(q, t') <= PayloadCount(p, t)
  {
    forall i: nat | i < SYMBOLS
      ensures |PayloadOfSymbol(q, t', i)| <= |PayloadOfSymbol(p, t, i)|
    {
      SubsetSize(PayloadOfSymbol(q, t', i), PayloadOfSymbol(p, t, i));
    }
  }

  lemma SubsetSize(a: set<int>, b: set<int>)
    requires a <= b
    ensures |a| <= |b|
  {
    assert b == a + (b - a);
  }

  // Turning on reserved tones, or reserving more of them, never gains a cell.
  lemma ReservingTonesNeverGains(p: Parameters, reserved: int, t: Tables, tones: seq<int>)
    requires p.Valid()
    requires p.reserved == 1 ==> reserved == 1 && forall tone <- t.tones :: tone in tones
    ensures PayloadCount(p.(reserved := reserved), t.(tones := tones)) <= PayloadCount(p, t)
  {
    FewerPayload(p, p.(reserved := reserved), t, t.(tones := tones));
  }

  // Adding a notch, wherever it lies and however wide it is, never gains a cell.
  lemma AddingNotchNeverGains(p: Parameters, numNotch: int, notchStart: int, notchWidth: int, t: Tables)
    requires p.Valid() && p.numNotch == 0
    ensures PayloadCount(p.(numNotch := numNotch, notchStart := notchStart, notchWidth := notchWidth), t)
            <= PayloadCount(p, t)
  {
    FewerPayload(p, p.(numNotch := numNotch, notchStart := notchStart, notchWidth := notchWidth), t, t);
  }

  // Widening a notch never gains a cell: its old right edge falls inside the wider notch.
  lemma WideningNotchNeverGains(p: Parameters, notchWidth: int, t: Tables)
    requires p.Valid() && p.numNotch == 1
    requires 0 <= p.notchWidth <= notchWidth
    ensures PayloadCount(p.(notchWidth := notchWidth), t) <= PayloadCount(p, t)
  {
    var q := p.(notchWidth := notchWidth);
    forall i: nat, j | i < SYMBOLS && Payload(q, t, i, j)
      ensures Payload(p, t, i, j)
    {
      assert p.NotchLast() <= q.NotchLast();
      assert j != p.NotchLast() + 1;
    }
    FewerPayload(p, q, t, t);
  }
}
