/** With neither notch nor reserved tones the carrier map has a closed form: its cell count
    depends on the start carrier only through the class of that one carrier. */
module CarrierMapClosedForm {
  import opened CArithmetic
  import opened CarrierMap

  predicate PilotsOnly(p: Parameters) {
    p.Valid() && p.start >= 0 && p.reserved != 1 && p.numNotch == 0
  }

  // Payload cells of carrier j over the four symbols, before the edge pilot is placed.
  function ColumnWeight(dx: int, pilots: seq<int>, j: nat): nat
    requires dx > 0
  {
    if j % WIDTH in pilots then 0 else if j % dx == 0 then 3 else 4
  }

  function WindowWeight(dx: int, pilots: seq<int>, lo: nat, hi: nat): nat
    requires dx > 0 && lo <= hi
    decreases hi - lo
  {
    if lo == hi then 0 else WindowWeight(dx, pilots, lo, hi - 1) + ColumnWeight(dx, pilots, hi - 1)
  }

  // EN 302 769 staggers the scattered pilots over four symbols, so a carrier divisible by dx
  // is a scattered pilot in exactly one symbol, and any other carrier in none.
  lemma ScatteredInExactlyOneSymbol(dx: int, j: nat)
    requires dx == 24 || dx == 12
    ensures j % dx == 0 ==> forall i: nat :: i < 4 ==> (Scattered(dx, i, j) <==> i == j / dx % 4)
    ensures j % dx != 0 ==> forall i: nat :: i < 4 ==> !Scattered(dx, i, j)
  {
    RemNonNegative(j, dx * 4);
    StaggeredQuotient(j, dx);
    forall i: nat | i < 4
      ensures dx * i == j % (dx * 4) <==> j % dx == 0 && i == j / dx % 4
    {
      if dx * i == j % (dx * 4) {
        DivModUnique(dx * i, dx, i, 0);
      }
    }
  }

  lemma StaggeredQuotient(j: nat, dx: int)
    requires dx == 24 || dx == 12
    ensures j % dx == j % (dx * 4) % dx
    ensures j / dx % 4 == j % (dx * 4) / dx
    ensures j % (dx * 4) == dx * (j / dx % 4) + j % dx
  {
    var q, r := j / (dx * 4), j % (dx * 4);
    assert j == dx * 4 * q + r;
    DivModUnique(j, dx, 4 * q + r / dx, r % dx);
    DivModUnique(j / dx, 4, q, r / dx);
  }

  // The pattern of one symbol is not 3408-periodic for guard index 0: shifting by 3408
  // carriers turns symbol i into symbol i + 2. For guard index 1 it is.
  lemma ShiftedSymbol(i: nat, j: nat)
    requires i < SYMBOLS
    ensures Scattered(24, i, j + WIDTH) <==> Scattered(24, (i + 2) % 4, j)
    ensures Scattered(12, i, j + WIDTH) <==> Scattered(12, i, j)
  {
    ScatteredByRemainder(24, i, j + WIDTH);
    ScatteredByRemainder(24, (i + 2) % 4, j);
    ScatteredByRemainder(12, i, j + WIDTH);
    ScatteredByRemainder(12, i, j);
    HalfTurn(j);
    ShiftedMod(j, 48, 71);
  }

  lemma ScatteredByRemainder(dx: int, i: nat, j: nat)
    requires dx > 0 && i < SYMBOLS
    ensures Scattered(dx, i, j) <==> j % (dx * 4) == dx * i
  {
    RemNonNegative(j, dx * 4);
  }

  lemma HalfTurn(j: nat)
    ensures (j + WIDTH) % 96 == if j % 96 < 48 then j % 96 + 48 else j % 96 - 48
  {
    var q, r := j / 96, j % 96;
    DivModUnique(j + WIDTH, 96, if r < 48 then q + 35 else q + 36, if r < 48 then r + 48 else r - 48);
  }

  function PayloadAt(p: Parameters, t: Tables, i: nat, j: int): nat
    requires p.Valid()
  {
    if Payload(p, t, i, j) then 1 else 0
  }

  function CountTo(p: Parameters, t: Tables, hi: int): nat
    requires p.Valid()
  {
    |PayloadCarriers(p, t, 0, hi)| + |PayloadCarriers(p, t, 1, hi)|
    + |PayloadCarriers(p, t, 2, hi)| + |PayloadCarriers(p, t, 3, hi)|
  }

  lemma ColumnIsItsWeight(p: Parameters, t: Tables, j: int)
    requires PilotsOnly(p) && p.start <= j
    ensures PayloadAt(p, t, 0, j) + PayloadAt(p, t, 1, j) + PayloadAt(p, t, 2, j) + PayloadAt(p, t, 3, j)
            == if j == p.start then 0 else ColumnWeight(p.Dx(), t.continual, j)
  {
    ScatteredInExactlyOneSymbol(p.Dx(), j);
    RemNonNegative(j, WIDTH);
  }

  lemma {:induction false} CountIsWeight(p: Parameters, t: Tables, hi: int)
    requires PilotsOnly(p) && p.start < hi
    ensures CountTo(p, t, hi) == WindowWeight(p.Dx(), t.continual, p.start + 1, hi)
    decreases hi
  {
    forall i: nat | i < 4
      ensures |PayloadCarriers(p, t, i, p.start)| == 0
      ensures |PayloadCarriers(p, t, i, hi)| == |PayloadCarriers(p, t, i, hi - 1)| + PayloadAt(p, t, i, hi - 1)
    {
      CarriersStep(p, t, i, hi - 1);
    }
    ColumnIsItsWeight(p, t, hi - 1);
    if p.start + 1 == hi {
    } else {
      CountIsWeight(p, t, hi - 1);
    }
  }

  lemma {:induction false} WindowFront(dx: int, pilots: seq<int>, lo: nat, hi: nat)
    requires dx > 0 && lo < hi
    ensures WindowWeight(dx, pilots, lo, hi) == ColumnWeight(dx, pilots, lo) + WindowWeight(dx, pilots, lo + 1, hi)
    decreases hi - lo
  {
    if lo + 1 == hi {
    } else {
      WindowFront(dx, pilots, lo, hi - 1);
    }
  }

  lemma ColumnPeriodic(dx: int, pilots: seq<int>, j: nat)
    requires dx == 24 || dx == 12
    ensures ColumnWeight(dx, pilots, j + WIDTH) == ColumnWeight(dx, pilots, j)
  {
    ShiftedMod(j, WIDTH, 1);
    if dx == 24 {
      ShiftedMod(j, 24, 142);
    } else {
      ShiftedMod(j, 12, 284);
    }
  }

  // The four-symbol weight is 3408-periodic, so every full window weighs the same.
  lemma {:induction false} WindowPeriodic(dx: int, pilots: seq<int>, start: nat)
    requires dx == 24 || dx == 12
    ensures WindowWeight(dx, pilots, start, start + WIDTH) == WindowWeight(dx, pilots, 0, WIDTH)
  {
    if start == 0 {
    } else {
      WindowPeriodic(dx, pilots, start - 1);
      WindowFront(dx, pilots, start - 1, start - 1 + WIDTH);
      ColumnPeriodic(dx, pilots, start - 1);
    }
  }

  // Weight of the pilots below n among the first k of the list.
  function PilotWeight(dx: int, pilots: seq<int>, n: nat, k: nat): nat
    requires dx > 0 && k <= |pilots|
  {
    if k == 0 then 0
    else PilotWeight(dx, pilots, n, k - 1)
         + if pilots[k - 1] >= n then 0 else if pilots[k - 1] % dx == 0 then 3 else 4
  }

  predicate Increasing(pilots: seq<int>) {
    forall a, b :: 0 <= a < b < |pilots| ==> pilots[a] < pilots[b]
  }

  lemma {:induction false} PilotWeightStep(dx: int, pilots: seq<int>, n: nat, k: nat)
    requires dx > 0 && k <= |pilots| && Increasing(pilots)
    ensures PilotWeight(dx, pilots, n + 1, k) == PilotWeight(dx, pilots, n, k)
            + if n !in pilots[..k] then 0 else if n % dx == 0 then 3 else 4
  {
    if k == 0 {
    } else {
      PilotWeightStep(dx, pilots, n, k - 1);
      assert pilots[..k] == pilots[..k - 1] + [pilots[k - 1]];
    }
  }

  function Multiples(dx: int, n: nat): nat
    requires dx > 0
  {
    (n + dx - 1) / dx
  }

  lemma MultiplesStep(dx: int, n: nat)
    requires dx > 0
    ensures Multiples(dx, n + 1) == Multiples(dx, n) + if n % dx == 0 then 1 else 0
  {
    var q, r := n / dx, n % dx;
    assert n == dx * q + r && dx * (q + 1) == dx * q + dx;
    DivModUnique(n + dx, dx, q + 1, r);
    if r == 0 {
      DivModUnique(n + dx - 1, dx, q, dx - 1);
    } else {
      DivModUnique(n + dx - 1, dx, q + 1, r - 1);
    }
  }

  // Inclusion and exclusion over [0, n): one scattered cell for each multiple of dx, four
  // cells for each continual pilot, and the scattered ones among those counted once.
  lemma {:induction false} PrefixWeight(dx: int, pilots: seq<int>, n: nat)
    requires dx == 24 || dx == 12
    requires Increasing(pilots) && (forall c <- pilots :: 0 <= c) && n <= WIDTH
    ensures WindowWeight(dx, pilots, 0, n) == 4 * n - Multiples(dx, n) - PilotWeight(dx, pilots, n, |pilots|)
  {
    if n == 0 {
      NoPilotBelowZero(dx, pilots, |pilots|);
    } else {
      PrefixWeight(dx, pilots, n - 1);
      PilotWeightStep(dx, pilots, n - 1, |pilots|);
      assert pilots[..|pilots|] == pilots;
      ColumnInFirstWindow(dx, pilots, n - 1);
      MultiplesStep(dx, n - 1);
    }
  }

  lemma ColumnInFirstWindow(dx: int, pilots: seq<int>, j: nat)
    requires dx > 0 && j < WIDTH
    ensures ColumnWeight(dx, pilots, j) == if j in pilots then 0 else if j % dx == 0 then 3 else 4
  {
  }

  lemma {:induction false} NoPilotBelowZero(dx: int, pilots: seq<int>, k: nat)
    requires dx > 0 && k <= |pilots| && forall c <- pilots :: 0 <= c
    ensures PilotWeight(dx, pilots, 0, k) == 0
  {
    if k == 0 {
    } else {
      NoPilotBelowZero(dx, pilots, k - 1);
      assert pilots[k - 1] in pilots;
    }
  }

  function TotalWeight(dx: nat, k: nat): nat
    requires dx > 0 && k <= 30
  {
    if k == 0 then 0 else TotalWeight(dx, k - 1) + if ContinualPilot(k - 1) % dx == 0 then 3 else 4
  }

  lemma {:induction false} TotalIsPilotWeight(dx: nat, k: nat)
    requires dx > 0 && k <= 30
    ensures PilotWeight(dx, ContinualPilots(), WIDTH, k) == TotalWeight(dx, k)
  {
    if k == 0 {
    } else {
      TotalIsPilotWeight(dx, k - 1);
    }
  }

  // Eight continual pilots are multiples of 24, sixteen are multiples of 12.
  lemma PilotTotal24()
    ensures PilotWeight(24, ContinualPilots(), WIDTH, 30) == 8 * 3 + 22 * 4
  {
    FirstPilots24();
    assert TotalWeight(24, 18) == 67;
    assert TotalWeight(24, 20) == 75;
    assert TotalWeight(24, 22) == 82;
    assert TotalWeight(24, 24) == 89;
    assert TotalWeight(24, 26) == 96;
    assert TotalWeight(24, 28) == 104;
    assert TotalWeight(24, 30) == 112;
    TotalIsPilotWeight(24, 30);
  }

  lemma FirstPilots24()
    ensures TotalWeight(24, 16) == 60
  {
    assert TotalWeight(24, 2) == 6;
    assert TotalWeight(24, 4) == 14;
    assert TotalWeight(24, 6) == 22;
    assert TotalWeight(24, 8) == 30;
    assert TotalWeight(24, 10) == 38;
    assert TotalWeight(24, 12) == 45;
    assert TotalWeight(24, 14) == 53;
    assert TotalWeight(24, 16) == 60;
  }

  lemma PilotTotal12()
    ensures PilotWeight(12, ContinualPilots(), WIDTH, 30) == 16 * 3 + 14 * 4
  {
    FirstPilots12();
    assert TotalWeight(12, 18) == 62;
    assert TotalWeight(12, 20) == 69;
    assert TotalWeight(12, 22) == 76;
    assert TotalWeight(12, 24) == 83;
    assert TotalWeight(12, 26) == 90;
    assert TotalWeight(12, 28) == 96;
    assert TotalWeight(12, 30) == 104;
    TotalIsPilotWeight(12, 30);
  }

  lemma FirstPilots12()
    ensures TotalWeight(12, 16) == 56
  {
    assert TotalWeight(12, 2) == 6;
    assert TotalWeight(12, 4) == 14;
    assert TotalWeight(12, 6) == 22;
    assert TotalWeight(12, 8) == 28;
    assert TotalWeight(12, 10) == 35;
    assert TotalWeight(12, 12) == 42;
    assert TotalWeight(12, 14) == 49;
    assert TotalWeight(12, 16) == 56;
  }

  // A weighted total of the first n pilots, which changes with any one of them
  function PilotsTotal(n: nat): int
    requires n <= 30
  {
    if n == 0 then 0 else PilotsTotal(n - 1) + n * ContinualPilot(n - 1)
  }

  // Every continual pilot lies on a multiple of six carriers.
  lemma PilotTable(k: nat)
    requires k < 30
    ensures ContinualPilot(k) % 6 == 0 && ContinualPilots()[k] == ContinualPilot(k)
    ensures PilotsTotal(10) == 38640
    ensures PilotsTotal(20) == 322320
    ensures PilotsTotal(30) == 1076118
  {
  }

  lemma PilotsIncrease()
    ensures Increasing(ContinualPilots()) && forall c <- ContinualPilots() :: 0 <= c < WIDTH
  {
  }

  lemma WindowTotal(dx: int, pilots: seq<int>, start: nat)
    requires dx == 24 || dx == 12
    requires Increasing(pilots) && forall c <- pilots :: 0 <= c
    ensures WindowWeight(dx, pilots, start + 1, start + WIDTH)
            == 4 * WIDTH - WIDTH / dx - PilotWeight(dx, pilots, WIDTH, |pilots|) - ColumnWeight(dx, pilots, start)
  {
    WindowFront(dx, pilots, start, start + WIDTH);
    WindowPeriodic(dx, pilots, start);
    PrefixWeight(dx, pilots, WIDTH);
  }

  // The closed form for any list of continual pilots.
  lemma CountForPilots(p: Parameters, t: Tables)
    requires PilotsOnly(p)
    requires Increasing(t.continual) && forall c <- t.continual :: 0 <= c
    ensures PayloadCount(p, t)
            == 4 * WIDTH - WIDTH / p.Dx() - PilotWeight(p.Dx(), t.continual, WIDTH, |t.continual|)
               - ColumnWeight(p.Dx(), t.continual, p.start)
  {
    CountIsWeight(p, t, p.start + WIDTH);
    WindowTotal(p.Dx(), t.continual, p.start);
  }

  lemma ClosedForm(p: Parameters, t: Tables)
    requires PilotsOnly(p) && t.continual == ContinualPilots()
    ensures PayloadCount(p, t)
            == (if p.guard == 0 then 13378 else 13244)
               - if p.start % 3408 in t.continual then 0
                 else if p.start % (if p.guard == 0 then 24 else 12) == 0 then 3
                 else 4
  {
    PilotsIncrease();
    CountForPilots(p, t);
    PilotTotal24();
    PilotTotal12();
  }
}
