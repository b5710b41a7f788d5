/** Where notches and reserved tones lie in the carrier map, and how many cells a notch costs:
    the marks of CalcC2MI_Ctot in terms of its arguments alone. */
module CarrierMapLosses {
  import opened CArithmetic
  import opened CarrierMap
  import opened CarrierMapClosedForm

  function SpacingOf(guard: int): int {
    if guard == 0 then 24 else 12
  }

  predicate WithoutTones(p: Parameters) {
    p.Valid() && p.start >= 0 && p.reserved != 1
  }

  // Weight of the carriers of [lo, hi), which may be empty
  function WeightBetween(dx: int, pilots: seq<int>, lo: nat, hi: int): nat
    requires dx > 0
  {
    if lo < hi then WindowWeight(dx, pilots, lo, hi) else 0
  }

  function Min(a: int, b: int): int {
    if a <= b then a else b
  }

  function Max(a: int, b: int): int {
    if a >= b then a else b
  }

  // The carriers that a notch takes, both included
  function FirstTaken(p: Parameters): int {
    p.start + p.notchStart * SpacingOf(p.guard)
  }

  function LastTaken(p: Parameters): int {
    p.start + (p.notchStart + p.notchWidth) * SpacingOf(p.guard)
  }

  // A notch of width w at position n takes the carriers n * Dx to (n + w) * Dx behind the
  // start, both included: its two edges carry pilots.
  lemma NotchTakes(p: Parameters, t: Tables, i: nat, j: int)
    requires WithoutTones(p) && p.numNotch == 1 && p.notchWidth >= 0
    ensures var dx := if p.guard == 0 then 24 else 12;
      PayloadAt(p, t, i, j)
      == if p.start + p.notchStart * dx <= j <= p.start + (p.notchStart + p.notchWidth) * dx then 0
         else PayloadAt(p.(numNotch := 0), t, i, j)
  {
    assert p.notchWidth * SpacingOf(p.guard) >= 0;
  }

  lemma NotchTakesColumn(p: Parameters, t: Tables, j: int)
    requires WithoutTones(p) && p.numNotch == 1 && p.notchWidth >= 0
    ensures Column(p, t, j)
      == if FirstTaken(p) <= j <= LastTaken(p) then 0 else Column(p.(numNotch := 0), t, j)
  {
    NotchTakes(p, t, 0, j);
    NotchTakes(p, t, 1, j);
    NotchTakes(p, t, 2, j);
    NotchTakes(p, t, 3, j);
  }

  lemma WeightStep(dx: int, pilots: seq<int>, lo: nat, end: int, hi: nat)
    requires dx > 0
    ensures WeightBetween(dx, pilots, lo, Min(hi + 1, end))
      == WeightBetween(dx, pilots, lo, Min(hi, end)) + if lo <= hi < end then ColumnWeight(dx, pilots, hi) else 0
  {
    assert lo <= hi ==>
      WindowWeight(dx, pilots, lo, hi + 1) == WindowWeight(dx, pilots, lo, hi) + ColumnWeight(dx, pilots, hi);
  }

  lemma {:induction false} NotchTakesTo(p: Parameters, t: Tables, hi: int)
    requires WithoutTones(p) && p.numNotch == 1 && p.notchWidth >= 0 && p.start < hi
    ensures CountTo(p.(numNotch := 0), t, hi) - CountTo(p, t, hi)
      == WeightBetween(SpacingOf(p.guard), t.continual, Max(p.start + 1, FirstTaken(p)), Min(hi, LastTaken(p) + 1))
    decreases hi
  {
    var q, j := p.(numNotch := 0), hi - 1;
    CountStep(p, t, j);
    CountStep(q, t, j);
    if p.start == j {
      StartIsEdge(p, t);
      StartIsEdge(q, t);
    } else {
      NotchTakesTo(p, t, j);
      NotchTakesColumn(p, t, j);
      ColumnIsItsWeight(q, t, j);
      WeightStep(SpacingOf(p.guard), t.continual, Max(p.start + 1, FirstTaken(p)), LastTaken(p) + 1, j);
    }
  }

  function Column(p: Parameters, t: Tables, j: int): nat
    requires p.Valid()
  {
    PayloadAt(p, t, 0, j) + PayloadAt(p, t, 1, j) + PayloadAt(p, t, 2, j) + PayloadAt(p, t, 3, j)
  }

  lemma CountStep(p: Parameters, t: Tables, j: int)
    requires p.Valid() && p.start <= j
    ensures CountTo(p, t, p.start) == 0
    ensures CountTo(p, t, j + 1) == CountTo(p, t, j) + Column(p, t, j)
  {
    forall i: nat | i < 4
      ensures |PayloadCarriers(p, t, i, p.start)| == 0
      ensures |PayloadCarriers(p, t, i, j + 1)| == |PayloadCarriers(p, t, i, j)| + PayloadAt(p, t, i, j)
    {
      CarriersStep(p, t, i, j);
    }
  }

  lemma StartIsEdge(p: Parameters, t: Tables)
    requires p.Valid()
    ensures Column(p, t, p.start) == 0
  {
  }

  // What a notch costs, wherever it lies: the cells of the carriers it takes inside the block.
  // The start carrier is an edge already.
  lemma NotchCosts(p: Parameters, t: Tables)
    requires WithoutTones(p) && p.numNotch == 1 && p.notchWidth >= 0
    ensures var dx := if p.guard == 0 then 24 else 12;
      PayloadCount(p.(numNotch := 0), t) - PayloadCount(p, t)
      == WeightBetween(dx, t.continual, Max(p.start + 1, p.start + p.notchStart * dx),
                       Min(p.start + 3408, p.start + (p.notchStart + p.notchWidth) * dx + 1))
  {
    NotchTakesTo(p, t, p.start + WIDTH);
  }

  // The ordinary case: the notch lies behind the start and ends inside the block.
  lemma InnerNotchCosts(p: Parameters, t: Tables)
    requires p.Valid() && p.start >= 0 && p.reserved != 1 && p.numNotch == 1
    requires p.notchStart >= 1 && p.notchWidth >= 1
    requires (p.notchStart + p.notchWidth) * (if p.guard == 0 then 24 else 12) < 3408
    ensures var dx := if p.guard == 0 then 24 else 12;
      p.notchStart * dx <= (p.notchStart + p.notchWidth) * dx
      && PayloadCount(p.(numNotch := 0), t) - PayloadCount(p, t)
         == WindowWeight(dx, t.continual, p.start + p.notchStart * dx,
                         p.start + (p.notchStart + p.notchWidth) * dx + 1)
  {
    var dx := SpacingOf(p.guard);
    assert p.notchWidth * dx >= 0;
    NotchCosts(p, t);
  }

  // More than one notch is not supported: only the two edges of the first are marked.
  lemma OtherNotchesMarkEdges(p: Parameters, t: Tables, i: nat, j: int)
    requires WithoutTones(p) && p.numNotch != 0 && p.numNotch != 1
    ensures var dx := if p.guard == 0 then 24 else 12;
      PayloadAt(p, t, i, j)
      == if j == p.start + p.notchStart * dx || j == p.start + (p.notchStart + p.notchWidth) * dx then 0
         else PayloadAt(p.(numNotch := 0), t, i, j)
  {
  }

  // A reserved tone r lies at carrier r + Dx * i of symbol i in every eight blocks of 3408
  // carriers, as long as it does not cross the end of these blocks.
  lemma ReservedToneLies(p: Parameters, t: Tables, i: nat, j: nat)
    requires p.Valid() && p.reserved == 1 && i < SYMBOLS
    requires forall r <- t.tones :: 0 <= r < 27264 - 72
    ensures var dx := if p.guard == 0 then 24 else 12;
      ReservedTone(p, t, i, j) <==> exists r, q: nat {:trigger ToneCarrier(r, dx, i, q)} ::
        r in t.tones && j == ToneCarrier(r, dx, i, q)
  {
    var dx := SpacingOf(p.guard);
    ToneByRemainder(p, t, i, j);
    if j % 27264 - dx * i in t.tones {
      assert j == ToneCarrier(j % 27264 - dx * i, dx, i, j / 27264);
    }
    forall r, q: nat | r in t.tones && j == ToneCarrier(r, dx, i, q)
      ensures j % 27264 - dx * i in t.tones
    {
      ToneRemainder(r, dx, i, q);
    }
  }

  lemma ToneByRemainder(p: Parameters, t: Tables, i: nat, j: nat)
    requires p.Valid() && p.reserved == 1 && i < SYMBOLS
    ensures ReservedTone(p, t, i, j) <==> j % 27264 - SpacingOf(p.guard) * i in t.tones
  {
    RemNonNegative(j, 27264);
    assert i % 4 == i;
  }

  lemma ToneRemainder(tone: int, dx: int, symbol: nat, repetition: nat)
    requires 0 <= tone < 27264 - 72 && (dx == 24 || dx == 12) && symbol < 4
    ensures ToneCarrier(tone, dx, symbol, repetition) % 27264 - dx * symbol == tone
  {
    DivModUnique(ToneCarrier(tone, dx, symbol, repetition), 27264, repetition, tone + dx * symbol);
  }

  function ToneCarrier(tone: int, dx: int, symbol: nat, repetition: nat): int {
    27264 * repetition + tone + dx * symbol
  }
}
