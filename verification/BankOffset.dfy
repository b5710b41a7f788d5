/** The SDRAM bank size chosen for a play rate (AdjustBankOffset). */
module BankOffset {
  import opened CArithmetic

  const MIN_BANK_OFFSET := 32
  const MAX_BANK_OFFSET := 1024

  predicate PowerInRange(r: int) {
    r == 32 || r == 64 || r == 128 || r == 256 || r == 512 || r == 1024
  }

  // r is the largest permitted power of two whose n + 1 banks of r * 8192 hold no more than
  // two seconds of the stream.
  predicate IsBankOffset(n: int, playRate: int, r: int) {
    && PowerInRange(r)
    && (r > MIN_BANK_OFFSET ==> r * (8192 * (n + 1)) <= 2 * playRate)
    && (r < MAX_BANK_OFFSET ==> 2 * r * (8192 * (n + 1)) > 2 * playRate)
  }

  // The leading power of two of n, but at most 2 to the number of steps.
  function LeadingPower(n: nat, steps: nat): (power: nat)
    ensures power >= 1
    ensures power == 1 || power <= n
    ensures n < 2 * power || power == Pow2(steps)
  {
    if steps == 0 || n / 2 < 1 then 1 else 2 * LeadingPower(n / 2, steps - 1)
  }

  predicate IsPower(p: nat, steps: nat) {
    exists k: nat :: k <= steps && p == Pow2(k)
  }

  lemma {:induction false} LeadingPowerIsPower(n: nat, steps: nat)
    ensures IsPower(LeadingPower(n, steps), steps)
  {
    if steps == 0 || n / 2 < 1 {
      assert Pow2(0) == 1;
    } else {
      LeadingPowerIsPower(n / 2, steps - 1);
      var k: nat :| k <= steps - 1 && LeadingPower(n / 2, steps - 1) == Pow2(k);
      assert Pow2(k + 1) == LeadingPower(n, steps);
    }
  }

  // The halving loop of the program.
  method FindLeadingPower(offset0: nat) returns (power: nat)
    ensures power == LeadingPower(offset0, 11)
  {
    var offset := offset0;
    power := 1;
    for i := 0 to 11
      invariant offset >= 0
      invariant LeadingPower(offset0, 11) == Times(power, LeadingPower(offset, 11 - i))
    {
      Doubling(power, LeadingPower(offset / 2, 10 - i));
      offset := Div(offset, 2);
      if offset < 1 {
        return;
      }
      power := power * 2;
    }
  }

  function Times(x: int, y: int): int {
    x * y
  }

  lemma Doubling(x: int, y: int)
    ensures Times(x, 2 * y) == Times(x * 2, y)
    ensures Times(x, 1) == x
  {
  }

  method AdjustBankOffset(n: int, configured: int, playRate: int) returns (r: int)
    requires n >= 0
    ensures playRate <= 0 ==> r == configured
    ensures playRate > 0 ==>
      && r in {32, 64, 128, 256, 512, 1024}
      && (r > 32 ==> r * (8192 * (n + 1)) <= 2 * playRate)
      && (r < 1024 ==> 2 * r * (8192 * (n + 1)) > 2 * playRate)
      && IsBankOffset(n, playRate, r)
  {
    r := configured;
    if playRate > 0 {
      var bank := 8192 * (n + 1);
      var offset := Trunc((2 * playRate) as real / bank as real);
      FloorOfQuotient(2 * playRate, bank);
      r := FindLeadingPower(offset);
      PowersUpTo11(offset);
      if r < MIN_BANK_OFFSET {
        r := MIN_BANK_OFFSET;
      }
      if r > MAX_BANK_OFFSET {
        r := MAX_BANK_OFFSET;
      }
      Bracket(2 * playRate, bank, r);
    }
  }

  lemma PowersUpTo11(n: nat)
    ensures var p := LeadingPower(n, 11);
      (p <= 32 || PowerInRange(p) || p == 2048) && Pow2(11) == 2048
  {
    LeadingPowerIsPower(n, 11);
    assert Pow2(4) == 16 && Pow2(6) == 64 && Pow2(8) == 256 && Pow2(10) == 1024;
  }

  lemma Bracket(p: nat, d: int, r: int)
    requires d > 0
    ensures r <= p / d ==> r * d <= p
    ensures p / d < 2 * r ==> p < 2 * r * d
  {
    if r <= p / d {
      Scale(r, p / d, d);
    }
    if p / d < 2 * r {
      Scale(p / d + 1, 2 * r, d);
    }
    assert p == d * (p / d) + p % d;
  }

  lemma Scale(x: int, y: int, k: int)
    requires x <= y && k > 0
    ensures x * k <= y * k
  {
  }

  // A faster stream or fewer banks never get a smaller bank. In particular the offset is unique.
  lemma OffsetMonotone(n: int, playRate: int, r: int, n': int, playRate': int, r': int)
    requires 0 <= n' <= n && 0 < playRate <= playRate'
    requires IsBankOffset(n, playRate, r) && IsBankOffset(n', playRate', r')
    ensures r <= r'
  {
  }
}
