/** The registry file as the program uses it: writing entries, scanning lines, and reading
    unsigned numbers back through two halves of their digits. */
module Registry {
  import opened CArithmetic
  import opened RegistryText

  predicate IsDigit(c: char) {
    '0' <= c <= '9'
  }

  predicate AllDigits(s: string) {
    forall i :: 0 <= i < |s| ==> IsDigit(s[i])
  }

  function Pow10(k: nat): nat {
    if k == 0 then 1 else 10 * Pow10(k - 1)
  }

  // The number that a string of digits stands for; atoi gives 0 for the empty string.
  function Number(s: string): nat
    requires AllDigits(s)
  {
    if s == "" then 0 else Number(s[..|s| - 1]) * 10 + (s[|s| - 1] as int - '0' as int)
  }

  // %u
  function Decimal(n: nat): (s: string)
    ensures s != "" && AllDigits(s)
  {
    (if n < 10 then "" else Decimal(n / 10)) + [(n % 10 + '0' as int) as char]
  }

  lemma NumberAppend(s: string, c: char)
    requires AllDigits(s) && IsDigit(c)
    ensures AllDigits(s + [c]) && Number(s + [c]) == Number(s) * 10 + (c as int - '0' as int)
  {
  }

  lemma {:induction false} NumberOfDecimal(n: nat)
    ensures Number(Decimal(n)) == n
  {
    var last := (n % 10 + '0' as int) as char;
    if n < 10 {
      NumberAppend("", last);
    } else {
      NumberOfDecimal(n / 10);
      NumberAppend(Decimal(n / 10), last);
    }
  }

  lemma {:induction false} DecimalLength(n: nat, k: nat)
    requires 1 <= k && n < Pow10(k)
    ensures |Decimal(n)| <= k
  {
    if n < 10 {
    } else {
      assert k > 1;
      DecimalLength(n / 10, k - 1);
    }
  }

  lemma DecimalOfDword(n: nat)
    requires n < 0x1_0000_0000
    ensures 1 <= |Decimal(n)| <= 10
  {
    assert Pow10(5) == 100_000 && Pow10(10) == 10_000_000_000;
    DecimalLength(n, 10);
  }

  lemma {:induction false} NumberOfHalves(a: string, b: string)
    requires AllDigits(a) && AllDigits(b)
    ensures AllDigits(a + b) && Number(a + b) == Number(a) * Pow10(|b|) + Number(b)
  {
    if b == "" {
      assert a + b == a;
    } else {
      var n := |b| - 1;
      NumberOfHalves(a, b[..n]);
      assert (a + b)[..|a| + n] == a + b[..n];
      TimesTen(Number(a), Pow10(n), Number(b[..n]));
    }
  }

  lemma TimesTen(x: int, p: nat, y: int)
    ensures (x * p + y) * 10 == x * (10 * p) + y * 10
  {
  }

  predicate IsSpace(c: char) {
    c == ' ' || 9 <= c as int <= 13
  }

  function DigitPrefix(s: string): (p: string)
    ensures AllDigits(p) && (AllDigits(s) ==> p == s)
  {
    if s == "" || !IsDigit(s[0]) then "" else [s[0]] + DigitPrefix(s[1..])
  }

  // atoi, for numbers that fit an int
  function Atoi(s: string): (n: int)
    ensures AllDigits(s) ==> n == Number(s)
  {
    if s == "" then 0
    else if IsSpace(s[0]) then Atoi(s[1..])
    else if s[0] == '-' then 0 - Number(DigitPrefix(s[1..]))
    else if s[0] == '+' then Number(DigitPrefix(s[1..]))
    else Number(DigitPrefix(s))
  }

  // atoi skips blanks, takes one sign, and stops at the first character that is no digit.
  lemma {:induction false} AtoiReads(blanks: string, sign: string, digits: string, rest: string)
    requires forall i :: 0 <= i < |blanks| ==> blanks[i] in {' ', '\t', '\n', '\r'}
    requires sign in {"", "+", "-"} && AllDigits(digits) && (digits == "" ==> sign != "")
    requires rest == "" || !IsDigit(rest[0])
    ensures Atoi(blanks + (sign + (digits + rest))) == if sign == "-" then -1 * Number(digits) else Number(digits)
    decreases |blanks|
  {
    var text := sign + (digits + rest);
    if blanks == "" {
      assert blanks + text == text;
      SignedReads(sign, digits, rest);
    } else {
      AtoiReads(blanks[1..], sign, digits, rest);
      assert (blanks + text)[1..] == blanks[1..] + text;
    }
  }

  lemma SignedReads(sign: string, digits: string, rest: string)
    requires sign in {"", "+", "-"} && AllDigits(digits) && (digits == "" ==> sign != "")
    requires rest == "" || !IsDigit(rest[0])
    ensures Atoi(sign + (digits + rest)) == if sign == "-" then -1 * Number(digits) else Number(digits)
  {
    PrefixIs(digits, rest);
    if sign == "" {
      assert sign + (digits + rest) == digits + rest;
    } else {
      assert (sign + (digits + rest))[1..] == digits + rest;
    }
  }

  lemma {:induction false} PrefixIs(digits: string, rest: string)
    requires AllDigits(digits) && (rest == "" || !IsDigit(rest[0]))
    ensures DigitPrefix(digits + rest) == digits
  {
    if digits == "" {
      assert digits + rest == rest;
    } else {
      PrefixIs(digits[1..], rest);
      assert (digits + rest)[1..] == digits[1..] + rest;
    }
  }

  // The numbers that an unsigned long holds
  type Range = r: int | r == 0x1_0000_0000 || r == 0x1_0000_0000_0000_0000 witness 0x1_0000_0000

  function Scaled(n: int, k: nat): int {
    n * Pow10(k)
  }

  // What the two halves of a text add up to. The shorter half comes first; it is scaled by one
  // factor of ten for each character after it.
  function HalvesValue(s: string): int {
    Joined(s[..|s| / 2], s[|s| / 2..])
  }

  function Joined(a: string, b: string): int {
    Scaled(Atoi(a), |b|) + Atoi(b)
  }

  lemma HalvesValueIs(a: string, b: string)
    requires |a| == |a + b| / 2
    ensures HalvesValue(a + b) == Atoi(a) * Pow10(|b|) + Atoi(b)
  {
    assert (a + b)[..|a|] == a && (a + b)[|a|..] == b;
  }

  lemma JoinedDigits(a: string, b: string)
    requires AllDigits(a + b)
    ensures Joined(a, b) == Number(a + b)
  {
    assert forall i :: 0 <= i < |a| ==> a[i] == (a + b)[i];
    assert forall i :: 0 <= i < |b| ==> b[i] == (a + b)[|a| + i];
    NumberOfHalves(a, b);
  }

  lemma HalvesOfDigits(s: string)
    requires AllDigits(s)
    ensures HalvesValue(s) == Number(s)
  {
    assert s[..|s| / 2] + s[|s| / 2..] == s;
    JoinedDigits(s[..|s| / 2], s[|s| / 2..]);
  }

  // Reading a number through its halves, each of which fits a buffer of ten characters
  method SplitNumber(strValue: string, range: Range) returns (number: nat)
    requires |strValue| <= 18
    ensures number == HalvesValue(strValue) % range
    ensures AllDigits(strValue) ==> number == Number(strValue) % range
  {
    var len := |strValue| / 2;
    var temp1 := strValue[..len];
    var tmp1 := Atoi(temp1) % range;
    for i := 0 to |strValue| - len
      invariant tmp1 == Scaled(Atoi(temp1), i) % range
    {
      NextScale(Atoi(temp1), i, range);
      tmp1 := tmp1 * 10 % range;
    }
    var temp2 := strValue[len..];
    var tmp2 := Atoi(temp2) % range;
    number := (tmp1 + tmp2) % range;
    SumModulo(Scaled(Atoi(temp1), |temp2|), Atoi(temp2), range);
    if AllDigits(strValue) {
      HalvesOfDigits(strValue);
    }
  }

  lemma NextScale(n: int, k: nat, m: int)
    requires m > 0
    ensures Scaled(n, k) % m * 10 % m == Scaled(n, k + 1) % m
  {
    TimesTen(n, Pow10(k), 0);
    TenTimesModulo(Scaled(n, k), m);
  }

  lemma TenTimesModulo(n: int, m: int)
    requires m > 0
    ensures n % m * 10 % m == n * 10 % m
  {
    var q, r := n / m, n % m;
    assert n == m * q + r;
    assert m * (q * 10) == m * q * 10;
    ShiftedMod(r * 10, m, q * 10);
  }

  lemma SumModulo(x: int, y: int, m: int)
    requires m > 0
    ensures (x % m + y % m) % m == (x + y) % m
  {
    var p, q, r, s := x / m, x % m, y / m, y % m;
    assert x == m * p + q && y == m * r + s;
    assert m * (p + r) == m * p + m * r;
    ShiftedMod(q + s, m, p + r);
  }

  method CutLine(strLine: string) returns (line: string)
    ensures line == Cut(strLine)
  {
    var i := 0;
    while i < |strLine| && !EndsLine(strLine[i])
      invariant 0 <= i <= |strLine|
      invariant forall k :: 0 <= k < i ==> !EndsLine(strLine[k])
    {
      i := i + 1;
    }
    CutIs(strLine, i);
    line := strLine[..i];
  }

  lemma NumberFits(name: string, n: nat)
    requires Clean(name) && '=' !in name && 1 <= |name| <= 137 && n < 0x1_0000_0000
    ensures Fitting(Entry(name, Decimal(n)))
  {
    DecimalOfDword(n);
  }

  // What a lookup finds once a number is stored under a new name
  lemma NumberFound(entries: seq<Entry>, name: string, n: nat, range: Range)
    requires forall e <- entries :: Fitting(e) && e.name != name
    requires Clean(name) && '=' !in name && 1 <= |name| <= 137 && n < 0x1_0000_0000
    ensures var d := Decimal(n);
      && Find(Print(entries + [Entry(name, d)]), 0, name) == Some(d)
      && |d| <= 10 && Number(d) % range == n
  {
    NumberFits(name, n);
    DecimalOfDword(n);
    NumberOfDecimal(n);
    DivModUnique(n, range, 0, n);
    FindNewEntry(entries, Entry(name, Decimal(n)));
  }

  method IndexOfEquals(strLine: string) returns (i: nat)
    ensures i == FirstEquals(strLine)
  {
    i := 0;
    while i < |strLine| && strLine[i] != '='
      invariant 0 <= i <= FirstEquals(strLine)
    {
      i := i + 1;
    }
  }

  class RegistryFile {
    const range: Range
    var text: string
    var pos: nat
    ghost var entries: seq<Entry>

    ghost predicate Valid()
      reads this
    {
      text == Print(entries) && pos <= |text|
    }

    constructor (range: Range)
      ensures Valid() && entries == [] && this.range == range
    {
      this.range := range;
      text, pos, entries := "", 0, [];
    }

    // Set_Registry_String_Value
    method SetString(name: string, value: string)
      requires Valid()
      modifies this
      ensures Valid() && entries == old(entries) + [Entry(name, value)]
    {
      PrintAppend(entries, Entry(name, value));
      entries := entries + [Entry(name, value)];
      text := text + name + "=" + value + "\n";
    }

    // Set_Registry_UnsignedLong_Value prints the low 32 bits.
    method SetUnsignedLong(name: string, value: nat)
      requires Valid()
      modifies this
      ensures Valid() && entries == old(entries) + [Entry(name, Decimal(value % 0x1_0000_0000))]
    {
      SetString(name, Decimal(value % 0x1_0000_0000));
    }

    // Get_A_Line: fgets, then cut at the first line end.
    method GetALine() returns (strDest: string)
      requires pos <= |text|
      modifies `pos
      ensures pos <= |text| && strDest == LineAt(text, old(pos)) && pos == NextLine(text, old(pos))
    {
      var strLine := Fgets(text, pos, READ_LIMIT);
      strDest := CutLine(strLine);
      pos := pos + |strLine|;
    }

    // Get_Line_And_Matched_Value
    method GetLineAndMatchedValue(strName: string) returns (result: Option<string>)
      requires pos <= |text|
      modifies `pos
      ensures pos <= |text| && result == Find(text, 0, strName)
    {
      pos := 0;
      ghost var at := pos;
      var strLine := GetALine();
      while |strLine| > 2
        invariant at <= |text| && pos <= |text|
        invariant strLine == LineAt(text, at) && pos == NextLine(text, at)
        invariant Find(text, 0, strName) == Find(text, at, strName)
        decreases |text| - at
      {
        var i := IndexOfEquals(strLine);
        if i < |strLine| {
          if strLine[..i] == strName {
            var strValue := strLine[i + 1..];
            return if |strValue| > 0 then Some(strValue) else None;
          }
        }
        at := pos;
        strLine := GetALine();
      }
      result := None;
    }

    // Get_Registry_String_Value
    method GetString(name: string, fallback: string) returns (value: string)
      requires Valid()
      modifies `pos
      ensures Valid()
      ensures value == match Find(text, 0, name) case Some(v) => v case None => fallback
      ensures (forall e <- entries :: WellFormed(e)) ==>
        value == match Lookup(Visible(entries), name) case Some(v) => v case None => fallback
    {
      LookupInFile(name);
      var found := GetLineAndMatchedValue(name);
      value := match found case Some(v) => v case None => fallback;
    }

    // Get_Registry_UnsignedLong_Value. A text too long for the two buffers gives any value.
    method GetUnsignedLong(name: string, fallback: nat) returns (value: nat)
      requires Valid()
      modifies `pos
      ensures Valid()
      ensures match Find(text, 0, name)
        case None => value == fallback
        case Some(v) => |v| <= 18 ==>
          value == HalvesValue(v) % range && (AllDigits(v) ==> value == Number(v) % range)
    {
      var found := GetLineAndMatchedValue(name);
      match found {
        case None => value := fallback;
        case Some(v) =>
          value := *;
          if |v| <= 18 {
            value := SplitNumber(v, range);
          }
      }
    }

    lemma LookupInFile(name: string)
      requires Valid()
      ensures (forall e <- entries :: WellFormed(e)) ==> Find(text, 0, name) == Lookup(Visible(entries), name)
    {
      assert text[0..] == Print(entries);
      if forall e <- entries :: WellFormed(e) {
        FindIsLookup(text, 0, entries, name);
      }
    }

    // A number stored under a new name is read back modulo 2 to the 32.
    method StoreAndReload(name: string, number: nat, fallback: nat) returns (value: nat)
      requires Valid() && forall e <- entries :: Fitting(e) && e.name != name
      requires Clean(name) && '=' !in name && 1 <= |name| <= 137
      modifies this
      ensures Valid() && value == number % 0x1_0000_0000
    {
      NumberFound(entries, name, number % 0x1_0000_0000, range);
      SetUnsignedLong(name, number);
      value := GetUnsignedLong(name, fallback);
    }
  }
}
