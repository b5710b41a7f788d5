/** Writing a 32-digit license number into the board EEPROM as checksummed 16-bit words
    (Write_LN_Eeprom). */
module LicenseNumber {
  datatype Write = Write(address: int, data: int)

  const MAGIC := 0xA720
  const DIGITS := 32

  predicate IsHex(c: char) {
    '0' <= c <= '9' || 'A' <= c <= 'F' || 'a' <= c <= 'f'
  }

  function ToUpper(c: char): char {
    if 'a' <= c <= 'z' then (c as int - 32) as char else c
  }

  function HexValue(c: char): int
    requires IsHex(c)
  {
    var u := ToUpper(c);
    if u <= '9' then u as int - '0' as int else u as int - 'A' as int + 10
  }

  function HexChar(v: int): char
    requires 0 <= v < 16
  {
    if v < 10 then (v + '0' as int) as char else (v - 10 + 'A' as int) as char
  }

  lemma HexCharOfValue(c: char)
    ensures IsHex(c) ==> 0 <= HexValue(c) < 16 && HexChar(HexValue(c)) == ToUpper(c)
  {
  }

  // The digits in the order of their values
  lemma HexDigitOfValue(v: int)
    requires 0 <= v < 16
    ensures HexChar(v) == "0123456789ABCDEF"[v]
    ensures HexValue("0123456789ABCDEF"[v]) == v
    ensures v >= 10 ==> HexValue("abcdef"[v - 10]) == v
  {
  }

  predicate AllHex(ln: string) {
    forall i :: 0 <= i < |ln| ==> IsHex(ln[i])
  }

  predicate AreNibbles(d: seq<int>) {
    forall i :: 0 <= i < |d| ==> 0 <= d[i] < 16
  }

  // d holds the value in use for each character. A character that is no hex digit leaves the
  // variable of the program as it was, which at first holds an arbitrary value.
  predicate ReadAs(ln: string, start: int, d: seq<int>) {
    && |d| == |ln| && AreNibbles(d)
    && forall i {:trigger ln[i]} :: 0 <= i < |ln| ==>
         d[i] == if IsHex(ln[i]) then HexValue(ln[i]) else if i == 0 then start % 16 else d[i - 1]
  }

  function Digits(ln: string, start: int): (d: seq<int>)
    ensures ReadAs(ln, start, d)
  {
    if ln == "" then []
    else
      var front, c := Digits(ln[..|ln| - 1], start), ln[|ln| - 1];
      HexCharOfValue(c);
      front + [if IsHex(c) then HexValue(c) else if front == [] then start % 16 else front[|front| - 1]]
  }

  // The word of four digits, most significant first
  function WordAt(d: seq<int>, k: nat): (w: int)
    requires AreNibbles(d) && 4 * k + 4 <= |d|
    ensures 0 <= w < 0x1_0000
  {
    ((d[4 * k] * 16 + d[4 * k + 1]) * 16 + d[4 * k + 2]) * 16 + d[4 * k + 3]
  }

  predicate AreWords(words: seq<int>) {
    forall k :: 0 <= k < |words| ==> 0 <= words[k] < 0x1_0000
  }

  function Words(d: seq<int>, n: nat): (words: seq<int>)
    requires AreNibbles(d) && 4 * n <= |d|
    ensures |words| == n && AreWords(words) && forall k :: 0 <= k < n ==> words[k] == WordAt(d, k)
  {
    seq(n, k requires 0 <= k < n => WordAt(d, k))
  }

  // Reading digits back out of the first n stored words
  function Text(words: seq<int>, n: nat): (text: string)
    requires AreWords(words) && n <= |words|
    ensures |text| == 4 * n
  {
    if n == 0 then "" else Text(words, n - 1) + WordText(words[n - 1])
  }

  function WordText(w: int): string
    requires 0 <= w < 0x1_0000
  {
    [HexChar(w / 0x1000), HexChar(w / 0x100 % 16), HexChar(w / 0x10 % 16), HexChar(w % 16)]
  }

  function Upper(s: string): (u: string)
    ensures |u| == |s| && forall i :: 0 <= i < |s| ==> u[i] == ToUpper(s[i])
  {
    seq(|s|, i requires 0 <= i < |s| => ToUpper(s[i]))
  }

  function Sum(words: seq<int>, n: nat): int
    requires n <= |words|
  {
    if n == 0 then 0 else Sum(words, n - 1) + words[n - 1]
  }

  function DataWrites(words: seq<int>): (writes: seq<Write>)
    ensures |writes| == |words|
  {
    seq(|words|, k requires 0 <= k < |words| => Write(0x402 + 2 * k, words[k]))
  }

  // The whole write sequence for some data words: magic, data, then the checksum high and low.
  function Image(words: seq<int>): (image: seq<Write>)
    ensures |image| == |words| + 3
  {
    var checksum := MAGIC + Sum(words, |words|);
    [Write(0x400, MAGIC)] + DataWrites(words)
    + [Write(0x412, checksum / 0x1_0000 % 0x1_0000), Write(0x414, checksum % 0x1_0000)]
  }

  // The value of the unfinished word
  function Partial(d: seq<int>, first: nat, end: nat): int
    requires first <= end <= |d|
    decreases end
  {
    if first == end then 0 else Partial(d, first, end - 1) * 16 + d[end - 1]
  }

  lemma PartialBounds(d: seq<int>, k: nat, end: nat)
    requires AreNibbles(d) && 4 * k <= end <= 4 * k + 4 && end <= |d|
    ensures 0 <= Partial(d, 4 * k, end) < 0x1_0000
    ensures end < 4 * k + 4 ==> Partial(d, 4 * k, end) < 0x1000
    ensures end == 4 * k + 4 ==> Partial(d, 4 * k, end) == WordAt(d, k)
  {
    var f := 4 * k;
    if end >= f + 1 {
      assert Partial(d, f, f + 1) == d[f];
    }
    if end >= f + 2 {
      assert Partial(d, f, f + 2) == d[f] * 16 + d[f + 1];
    }
    if end >= f + 3 {
      assert Partial(d, f, f + 3) == Partial(d, f, f + 2) * 16 + d[f + 2];
    }
  }

  // The loop state before character i, which belongs to word k
  predicate Progress(d: seq<int>, i: nat, k: nat, data: int, checkSum: int, trace: seq<Write>)
    requires AreNibbles(d) && 4 * k <= i <= |d|
  {
    && data == Partial(d, 4 * k, i)
    && checkSum == MAGIC + Sum(Words(d, k), k)
    && trace == [Write(0x400, MAGIC)] + DataWrites(Words(d, k))
  }

  lemma {:induction false} SumOfPrefix(words: seq<int>, longer: seq<int>, n: nat)
    requires n <= |words| <= |longer| && forall k :: 0 <= k < |words| ==> words[k] == longer[k]
    ensures Sum(words, n) == Sum(longer, n)
  {
    if n == 0 {
    } else {
      SumOfPrefix(words, longer, n - 1);
    }
  }

  lemma ProgressStart(d: seq<int>)
    requires AreNibbles(d)
    ensures Progress(d, 0, 0, 0, MAGIC, [Write(0x400, MAGIC)])
  {
  }

  lemma ProgressEnd(d: seq<int>, data: int, checkSum: int, trace: seq<Write>)
    requires AreNibbles(d) && |d| == 32 && Progress(d, 32, 8, data, checkSum, trace)
    ensures trace + [Write(0x412, checkSum / 0x1_0000 % 0x1_0000)] + [Write(0x414, checkSum % 0x1_0000)]
            == Image(Words(d, 8))
  {
  }

  lemma DigitAdded(d: seq<int>, i: nat, k: nat, data: int, checkSum: int, trace: seq<Write>)
    requires AreNibbles(d) && 4 * k <= i < 4 * k + 4 <= |d|
    requires Progress(d, i, k, data, checkSum, trace)
    ensures var data' := data % 0x1_0000 * 16 + d[i];
      && 0 <= data' < 0x1_0000
      && Progress(d, i + 1, k, data', checkSum, trace)
      && (i + 1 == 4 * k + 4 ==>
          Progress(d, i + 1, k + 1, 0, checkSum + data', trace + [Write(0x402 + 2 * k, data')]))
  {
    PartialBounds(d, k, i);
    PartialBounds(d, k, i + 1);
    if i + 1 == 4 * k + 4 {
      SumOfPrefix(Words(d, k), Words(d, k + 1), k);
      assert DataWrites(Words(d, k + 1)) == DataWrites(Words(d, k)) + [Write(0x402 + 2 * k, WordAt(d, k))];
    }
  }

  method WriteLnEeprom(ln: string, start: int) returns (trace: seq<Write>)
    requires |ln| == DIGITS
    ensures trace == Image(Words(Digits(ln, start), 8))
  {
    trace := WriteDigits(ln, start, Digits(ln, start));
  }

  // The loop over the characters; d is what they are read as.
  method WriteDigits(ln: string, start: int, ghost d: seq<int>) returns (trace: seq<Write>)
    requires |ln| == DIGITS && ReadAs(ln, start, d)
    ensures trace == Image(Words(d, 8))
  {
    var data := MAGIC;
    trace := [Write(0x400, data)];
    var checkSum := data;
    var val := start;
    data := 0;
    ghost var k := 0;
    ProgressStart(d);
    for i := 0 to DIGITS
      invariant val % 16 == if i == 0 then start % 16 else d[i - 1]
      invariant 4 * k <= i < 4 * k + 4
      invariant Progress(d, i, k, data, checkSum, trace)
    {
      val := ReadDigit(ln[i], val, d[i]);
      data, checkSum, trace := TakeDigit(i, val, data, checkSum, trace, d, k);
      if (i + 1) % 4 == 0 {
        k := k + 1;
      }
    }
    ProgressEnd(d, data, checkSum, trace);
    trace := trace + [Write(0x412, checkSum / 0x1_0000 % 0x1_0000)];
    trace := trace + [Write(0x414, checkSum % 0x1_0000)];
  }

  // The loop body once character i has been read as val: shift it in, and write a full word.
  method TakeDigit(i: nat, val: int, data0: int, checkSum0: int, trace0: seq<Write>, ghost d: seq<int>, ghost k: nat)
    returns (data: int, checkSum: int, trace: seq<Write>)
    requires AreNibbles(d) && 4 * k <= i < 4 * k + 4 <= |d| && val % 16 == d[i]
    requires Progress(d, i, k, data0, checkSum0, trace0)
    ensures Progress(d, i + 1, if (i + 1) % 4 == 0 then k + 1 else k, data, checkSum, trace)
  {
    DigitAdded(d, i, k, data0, checkSum0, trace0);
    data := data0 % 0x1_0000 * 16 + val % 16;
    checkSum, trace := checkSum0, trace0;
    if (i + 1) % 4 == 0 {
      var address := 0x400 + 2 * ((i + 1) / 4);
      checkSum := checkSum + data % 0x1_0000;
      trace := trace + [Write(address, data)];
      data := 0;
    }
  }

  method ReadDigit(c: char, before: int, ghost v: int) returns (val: int)
    requires v == if IsHex(c) then HexValue(c) else before % 16
    ensures val % 16 == v
  {
    var ch := ToUpper(c);
    val := before;
    if '0' <= ch <= '9' {
      val := ch as int - '0' as int;
    } else if 'A' <= ch <= 'F' {
      val := ch as int - 'A' as int + 10;
    }
  }

  // The number is recoverable, in upper case, from the data words.
  lemma NumberIsRecoverable(ln: string, start: int)
    requires |ln| == DIGITS && AllHex(ln)
    ensures Text(Words(Digits(ln, start), 8), 8) == Upper(ln)
  {
    var d := Digits(ln, start);
    forall i | 0 <= i < |ln|
      ensures HexChar(d[i]) == Upper(ln)[i]
    {
      HexCharOfValue(ln[i]);
      assert d[i] == HexValue(ln[i]);
    }
    var words := Words(d, 8);
    forall k: nat | k < 8
      ensures WordText(words[k]) == Upper(ln)[4 * k..4 * k + 4]
    {
      WordReadsBack(d, Upper(ln), k);
    }
    TextOfWords(words, Upper(ln), 8);
    assert Upper(ln)[..32] == Upper(ln);
  }

  lemma {:induction false} TextOfWords(words: seq<int>, text: string, n: nat)
    requires AreWords(words) && n <= |words| && |text| == 4 * |words|
    requires forall k :: 0 <= k < |words| ==> WordText(words[k]) == text[4 * k..4 * k + 4]
    ensures Text(words, n) == text[..4 * n]
  {
    if n == 0 {
    } else {
      var i := 4 * (n - 1);
      TextOfWords(words, text, n - 1);
      assert text[..i + 4] == text[..i] + text[i..i + 4];
    }
  }

  lemma WordReadsBack(d: seq<int>, text: string, k: nat)
    requires AreNibbles(d) && |d| == |text| && 4 * k + 4 <= |d|
    requires forall i :: 0 <= i < |d| ==> HexChar(d[i]) == text[i]
    ensures WordText(WordAt(d, k)) == text[4 * k..4 * k + 4]
  {
    var i := 4 * k;
    FourDigits(d[i], d[i + 1], d[i + 2], d[i + 3]);
    assert text[i..i + 4] == [text[i], text[i + 1], text[i + 2], text[i + 3]];
  }

  lemma FourDigits(a: int, b: int, c: int, d: int)
    requires 0 <= a < 16 && 0 <= b < 16 && 0 <= c < 16 && 0 <= d < 16
    ensures var w := ((a * 16 + b) * 16 + c) * 16 + d;
      w / 0x1000 == a && w / 0x100 % 16 == b && w / 0x10 % 16 == c && w % 16 == d
  {
  }

  lemma {:induction false} SumBounds(words: seq<int>, n: nat)
    requires AreWords(words) && n <= |words|
    ensures 0 <= Sum(words, n) <= 0xFFFF * n
  {
    if n == 0 {
    } else {
      SumBounds(words, n - 1);
    }
  }

  lemma {:induction false} SumOfUpdate(words: seq<int>, k: nat, w: int, n: nat)
    requires k < |words| && n <= |words|
    ensures Sum(words[k := w], n) == Sum(words, n) + if k < n then w - words[k] else 0
  {
    if n == 0 {
    } else {
      SumOfUpdate(words, k, w, n - 1);
    }
  }

  // What a reader recombines from the two checksum words
  function StoredChecksum(image: seq<Write>): int
    requires |image| == 11
  {
    image[9].data * 0x1_0000 + image[10].data
  }

  lemma ChecksumRecombines(words: seq<int>)
    requires AreWords(words) && |words| == 8
    ensures StoredChecksum(Image(words)) == MAGIC + Sum(words, 8)
  {
    SumBounds(words, 8);
    var checksum := MAGIC + Sum(words, 8);
    assert Image(words)[9].data == checksum / 0x1_0000 % 0x1_0000;
    assert Image(words)[10].data == checksum % 0x1_0000;
  }

  // A change of any single data word shows in the checksum.
  lemma ChecksumDetectsOneWord(words: seq<int>, k: nat, w: int)
    requires AreWords(words) && |words| == 8 && k < 8 && 0 <= w < 0x1_0000
    ensures StoredChecksum(Image(words[k := w])) == StoredChecksum(Image(words)) <==> w == words[k]
  {
    ChecksumRecombines(words);
    ChecksumRecombines(words[k := w]);
    SumOfUpdate(words, k, w, 8);
  }

  // The eleven words go to consecutive even addresses from 0x400, the magic word first.
  lemma ImageAddresses(words: seq<int>)
    requires |words| == 8
    ensures |Image(words)| == 11 && Image(words)[0].data == 0xA720
    ensures forall i :: 0 <= i < 11 ==> Image(words)[i].address == 0x400 + 2 * i
    ensures forall i :: 0 <= i < 8 ==> Image(words)[i + 1].data == words[i]
  {
  }
}
