/** Continuity check of a captured I/Q file (IQ_CapturedFile_Error_Check). Every word carries a
    count 1..15 in the top nibble of its byte-swapped value, or 0 before the capture starts. */
module IqCapture {
  type Word = w: int | 0 <= w < 0x1_0000_0000

  // SWAP
  function Swap(w: Word): Word {
    w % 0x100 * 0x100_0000 + w / 0x100 % 0x100 * 0x1_0000 + w / 0x1_0000 % 0x100 * 0x100 + w / 0x100_0000
  }

  // The count is the high nibble of the byte that comes first in the file.
  function Count(w: Word): int {
    w % 0x100 / 16
  }

  function Counts(words: seq<Word>): (counts: seq<int>)
    ensures |counts| == |words|
  {
    seq(|words|, i requires 0 <= i < |words| => Count(words[i]))
  }

  method ReadCount(readData: Word) returns (cc: int)
    ensures cc == Count(readData) == readData % 256 / 16 && 0 <= cc <= 15
  {
    var swapped := Swap(readData);
    cc := swapped / 0x1000_0000 % 16;
  }

  const MEGABYTE := 1024 * 1024

  // How many bytes are checked; None when the file is too short to be checked at all.
  datatype Limit = Unchecked | Bytes(limit: int)

  function CheckLimit(fileSize: int, configuredMegabytes: int): Limit {
    var configured := if configuredMegabytes > 0 then configuredMegabytes * MEGABYTE else -1;
    if fileSize < 16 * MEGABYTE then Unchecked
    else if configured == -1 || configured > fileSize then Bytes(fileSize - 16 * MEGABYTE)
    else Bytes(configured - 16 * MEGABYTE)
  }

  function WordsWithin(total: nat, limit: int): (n: nat)
    ensures n <= total
  {
    if limit < 4 then 0 else if limit / 4 < total then limit / 4 else total
  }

  // After a zero any count may follow; otherwise the count steps along 1, 2, ..., 15, 1.
  predicate Step(before: int, after: int) {
    before == 0 || after == before % 15 + 1
  }

  predicate Continuous(s: seq<int>) {
    && (forall i :: 0 <= i < |s| ==> 0 <= s[i] <= 15)
    && forall i :: 0 < i < |s| ==> Step(s[i - 1], s[i])
  }

  // The reported position is eight bytes past the end of the first word that breaks the cycle.
  predicate FirstFault(s: seq<int>, position: int) {
    var i := position / 4 - 3;
    0 <= i < |s| && position == 4 * (i + 1) + 8 && Continuous(s[..i]) && !Continuous(s[..i + 1])
  }

  // The position is the offset in the file behind the faulty word, whose index counts from the
  // two header words.
  lemma FaultPosition(s: seq<int>, i: nat)
    requires i < |s| && Continuous(s[..i]) && !Continuous(s[..i + 1])
    ensures FirstFault(s, 8 + 4 * i + 4)
  {
  }

  lemma FaultIsUnique(s: seq<int>, position: int, other: int)
    requires FirstFault(s, position) && FirstFault(s, other)
    ensures position == other
  {
    var i, j := position / 4 - 3, other / 4 - 3;
    if i < j {
      ContinuousPrefix(s, i + 1, j);
    } else if j < i {
      ContinuousPrefix(s, j + 1, i);
    }
  }

  lemma ContinuousPrefix(s: seq<int>, i: nat, j: nat)
    requires i <= j <= |s|
    ensures Continuous(s[..j]) ==> Continuous(s[..i])
  {
    assert forall k :: 0 <= k < i ==> s[..i][k] == s[..j][k];
    if Continuous(s[..j]) {
      forall k | 0 < k < i
        ensures Step(s[..i][k - 1], s[..i][k])
      {
        assert Step(s[..j][k - 1], s[..j][k]);
      }
    }
  }

  datatype Verdict = Faultless | ErrorAt(position: int)

  // The test of one count against its predecessor, which is 0 until the first count is seen.
  method CheckCount(predecessor: int, cc: int) returns (ok: bool)
    requires 0 <= predecessor <= 15 && 0 <= cc <= 15
    ensures ok <==> Step(predecessor, cc)
  {
    var preCC := predecessor;
    if preCC == 0 {
      if cc == 1 {
        preCC := 15;
      } else {
        preCC := cc - 1;
      }
    }
    if cc == 1 {
      if preCC != 15 {
        return false;
      }
    } else if cc != preCC + 1 {
      return false;
    }
    return true;
  }

  // The reading loop; words are those after the two header words.
  method ErrorCheck(words: seq<Word>, limit: int) returns (verdict: Verdict)
    ensures var checked := Counts(words)[..WordsWithin(|words|, limit)];
      && (verdict == Faultless <==> Continuous(checked))
      && (verdict.ErrorAt? ==> FirstFault(checked, verdict.position))
  {
    var preCC := 0;
    var readSize := 0;
    ghost var counts := Counts(words);
    ghost var checked := counts[..WordsWithin(|words|, limit)];
    for i := 0 to |words|
      invariant readSize == 4 * i
      invariant i <= |checked|
      invariant Continuous(checked[..i])
      invariant 0 <= preCC <= 15 && preCC == if i == 0 then 0 else checked[i - 1]
    {
      readSize := readSize + 4;
      if limit < readSize {
        assert checked[..i] == checked;
        return Faultless;
      }
      var cc := ReadCount(words[i]);
      assert checked[i] == cc;
      Grow(checked, i);
      var ok := CheckCount(preCC, cc);
      if !ok {
        return ErrorAt(readSize + 8);
      }
      preCC := cc;
    }
    assert checked[..|words|] == checked;
    return Faultless;
  }

  // The words behind the two header words
  function WordsIn(fileSize: nat): nat {
    if fileSize < 8 then 0 else (fileSize - 8) / 4
  }

  // IQ_CapturedFile_Error_Check. It gives no message when it is switched off, and none for a
  // file that is missing or too short.
  method CheckFile(enabled: bool, present: bool, fileSize: nat, configuredMegabytes: int, words: seq<Word>)
    returns (verdict: Verdict)
    requires |words| == WordsIn(fileSize)
    ensures !enabled || !present ==> verdict == Faultless
    ensures enabled && present ==>
      match CheckLimit(fileSize, configuredMegabytes)
      case Unchecked => verdict == Faultless
      case Bytes(limit) =>
        var checked := Counts(words)[..WordsWithin(|words|, limit)];
        if Continuous(checked) then verdict == Faultless
        else verdict.ErrorAt? && FirstFault(checked, verdict.position)
  {
    verdict := Faultless;
    if enabled {
      if present {
        match CheckLimit(fileSize, configuredMegabytes) {
          case Unchecked =>
          case Bytes(limit) => verdict := ErrorCheck(words, limit);
        }
      }
    }
  }

  lemma Grow(s: seq<int>, i: nat)
    requires i < |s| && Continuous(s[..i]) && 0 <= s[i] <= 15
    ensures Continuous(s[..i + 1]) <==> i == 0 || Step(s[i - 1], s[i])
    ensures Continuous(s) ==> Continuous(s[..i + 1])
  {
  }

  // How many words of a file are checked: all but the last 16 megabytes when no size is
  // configured or the file is smaller, otherwise 16 megabytes less than configured. 262144 words
  // are a megabyte.
  lemma CheckedWords(fileSize: nat, configuredMegabytes: int)
    requires fileSize >= 16 * 1048576
    ensures var limit := CheckLimit(fileSize, configuredMegabytes);
      && limit.Bytes?
      && WordsWithin(WordsIn(fileSize), limit.limit)
         == if configuredMegabytes <= 0 || configuredMegabytes * 1048576 > fileSize
            then fileSize / 4 - 16 * 262144
            else if configuredMegabytes <= 16 then 0
            else (configuredMegabytes - 16) * 262144
  {
  }

  // When a long enough file is not checked at all: for a configured size of 1 to 16 megabytes,
  // and for a file of just 16 megabytes whose whole size counts.
  lemma WhenNothingIsChecked(fileSize: nat, configuredMegabytes: int)
    requires fileSize >= 16 * MEGABYTE
    ensures var limit := CheckLimit(fileSize, configuredMegabytes);
      && limit.Bytes?
      && (WordsWithin(WordsIn(fileSize), limit.limit) == 0 <==>
          || 0 < configuredMegabytes <= 16
          || ((configuredMegabytes <= 0 || configuredMegabytes * MEGABYTE > fileSize) && fileSize < 16 * MEGABYTE + 4))
  {
  }

  predicate Zeros(s: seq<int>) {
    forall i :: 0 <= i < |s| ==> s[i] == 0
  }

  predicate Cycle(s: seq<int>) {
    && (forall i :: 0 <= i < |s| ==> 1 <= s[i] <= 15)
    && forall i :: 0 < i < |s| ==> s[i] == s[i - 1] % 15 + 1
  }

  // A faultless capture is a run of zeros, possibly empty, and then the cycle from any count.
  lemma {:induction false} ZerosThenCycle(s: seq<int>)
    ensures Continuous(s) <==> exists z :: 0 <= z <= |s| && Zeros(s[..z]) && Cycle(s[z..])
  {
    if Continuous(s) {
      var z := 0;
      while z < |s| && s[z] == 0
        invariant 0 <= z <= |s| && Zeros(s[..z])
      {
        z := z + 1;
      }
      NonzeroFrom(s, z);
      assert Cycle(s[z..]);
    }
    if z :| 0 <= z <= |s| && Zeros(s[..z]) && Cycle(s[z..]) {
      forall i | 0 <= i < |s|
        ensures 0 <= s[i] <= 15 && (i > 0 ==> Step(s[i - 1], s[i]))
      {
        assert i < z ==> s[i] == s[..z][i];
        assert i >= z ==> s[i] == s[z..][i - z];
        assert 0 < i <= z ==> s[i - 1] == s[..z][i - 1];
        assert i > z ==> s[i - 1] == s[z..][i - 1 - z];
      }
    }
  }

  lemma {:induction false} NonzeroFrom(s: seq<int>, z: nat)
    requires Continuous(s) && z <= |s| && (z < |s| ==> s[z] != 0)
    ensures forall i :: z <= i < |s| ==> 1 <= s[i] <= 15
    decreases |s| - z
  {
    if z + 1 >= |s| {
    } else {
      assert Step(s[z], s[z + 1]);
      NonzeroFrom(s, z + 1);
    }
  }

  // Once counting, the count d words later is d steps along the cycle.
  lemma {:induction false} CountAfter(s: seq<int>, i: nat, d: nat)
    requires Continuous(s) && i + d < |s| && s[i] != 0
    ensures s[i + d] == (s[i] - 1 + d) % 15 + 1
  {
    if d == 0 {
    } else {
      CountAfter(s, i, d - 1);
      NextCount(s[i], d - 1, s[i + d - 1], s[i + d]);
    }
  }

  lemma NextCount(first: int, d: nat, before: int, after: int)
    requires 1 <= first <= 15 && before == (first - 1 + d) % 15 + 1 && Step(before, after)
    ensures after == (first - 1 + (d + 1)) % 15 + 1
  {
  }

  // Which losses the check misses: removing consecutive words from a faultless capture goes
  // unnoticed exactly when nothing follows them, when they come before the first counted word
  // that is kept, or when their number is a multiple of 15.
  lemma MissedLosses(x: seq<int>, gap: seq<int>, y: seq<int>)
    requires Continuous(x + gap + y)
    ensures Continuous(x + y) <==> y == [] || Zeros(x) || |gap| % 15 == 0
  {
    var s := x + gap + y;
    Joined(x, gap, y);
    if x != [] && y != [] {
      var last := |x| - 1;
      assert s[last] == x[last] && s[|x| + |gap|] == y[0];
      if x[last] != 0 {
        CountAfter(s, last, |gap| + 1);
        StepsApart(x[last] - 1, |gap|);
      } else if !Zeros(x) {
        var i :| 0 <= i < |x| && x[i] != 0;
        assert s[i] == x[i];
        NonzeroFrom(s, i);
      }
    }
  }

  lemma Joined(x: seq<int>, gap: seq<int>, y: seq<int>)
    requires Continuous(x + gap + y)
    ensures Continuous(x + y) <==> x == [] || y == [] || Step(x[|x| - 1], y[0])
  {
    var s, t := x + gap + y, x + y;
    forall i | 0 <= i < |t|
      ensures 0 <= t[i] <= 15
      ensures i > 0 && i != |x| ==> Step(t[i - 1], t[i])
    {
      if i < |x| {
        assert t[i] == s[i];
        assert i > 0 ==> t[i - 1] == s[i - 1];
      } else {
        assert t[i] == s[i + |gap|];
        assert i > |x| ==> t[i - 1] == s[i - 1 + |gap|];
      }
    }
    if x != [] && y != [] {
      assert t[|x| - 1] == x[|x| - 1] && t[|x|] == y[0];
    }
  }

  lemma StepsApart(a: nat, d: nat)
    requires a < 15
    ensures (a + d + 1) % 15 + 1 == (a + 1) % 15 + 1 <==> d % 15 == 0
  {
  }
}
