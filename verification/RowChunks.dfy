/** Cutting a text into rows of 250 characters for the status display, with blanks and line ends
    replaced (Get_RemuxInfo, Get_ATSC_MH_PARAMETERS_256, Get_T2MI_PARAMETERS_200). */
module RowChunks {
  const ROW := 250
  const ROW_SIZE := 256
  const NUL := '\0'

  function Substitute(c: char): char {
    if c == ' ' then '*' else if c == '\r' then '[' else if c == '\n' then ']' else c
  }

  function Restore(c: char): char {
    if c == '*' then ' ' else if c == '[' then '\r' else if c == ']' then '\n' else c
  }

  function Mapped(f: char -> char, s: string): (t: string)
    ensures |t| == |s| && forall i :: 0 <= i < |s| ==> t[i] == f(s[i])
  {
    seq(|s|, i requires 0 <= i < |s| => f(s[i]))
  }

  // The substitution can be undone exactly on texts without the three replacement characters.
  lemma RestoreInvertsSubstitute(s: string)
    ensures Mapped(Restore, Mapped(Substitute, s)) == s
            <==> forall i :: 0 <= i < |s| ==> s[i] != '*' && s[i] != '[' && s[i] != ']'
  {
  }

  // Which characters are replaced: the result has no blank and no line end, and every other
  // character stays.
  lemma SubstitutedText(s: string, i: nat)
    requires i < |s|
    ensures var c := Mapped(Substitute, s)[i];
      && c !in {' ', '\r', '\n'}
      && (s[i] == ' ' ==> c == '*') && (s[i] == '\r' ==> c == '[') && (s[i] == '\n' ==> c == ']')
      && (s[i] !in {' ', '\r', '\n'} ==> c == s[i])
  {
  }

  // The C string that starts at column c of a row
  function RowText(rows: array2<char>, r: nat, c: nat): string
    requires r < rows.Length0 && c <= rows.Length1
    reads rows
    decreases rows.Length1 - c
  {
    if c == rows.Length1 || rows[r, c] == NUL then "" else [rows[r, c]] + RowText(rows, r, c + 1)
  }

  function RowsText(rows: array2<char>, n: nat): string
    requires n <= rows.Length0
    reads rows
  {
    if n == 0 then "" else RowsText(rows, n - 1) + RowText(rows, n - 1, 0)
  }

  // The first len characters of a text, row by row, with a terminator behind each full row
  predicate Laid(rows: array2<char>, text: string, len: nat)
    requires len <= |text| && len < ROW * rows.Length0 && rows.Length1 == ROW_SIZE
    reads rows
  {
    && (forall r, c {:trigger rows[r, c]} :: 0 <= r < rows.Length0 && 0 <= c < ROW && r * ROW + c < len ==>
          rows[r, c] == text[r * ROW + c])
    && (forall r :: 0 <= r < rows.Length0 && (r + 1) * ROW <= len ==> rows[r, ROW] == NUL)
  }

  // The chunking loop, for a text that leaves room for its last terminator. A text of exactly
  // 250 characters a row would put that terminator behind the last row.
  method Chunk(rows: array2<char>, data: string)
    requires rows.Length1 == ROW_SIZE && |data| < ROW * rows.Length0
    modifies rows
    ensures Laid(rows, Mapped(Substitute, data), |data|)
    ensures rows[|data| / ROW, |data| % ROW] == NUL
    ensures forall r :: |data| / ROW < r < rows.Length0 ==> rows[r, 0] == NUL
  {
    for i := 0 to rows.Length0
      invariant forall r :: 0 <= r < i ==> rows[r, 0] == NUL
    {
      rows[i, 0] := NUL;
    }
    ghost var text := Mapped(Substitute, data);
    var j := 0;
    for i := 0 to |data|
      invariant j == i / ROW
      invariant Laid(rows, text, i)
      invariant forall r :: j < r < rows.Length0 ==> rows[r, 0] == NUL
    {
      j := Place(rows, text, i, j, data[i]);
    }
    rows[j, |data| % ROW] := NUL;
  }

  // The loop body: one character substituted and stored, and a terminator behind a full row.
  method Place(rows: array2<char>, ghost text: string, i: nat, row: nat, character: char) returns (j: nat)
    requires rows.Length1 == ROW_SIZE && i < |text| < ROW * rows.Length0 && row == i / ROW
    requires Laid(rows, text, i) && text[i] == Substitute(character)
    modifies rows
    ensures j == (i + 1) / ROW && Laid(rows, text, i + 1)
    ensures forall r :: j < r < rows.Length0 ==> rows[r, 0] == old(rows[r, 0])
  {
    var c := character;
    if character == ' ' {
      c := '*';
    } else if character == '\r' {
      c := '[';
    } else if character == '\n' {
      c := ']';
    }
    j := row;
    rows[j, i % ROW] := c;
    if (i + 1) % ROW == 0 {
      rows[j, i % ROW + 1] := NUL;
      j := j + 1;
    }
  }

  predicate Inside(rowCount: nat, r: nat, c: nat) {
    r < rowCount && c < ROW_SIZE
  }

  // Where the loop and the last statement write: characters, terminators behind full rows, and
  // the last terminator
  predicate WritesStayInside(rowCount: nat, len: nat) {
    && (forall i: nat :: i < len ==> Inside(rowCount, i / ROW, i % ROW))
    && (forall i: nat :: i < len && (i + 1) % ROW == 0 ==> Inside(rowCount, i / ROW, i % ROW + 1))
    && Inside(rowCount, len / ROW, len % ROW)
  }

  // The precondition of the loop is exactly that all of its writes stay inside the rows.
  lemma WritesFit(rowCount: nat, len: nat)
    ensures WritesStayInside(rowCount, len) <==> len < 250 * rowCount
  {
  }

  predicate NoNul(s: string) {
    forall i :: 0 <= i < |s| ==> s[i] != NUL
  }

  lemma {:induction false} RowTextIs(rows: array2<char>, r: nat, content: string, c: nat)
    requires r < rows.Length0 && c <= |content| < rows.Length1 && NoNul(content)
    requires forall k :: 0 <= k < |content| ==> rows[r, k] == content[k]
    requires rows[r, |content|] == NUL
    ensures RowText(rows, r, c) == content[c..]
    decreases |content| - c
  {
    if c == |content| {
    } else {
      RowTextIs(rows, r, content, c + 1);
    }
  }

  // Where the text of the first n rows ends
  function RowsEnd(n: nat, len: nat): nat {
    if n * ROW < len then n * ROW else len
  }

  lemma {:induction false} RowsConcatenate(rows: array2<char>, text: string, n: nat)
    requires rows.Length1 == ROW_SIZE && |text| < ROW * rows.Length0 && n <= rows.Length0
    requires NoNul(text) && Laid(rows, text, |text|)
    requires rows[|text| / ROW, |text| % ROW] == NUL
    requires forall r :: |text| / ROW < r < rows.Length0 ==> rows[r, 0] == NUL
    ensures RowsText(rows, n) == text[..RowsEnd(n, |text|)]
  {
    if n == 0 {
    } else {
      RowsConcatenate(rows, text, n - 1);
      var r := n - 1;
      var first, end := RowsEnd(r, |text|), RowsEnd(n, |text|);
      var content := text[first..end];
      forall k | 0 <= k < |content|
        ensures rows[r, k] == content[k]
      {
        assert r * ROW + k < |text|;
      }
      RowTextIs(rows, r, content, 0);
      assert text[..end] == text[..first] + content;
    }
  }

  // Get_RemuxInfo and Get_ATSC_MH_PARAMETERS_256 fill nine rows from a C string.
  method GetRemuxInfo(rows: array2<char>, remuxInfo: string)
    requires rows.Length0 == 9 && rows.Length1 == ROW_SIZE
    requires NoNul(remuxInfo) && |remuxInfo| < 9 * 250
    modifies rows
    ensures RowsText(rows, 9) == Mapped(Substitute, remuxInfo)
  {
    Chunk(rows, remuxInfo);
    RowsConcatenate(rows, Mapped(Substitute, remuxInfo), 9);
  }

  // Get_T2MI_PARAMETERS_200 fills 17 rows from a buffer of 4096 bytes, NUL bytes included.
  method GetT2miParameters(rows: array2<char>, t2miData: string)
    requires rows.Length0 == 17 && rows.Length1 == ROW_SIZE && |t2miData| == 4096
    modifies rows
    ensures Laid(rows, Mapped(Substitute, t2miData), 4096) && rows[16, 96] == NUL
    ensures NoNul(t2miData) ==> RowsText(rows, 17) == Mapped(Substitute, t2miData)
  {
    Chunk(rows, t2miData);
    if NoNul(t2miData) {
      RowsConcatenate(rows, Mapped(Substitute, t2miData), 17);
    }
  }
}
