/** The Linux registry replacement: a text file of name=value lines with its printer, its line
    reader and its lookup (Set_Registry_*, Get_A_Line, Get_Line_And_Matched_Value). */
module RegistryText {
  const NUL := '\0'
  const READ_LIMIT := 149  // fgets with a size of 150

  datatype Option<T> = None | Some(value: T)
  datatype Entry = Entry(name: string, value: string)

  // The characters that one fgets takes: through the line feed, but no more than the limit
  function Fgets(text: string, pos: nat, limit: nat): (raw: string)
    requires pos <= |text|
    ensures |raw| <= limit && pos + |raw| <= |text|
    ensures raw == text[pos..pos + |raw|]
    decreases limit
  {
    if limit == 0 || pos == |text| then ""
    else if text[pos] == '\n' then ['\n']
    else [text[pos]] + Fgets(text, pos + 1, limit - 1)
  }

  predicate EndsLine(c: char) {
    c == NUL || c == '\n' || c == '\r'
  }

  // A C string ends at its first NUL, and Get_A_Line also ends it at a line end.
  function Cut(raw: string): (line: string)
    ensures |line| <= |raw| && line == raw[..|line|]
  {
    if raw == "" || EndsLine(raw[0]) then "" else [raw[0]] + Cut(raw[1..])
  }

  lemma {:induction false} CutIs(raw: string, i: nat)
    requires i <= |raw| && (forall k :: 0 <= k < i ==> !EndsLine(raw[k])) && (i < |raw| ==> EndsLine(raw[i]))
    ensures Cut(raw) == raw[..i]
  {
    if i == 0 {
    } else {
      CutIs(raw[1..], i - 1);
    }
  }

  function LineAt(text: string, pos: nat): string
    requires pos <= |text|
  {
    Cut(Fgets(text, pos, READ_LIMIT))
  }

  function NextLine(text: string, pos: nat): (next: nat)
    requires pos <= |text|
    ensures pos <= next <= |text|
    ensures LineAt(text, pos) != "" ==> pos < next
  {
    pos + |Fgets(text, pos, READ_LIMIT)|
  }

  // The index of the first '=', or the length of the line
  function FirstEquals(line: string): (e: nat)
    ensures e <= |line| && (e < |line| ==> line[e] == '=') && forall i :: 0 <= i < e ==> line[i] != '='
  {
    if line == "" || line[0] == '=' then 0 else 1 + FirstEquals(line[1..])
  }

  function NonEmpty(s: string): (value: Option<string>)
    ensures value.None? <==> s == ""
    ensures value.Some? ==> value.value == s
  {
    if s == "" then None else Some(s)
  }

  // The lookup from some position on. It ends at the first line of fewer than three characters.
  function Find(text: string, pos: nat, name: string): Option<string>
    requires pos <= |text|
    decreases |text| - pos
  {
    var line := LineAt(text, pos);
    if |line| <= 2 then None
    else
      var e := FirstEquals(line);
      if e < |line| && line[..e] == name then NonEmpty(line[e + 1..]) else Find(text, NextLine(text, pos), name)
  }

  function Print(entries: seq<Entry>): string {
    if entries == [] then "" else LineOf(entries[0]) + "\n" + Print(entries[1..])
  }

  function LineOf(e: Entry): string {
    e.name + "=" + e.value
  }

  predicate Clean(s: string) {
    forall i :: 0 <= i < |s| ==> !EndsLine(s[i])
  }

  // Entries whose printed line is read back in one piece
  predicate WellFormed(e: Entry) {
    && Clean(e.name) && Clean(e.value)
    && (forall i :: 0 <= i < |e.name| ==> e.name[i] != '=')
    && |LineOf(e)| <= READ_LIMIT
  }

  // The entries that a lookup gets to see. It stops at a line of one or two characters, and
  // behind a line that fills the read, because the next read finds only the line feed.
  function Visible(entries: seq<Entry>): seq<Entry> {
    if entries == [] || |LineOf(entries[0])| <= 2 then []
    else if |LineOf(entries[0])| == READ_LIMIT then entries[..1]
    else entries[..1] + Visible(entries[1..])
  }

  // Every line has at least 3 characters, and none but the last fills the read.
  predicate LinesFit(entries: seq<Entry>) {
    forall i :: 0 <= i < |entries| ==>
      3 <= |LineOf(entries[i])| && (i < |entries| - 1 ==> |LineOf(entries[i])| < READ_LIMIT)
  }

  lemma {:induction false} AllVisible(entries: seq<Entry>)
    requires forall e <- entries :: WellFormed(e)
    ensures Visible(entries) == entries <==> LinesFit(entries)
  {
    if entries == [] {
    } else {
      AllVisible(entries[1..]);
      FitStep(entries);
      assert entries == entries[..1] + entries[1..];
      assert entries[0] in entries;
    }
  }

  lemma FitStep(entries: seq<Entry>)
    requires entries != []
    ensures LinesFit(entries) <==>
      3 <= |LineOf(entries[0])| && (|entries| > 1 ==> |LineOf(entries[0])| < READ_LIMIT) && LinesFit(entries[1..])
  {
  }

  // The meaning of a store: the first entry of that name counts, an empty value is no value.
  function Lookup(entries: seq<Entry>, name: string): Option<string> {
    if entries == [] then None
    else if entries[0].name == name then NonEmpty(entries[0].value)
    else Lookup(entries[1..], name)
  }

  lemma {:induction false} FgetsWholeLine(text: string, pos: nat, limit: nat, line: string)
    requires pos + |line| < |text| && |line| < limit
    requires text[pos..pos + |line|] == line && text[pos + |line|] == '\n' && Clean(line)
    ensures Fgets(text, pos, limit) == line + "\n"
    decreases |line|
  {
    if line != "" {
      assert text[pos] == line[0];
      FgetsWholeLine(text, pos + 1, limit - 1, line[1..]);
    } else {
      assert line + "\n" == ['\n'];
    }
  }

  lemma {:induction false} CutAtFeed(line: string)
    requires Clean(line)
    ensures Cut(line + "\n") == line
  {
    if line == "" {
    } else {
      CutAtFeed(line[1..]);
      assert (line + "\n")[1..] == line[1..] + "\n";
    }
  }

  lemma {:induction false} EqualsAfterName(name: string, value: string)
    requires forall i :: 0 <= i < |name| ==> name[i] != '='
    ensures FirstEquals(name + "=" + value) == |name|
  {
    var line := name + "=" + value;
    if name == "" {
    } else {
      EqualsAfterName(name[1..], value);
      assert line[1..] == name[1..] + "=" + value;
      assert line[0] == name[0];
    }
  }

  // A printed line is read back whole, and the next read starts at the next line.
  lemma PrintedLine(text: string, pos: nat, e: Entry, rest: string)
    requires pos <= |text| && text[pos..] == LineOf(e) + "\n" + rest
    requires Clean(LineOf(e)) && |LineOf(e)| <= 148
    ensures LineAt(text, pos) == LineOf(e)
    ensures NextLine(text, pos) == pos + |LineOf(e)| + 1 && text[NextLine(text, pos)..] == rest
  {
    var line := LineOf(e);
    Slices(text, pos, line, rest);
    FgetsWholeLine(text, pos, READ_LIMIT, line);
    CutAtFeed(line);
  }

  lemma Slices(text: string, pos: nat, line: string, rest: string)
    requires pos <= |text| && text[pos..] == line + "\n" + rest
    ensures pos + |line| < |text| && text[pos..pos + |line|] == line && text[pos + |line|] == '\n'
    ensures text[pos + |line| + 1..] == rest
  {
  }

  lemma CleanLine(e: Entry)
    requires Clean(e.name) && Clean(e.value)
    ensures Clean(LineOf(e))
  {
  }

  // A line that fills the read leaves its line feed to the next read.
  lemma FullLine(text: string, pos: nat, e: Entry, rest: string)
    requires pos <= |text| && text[pos..] == LineOf(e) + "\n" + rest
    requires Clean(LineOf(e)) && |LineOf(e)| == READ_LIMIT
    ensures LineAt(text, pos) == LineOf(e) && LineAt(text, NextLine(text, pos)) == ""
  {
    var line := LineOf(e);
    Slices(text, pos, line, rest);
    FgetsFull(text, pos, READ_LIMIT, line);
    CutClean(line);
    assert Fgets(text, pos + |line|, READ_LIMIT) == ['\n'];
  }

  lemma NameAndValue(e: Entry)
    requires WellFormed(e)
    ensures var n := FirstEquals(LineOf(e));
      n < |LineOf(e)| && LineOf(e)[..n] == e.name && LineOf(e)[n + 1..] == e.value
  {
    EqualsAfterName(e.name, e.value);
    assert LineOf(e)[..|e.name|] == e.name && LineOf(e)[|e.name| + 1..] == e.value;
  }

  lemma LookupStep(entries: seq<Entry>, name: string)
    requires entries != [] && |LineOf(entries[0])| > 2
    ensures var e := entries[0];
      Lookup(Visible(entries), name)
      == if e.name == name then NonEmpty(e.value)
         else if |LineOf(e)| == READ_LIMIT then None
         else Lookup(Visible(entries[1..]), name)
  {
  }

  // For every printed store and every name, the file lookup is the lookup in the visible part
  // of the store, even when a value contains '='.
  lemma {:induction false} FindIsLookup(text: string, pos: nat, entries: seq<Entry>, name: string)
    requires pos <= |text| && text[pos..] == Print(entries)
    requires forall e <- entries :: WellFormed(e)
    ensures Find(text, pos, name) == Lookup(Visible(entries), name)
    decreases |entries|
  {
    if entries == [] {
      assert |text| == pos;
    } else {
      var e, rest := entries[0], entries[1..];
      assert WellFormed(e);
      CleanLine(e);
      NameAndValue(e);
      if |LineOf(e)| > 2 {
        LookupStep(entries, name);
      }
      if |LineOf(e)| == READ_LIMIT {
        FullLine(text, pos, e, Print(rest));
      } else {
        PrintedLine(text, pos, e, Print(rest));
        if |LineOf(e)| > 2 {
          FindIsLookup(text, NextLine(text, pos), rest, name);
        }
      }
    }
  }

  lemma {:induction false} FgetsFull(text: string, pos: nat, limit: nat, line: string)
    requires pos + |line| < |text| && |line| == limit
    requires text[pos..pos + |line|] == line && Clean(line)
    ensures Fgets(text, pos, limit) == line
    decreases limit
  {
    if limit == 0 {
    } else {
      assert text[pos] == line[0];
      FgetsFull(text, pos + 1, limit - 1, line[1..]);
    }
  }

  lemma {:induction false} CutClean(line: string)
    requires Clean(line)
    ensures Cut(line) == line
  {
    if line == "" {
    } else {
      CutClean(line[1..]);
    }
  }

  lemma {:induction false} PrintAppend(entries: seq<Entry>, e: Entry)
    ensures Print(entries + [e]) == Print(entries) + LineOf(e) + "\n"
  {
    if entries == [] {
      assert [e][1..] == [] && entries + [e] == [e];
    } else {
      PrintAppend(entries[1..], e);
      assert (entries + [e])[1..] == entries[1..] + [e];
    }
  }

  lemma {:induction false} LookupAppend(entries: seq<Entry>, e: Entry, name: string)
    ensures (exists d <- entries :: d.name == name) ==> Lookup(entries + [e], name) == Lookup(entries, name)
    ensures (forall d <- entries :: d.name != name) ==>
      Lookup(entries + [e], name) == if e.name == name then NonEmpty(e.value) else None
  {
    if entries == [] {
    } else {
      LookupAppend(entries[1..], e, name);
      assert (entries + [e])[1..] == entries[1..] + [e];
      assert forall d <- entries[1..] :: d in entries;
    }
  }

  // What ends a lookup early: a line of one or two characters, and, unless it is the line looked
  // for, a line of 149.
  lemma ShortLineHidesRest(e: Entry, rest: seq<Entry>, name: string)
    requires WellFormed(e) && (forall d <- rest :: WellFormed(d)) && |LineOf(e)| <= 2
    ensures Find(Print([e] + rest), 0, name) == None
  {
    assert Print([e] + rest)[0..] == Print([e] + rest);
    FindIsLookup(Print([e] + rest), 0, [e] + rest, name);
  }

  lemma FullLineHidesRest(e: Entry, rest: seq<Entry>, name: string)
    requires WellFormed(e) && (forall d <- rest :: WellFormed(d)) && |LineOf(e)| == 149 && e.name != name
    ensures Find(Print([e] + rest), 0, name) == None
  {
    assert Print([e] + rest)[0..] == Print([e] + rest);
    FindIsLookup(Print([e] + rest), 0, [e] + rest, name);
    LookupStep([e] + rest, name);
  }

  // Entries that fit the reads of the lookup wherever they stand
  predicate Fitting(e: Entry) {
    WellFormed(e) && 3 <= |LineOf(e)| < READ_LIMIT
  }

  lemma FindInStore(entries: seq<Entry>, name: string)
    requires forall e <- entries :: WellFormed(e) && 3 <= |e.name| + 1 + |e.value| <= 148
    ensures Find(Print(entries), 0, name) == Lookup(entries, name)
  {
    AllVisible(entries);
    assert forall i :: 0 <= i < |entries| ==> WellFormed(entries[i]) && 3 <= |LineOf(entries[i])| <= 148;
    assert Print(entries)[0..] == Print(entries);
    FindIsLookup(Print(entries), 0, entries, name);
  }

  // An entry stored under a new name is what the next lookup finds.
  lemma FindNewEntry(entries: seq<Entry>, added: Entry)
    requires forall e <- entries :: Fitting(e) && e.name != added.name
    requires Fitting(added)
    ensures Find(Print(entries + [added]), 0, added.name) == NonEmpty(added.value)
  {
    FindInStore(entries + [added], added.name);
    LookupAppend(entries, added, added.name);
  }
}
