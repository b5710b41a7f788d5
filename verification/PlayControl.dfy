/** Playing, stopping and recording on boards whose real and virtual slots share one ASI output
    (the WIN32 Start_Playing and Start_Recording, and Stop_Playing). */
module PlayControl {
  const SLOTS := 24  // MAX_BOARD_COUNT + 1
  const TVB594 := 0x50

  // The part of a board's configuration that initialization fixes. gnRealandvir_cnt and
  // gnRealandvir_location are set for the real slot of a group; a virtual slot keeps -1 and 0.
  datatype Slot = Slot(boardId: int, isVirtual: bool, owner: int, groupCount: int, groupMap: int, stream: int)
  type Config = c: seq<Slot> | |c| == SLOTS witness seq(SLOTS, _ => Slot(0, false, 0, 0, 0, 0))

  // The fields of a slot before initialization finds its board
  const EMPTY := Slot(0, false, -1, -1, 0, -1)

  predicate SharedOutput(boardId: int) {
    boardId == TVB594 || boardId == 0xF || boardId == 0x16 || boardId == 16
  }

  // (map >> i) & 1
  function Shifted(bitmap: int, i: nat): int
    decreases i
  {
    if i == 0 then bitmap else Shifted(bitmap / 2, i - 1)
  }

  predicate Bit(bitmap: int, i: nat) {
    Shifted(bitmap, i) % 2 == 1
  }

  function OwnerOf(c: Config, b: nat): int
    requires b < SLOTS
  {
    if c[b].isVirtual then c[b].owner else b
  }

  predicate SharesOutput(c: Config, o: nat)
    requires o < SLOTS
  {
    !c[o].isVirtual && SharedOutput(c[o].boardId) && c[o].groupCount > 1
  }

  // Groups as the board reports them: a real slot and the virtual slots that it owns. Only a
  // real slot that shares its output with others needs a map; every other slot may keep the
  // count and map of an empty one.
  ghost predicate ValidConfig(c: Config) {
    && (forall b :: 0 <= b < SLOTS && c[b].isVirtual ==>
          && 0 <= c[b].owner < SLOTS && !c[c[b].owner].isVirtual
          && c[b].boardId == c[c[b].owner].boardId
          && c[b].groupCount == -1 && c[b].groupMap == 0)
    && (forall o, i: nat {:trigger Bit(c[o].groupMap, i)} ::
          0 <= o < SLOTS && SharesOutput(c, o) && i < SLOTS ==> (Bit(c[o].groupMap, i) <==> OwnerOf(c, i) == o))
    && (forall o, i {:trigger OwnerOf(c, i), c[o]} :: 0 <= o < SLOTS && 0 <= i < SLOTS && OwnerOf(c, i) == o && i != o ==>
          c[o].groupCount > 1)
  }

  // A call of TSPH__SEL_TS_of_ASI310OUT
  datatype Selection = Selection(slot: nat, value: int)
  datatype State = State(playing: seq<bool>, selections: seq<Selection>)

  function StreamValue(boardId: int, stream: int): int {
    if boardId == TVB594 then stream % 4 * 4 + stream % 4 else stream
  }

  function Select(c: Config, b: nat): Selection
    requires b < SLOTS
  {
    Selection(b, StreamValue(c[b].boardId, c[b].stream))
  }

  // How an attempt to play ends. RecordFileFailed is the failing file of RECV_IP_STREAM_REC mode.
  datatype StartOutcome = Refused | CombinerInvalid | RecordFileFailed | LibraryFailed | Started

  datatype Action =
    | Start(b: nat, outcome: StartOutcome)
    | Stop(b: nat)
    | Record(b: nat, succeeds: bool)
    | Focus(b: nat)

  // Playing members in a group map, ascending, from slot i on
  function PlayingMembers(c: Config, groupMap: int, playing: seq<bool>, i: nat): seq<Selection>
    requires |playing| == SLOTS && i <= SLOTS
    decreases SLOTS - i
  {
    if i == SLOTS then []
    else
      var rest := PlayingMembers(c, groupMap, playing, i + 1);
      if Bit(groupMap, i) && playing[i] then [Select(c, i)] + rest else rest
  }

  // What stopping slot b selects, given who plays once it has stopped: a virtual slot hands
  // the output to its owner or else to each playing member in turn, a real slot to the first.
  function StopSelections(c: Config, playing: seq<bool>, b: nat): seq<Selection>
    requires |playing| == SLOTS && b < SLOTS && (c[b].isVirtual ==> 0 <= c[b].owner < SLOTS)
  {
    var o := OwnerOf(c, b);
    var members := PlayingMembers(c, c[o].groupMap, playing, 0);
    if !SharedOutput(c[b].boardId) then []
    else if c[b].isVirtual && playing[o] then [Select(c, o)]
    else if c[o].groupCount <= 1 || members == [] then []
    else if c[b].isVirtual then members
    else [members[0]]
  }

  function AfterStop(c: Config, s: State, b: nat): State
    requires |s.playing| == SLOTS && b < SLOTS && (c[b].isVirtual ==> 0 <= c[b].owner < SLOTS)
  {
    if !s.playing[b] then s
    else
      var playing := s.playing[b := false];
      State(playing, s.selections + StopSelections(c, playing, b))
  }

  function AfterRecord(c: Config, s: State, b: nat, succeeds: bool): State
    requires |s.playing| == SLOTS && b < SLOTS
  {
    if succeeds && SharedOutput(c[b].boardId) && c[b].groupCount > 1 then
      s.(playing := seq(SLOTS, i requires 0 <= i < SLOTS => s.playing[i] && !Bit(c[b].groupMap, i)))
    else s
  }

  function AfterStart(c: Config, s: State, b: nat, outcome: StartOutcome): State
    requires |s.playing| == SLOTS && b < SLOTS
  {
    match outcome
    case Refused => s
    case CombinerInvalid => s.(playing := s.playing[b := false])
    case RecordFileFailed => s.(playing := s.playing[b := true])
    case LibraryFailed => s.(playing := s.playing[b := false])
    case Started =>
      State(s.playing[b := true], s.selections + if SharedOutput(c[b].boardId) then [Select(c, b)] else [])
  }

  // Bringing a board to the front selects its stream again while it plays.
  function AfterFocus(c: Config, s: State, b: nat): State
    requires |s.playing| == SLOTS && b < SLOTS
  {
    if SharedOutput(c[b].boardId) && s.playing[b] then s.(selections := s.selections + [Select(c, b)]) else s
  }

  predicate InRange(c: Config, s: State, a: Action) {
    |s.playing| == SLOTS && a.b < SLOTS && (c[a.b].isVirtual ==> 0 <= c[a.b].owner < SLOTS)
  }

  function Step(c: Config, s: State, a: Action): (s': State)
    requires InRange(c, s, a)
    ensures |s'.playing| == SLOTS
  {
    match a
    case Start(b, outcome) => AfterStart(c, s, b, outcome)
    case Stop(b) => AfterStop(c, s, b)
    case Record(b, succeeds) => AfterRecord(c, s, b, succeeds)
    case Focus(b) => AfterFocus(c, s, b)
  }

  // The last selection that concerns the group of slot o
  datatype Last = Nothing | Latest(selection: Selection)

  function LastOfGroup(c: Config, selections: seq<Selection>, o: nat): Last {
    if selections == [] then Nothing
    else
      var n := |selections| - 1;
      if selections[n].slot < SLOTS && OwnerOf(c, selections[n].slot) == o then Latest(selections[n])
      else LastOfGroup(c, selections[..n], o)
  }

  // The shared output of group o carries the stream of a playing member.
  predicate OutputPlays(c: Config, s: State, o: nat)
    requires |s.playing| == SLOTS
  {
    var last := LastOfGroup(c, s.selections, o);
    last.Latest? && last.selection.slot < SLOTS && s.playing[last.selection.slot]
    && OwnerOf(c, last.selection.slot) == o && last.selection == Select(c, last.selection.slot)
  }

  ghost predicate GroupPlays(c: Config, s: State, o: nat)
    requires |s.playing| == SLOTS
  {
    exists i :: 0 <= i < SLOTS && OwnerOf(c, i) == o && s.playing[i]
  }

  ghost predicate GroupOk(c: Config, s: State, o: nat)
    requires |s.playing| == SLOTS && o < SLOTS
  {
    !c[o].isVirtual && SharedOutput(c[o].boardId) && GroupPlays(c, s, o) ==> OutputPlays(c, s, o)
  }

  // The invariant: while some member of a shared group plays, the stream selected last for the
  // group's output is that of a playing member.
  ghost predicate Inv(c: Config, s: State) {
    && |s.playing| == SLOTS
    && forall o: nat :: o < SLOTS ==> GroupOk(c, s, o)
  }

  lemma LastAppend(c: Config, selections: seq<Selection>, next: Selection, o: nat)
    ensures LastOfGroup(c, selections + [next], o)
      == if next.slot < SLOTS && OwnerOf(c, next.slot) == o then Latest(next) else LastOfGroup(c, selections, o)
  {
  }

  lemma {:induction false} LastOfMembers(c: Config, selections: seq<Selection>, members: seq<Selection>, o: nat)
    requires forall m <- members :: m.slot < SLOTS
    ensures (forall m <- members :: OwnerOf(c, m.slot) == o) && members != [] ==>
      LastOfGroup(c, selections + members, o) == Latest(members[|members| - 1])
    ensures (forall m <- members :: OwnerOf(c, m.slot) != o) ==>
      LastOfGroup(c, selections + members, o) == LastOfGroup(c, selections, o)
    decreases |members|
  {
    if members == [] {
      assert selections + members == selections;
    } else {
      var n := |members| - 1;
      assert selections + members == selections + members[..n] + [members[n]];
      LastAppend(c, selections + members[..n], members[n], o);
      LastOfMembers(c, selections, members[..n], o);
    }
  }

  lemma {:induction false} MembersPlay(c: Config, groupMap: int, playing: seq<bool>, i: nat)
    requires |playing| == SLOTS && i <= SLOTS
    ensures forall m <- PlayingMembers(c, groupMap, playing, i) ::
      m.slot < SLOTS && Bit(groupMap, m.slot) && playing[m.slot] && m == Select(c, m.slot)
    ensures (exists k: nat :: i <= k < SLOTS && Bit(groupMap, k) && playing[k]) ==>
      PlayingMembers(c, groupMap, playing, i) != []
    decreases SLOTS - i
  {
    if i == SLOTS {
    } else {
      MembersPlay(c, groupMap, playing, i + 1);
    }
  }

  // The members come in ascending order, and none that plays is missing.
  lemma {:induction false} MembersAreComplete(c: Config, groupMap: int, playing: seq<bool>, i: nat)
    requires |playing| == SLOTS && i <= SLOTS
    ensures var members := PlayingMembers(c, groupMap, playing, i);
      && (forall m <- members :: i <= m.slot)
      && (forall x, y :: 0 <= x < y < |members| ==> members[x].slot < members[y].slot)
      && forall k: nat :: i <= k < SLOTS && Bit(groupMap, k) && playing[k] ==> Select(c, k) in members
    decreases SLOTS - i
  {
    if i == SLOTS {
    } else {
      MembersAreComplete(c, groupMap, playing, i + 1);
    }
  }

  // For TVB594 both two-bit fields of the selected value carry the stream number.
  lemma SelectedStream(c: Config, b: nat)
    requires b < SLOTS
    ensures Select(c, b).slot == b
    ensures c[b].boardId == 0x50 ==>
      0 <= Select(c, b).value < 16
      && Select(c, b).value / 4 == c[b].stream % 4 && Select(c, b).value % 4 == c[b].stream % 4
    ensures c[b].boardId != 0x50 ==> Select(c, b).value == c[b].stream
  {
  }

  // What a stop hands over, given who plays afterwards. The output of a virtual slot goes back
  // to its playing owner, or else to the playing members of the group in ascending order; that
  // of a real slot goes to the lowest playing member.
  lemma StopHandsOver(c: Config, playing: seq<bool>, b: nat)
    requires ValidConfig(c) && |playing| == SLOTS && b < SLOTS && !playing[b]
    ensures var o := if c[b].isVirtual then c[b].owner else b;
            var added := StopSelections(c, playing, b);
      && (c[b].boardId !in {0x50, 0xF, 0x16, 16} ==> added == [])
      && (c[b].boardId in {0x50, 0xF, 0x16, 16} && c[b].isVirtual && playing[o] ==> added == [Select(c, o)])
      && (c[b].boardId in {0x50, 0xF, 0x16, 16} && !(c[b].isVirtual && playing[o]) ==>
            && (forall m <- added ::
                  m.slot < SLOTS && OwnerOf(c, m.slot) == o && playing[m.slot] && m == Select(c, m.slot))
            && (forall x, y :: 0 <= x < y < |added| ==> added[x].slot < added[y].slot)
            && (c[b].isVirtual ==>
                  forall i: nat :: i < SLOTS && OwnerOf(c, i) == o && playing[i] ==> Select(c, i) in added)
            && (!c[b].isVirtual ==> |added| <= 1)
            && (!c[b].isVirtual ==>
                  forall i: nat :: i < SLOTS && OwnerOf(c, i) == o && playing[i] ==> added != [] && added[0].slot <= i))
  {
    var o := OwnerOf(c, b);
    var members := PlayingMembers(c, c[o].groupMap, playing, 0);
    StopSelectsPlaying(c, playing, b);
    MembersAreComplete(c, c[o].groupMap, playing, 0);
    if SharedOutput(c[b].boardId) {
      forall i: nat | i < SLOTS && OwnerOf(c, i) == o && playing[i]
        ensures c[o].groupCount > 1 && Bit(c[o].groupMap, i) && Select(c, i) in members && members[0].slot <= i
      {
        var other := if i != o then i else b;
        assert OwnerOf(c, other) == o && other != o;
        assert Bit(c[o].groupMap, i);
      }
    }
  }

  // Selections of playing members of one group
  ghost predicate Handover(c: Config, playing: seq<bool>, home: nat, added: seq<Selection>)
    requires |playing| == SLOTS
  {
    forall m <- added :: m.slot < SLOTS && OwnerOf(c, m.slot) == home && playing[m.slot] && m == Select(c, m.slot)
  }

  ghost predicate SameElsewhere(c: Config, before: seq<bool>, after: seq<bool>, home: nat)
    requires |before| == |after| == SLOTS
  {
    forall i {:trigger OwnerOf(c, i)} :: 0 <= i < SLOTS && OwnerOf(c, i) != home ==> before[i] == after[i]
  }

  // A step that changes one group, and hands its output over whenever a member still plays,
  // keeps the invariant.
  lemma HandoverKeepsInv(c: Config, s: State, t: State, home: nat, added: seq<Selection>)
    requires Inv(c, s) && |t.playing| == SLOTS && t.selections == s.selections + added
    requires Handover(c, t.playing, home, added) && SameElsewhere(c, s.playing, t.playing, home)
    requires home < SLOTS && (added == [] ==> GroupOk(c, t, home))
    ensures Inv(c, t)
  {
    forall o: nat | o < SLOTS
      ensures GroupOk(c, t, o)
    {
      assert GroupOk(c, s, o);
      LastOfMembers(c, s.selections, added, o);
      if o == home {
        if added != [] {
          assert added[|added| - 1] in added;
        }
      } else if GroupPlays(c, t, o) {
        var i :| 0 <= i < SLOTS && OwnerOf(c, i) == o && t.playing[i];
        assert s.playing[i];
        assert GroupPlays(c, s, o);
      }
    }
  }

  lemma StopSelectsPlaying(c: Config, playing: seq<bool>, b: nat)
    requires ValidConfig(c) && |playing| == SLOTS && b < SLOTS
    ensures Handover(c, playing, OwnerOf(c, b), StopSelections(c, playing, b))
  {
    var o := OwnerOf(c, b);
    MembersPlay(c, c[o].groupMap, playing, 0);
    var members := PlayingMembers(c, c[o].groupMap, playing, 0);
    assert members != [] ==> members[0] in members;
  }

  lemma StopSelectsSome(c: Config, playing: seq<bool>, b: nat, i: nat)
    requires ValidConfig(c) && |playing| == SLOTS && b < SLOTS && SharedOutput(c[b].boardId) && !playing[b]
    requires i < SLOTS && OwnerOf(c, i) == OwnerOf(c, b) && playing[i]
    ensures StopSelections(c, playing, b) != []
  {
    var o := OwnerOf(c, b);
    MembersPlay(c, c[o].groupMap, playing, 0);
    assert Bit(c[o].groupMap, i);
    var other := if i != o then i else b;
    assert OwnerOf(c, other) == o && other != o;
  }

  lemma StopKeepsInv(c: Config, s: State, b: nat)
    requires ValidConfig(c) && Inv(c, s) && b < SLOTS
    ensures Inv(c, AfterStop(c, s, b))
  {
    if s.playing[b] {
      var t := AfterStop(c, s, b);
      StopSelectsPlaying(c, t.playing, b);
      var o := OwnerOf(c, b);
      if SharedOutput(c[b].boardId) && GroupPlays(c, t, o) {
        var i :| 0 <= i < SLOTS && OwnerOf(c, i) == o && t.playing[i];
        StopSelectsSome(c, t.playing, b, i);
      }
      HandoverKeepsInv(c, s, t, OwnerOf(c, b), StopSelections(c, t.playing, b));
    }
  }

  lemma RecordKeepsInv(c: Config, s: State, b: nat, succeeds: bool)
    requires ValidConfig(c) && Inv(c, s) && b < SLOTS
    ensures Inv(c, AfterRecord(c, s, b, succeeds))
  {
    var t := AfterRecord(c, s, b, succeeds);
    if succeeds && SharedOutput(c[b].boardId) && c[b].groupCount > 1 {
      RecordStopsGroup(c, s, b);
      assert s.selections + [] == t.selections;
      forall i | 0 <= i < SLOTS && OwnerOf(c, i) != b
        ensures s.playing[i] == t.playing[i]
      {
        assert !Bit(c[b].groupMap, i);
      }
      HandoverKeepsInv(c, s, t, b, []);
    }
  }

  // A successful recording on the real slot of a shared group leaves no member playing.
  lemma RecordStopsGroup(c: Config, s: State, b: nat)
    requires ValidConfig(c) && |s.playing| == SLOTS && b < SLOTS
    requires !c[b].isVirtual && SharedOutput(c[b].boardId) && c[b].groupCount > 1
    ensures !GroupPlays(c, AfterRecord(c, s, b, true), b)
  {
  }

  lemma SelectKeepsInv(c: Config, s: State, t: State, b: nat)
    requires ValidConfig(c) && Inv(c, s) && |t.playing| == SLOTS && b < SLOTS
    requires t.playing == s.playing[b := true]
    requires t.selections == s.selections + if SharedOutput(c[b].boardId) then [Select(c, b)] else []
    ensures Inv(c, t)
  {
    var added := if SharedOutput(c[b].boardId) then [Select(c, b)] else [];
    HandoverKeepsInv(c, s, t, OwnerOf(c, b), added);
  }

  // The graphical interface starts a slot only while it does not play.
  predicate Allowed(c: Config, s: State, a: Action) {
    InRange(c, s, a) && (a.Start? ==> !s.playing[a.b] && a.outcome != RecordFileFailed)
  }

  lemma StepKeepsInv(c: Config, s: State, a: Action)
    requires ValidConfig(c) && Inv(c, s) && Allowed(c, s, a)
    ensures Inv(c, Step(c, s, a))
  {
    match a
    case Start(b, outcome) =>
      if outcome == Started {
        SelectKeepsInv(c, s, Step(c, s, a), b);
      } else {
        assert s.playing[b := false] == s.playing;
      }
    case Stop(b) => StopKeepsInv(c, s, b);
    case Record(b, succeeds) => RecordKeepsInv(c, s, b, succeeds);
    case Focus(b) =>
      if s.playing[b] {
        assert s.playing[b := true] == s.playing;
        assert s.selections + [] == s.selections;
        SelectKeepsInv(c, s, Step(c, s, a), b);
      }
  }

  function Run(c: Config, s: State, actions: seq<Action>): State
    requires AllowedRun(c, s, actions)
    decreases |actions|
  {
    if actions == [] then s else Run(c, Step(c, s, actions[0]), actions[1..])
  }

  predicate AllowedRun(c: Config, s: State, actions: seq<Action>)
    decreases |actions|
  {
    actions == [] || (Allowed(c, s, actions[0]) && AllowedRun(c, Step(c, s, actions[0]), actions[1..]))
  }

  const INITIAL := State(seq(SLOTS, _ => false), [])

  // Over every run of starts, stops, recordings and changes of the board in front.
  lemma {:induction false} RunKeepsInv(c: Config, s: State, actions: seq<Action>)
    requires ValidConfig(c) && Inv(c, s) && AllowedRun(c, s, actions)
    ensures Inv(c, Run(c, s, actions))
    decreases |actions|
  {
    if actions == [] {
    } else {
      StepKeepsInv(c, s, actions[0]);
      RunKeepsInv(c, Step(c, s, actions[0]), actions[1..]);
    }
  }

  lemma EveryRunIsSafe(c: Config, actions: seq<Action>, o: nat)
    requires ValidConfig(c) && AllowedRun(c, INITIAL, actions)
    requires o < SLOTS && !c[o].isVirtual && SharedOutput(c[o].boardId)
    ensures var s := Run(c, INITIAL, actions);
      |s.playing| == SLOTS && (GroupPlays(c, s, o) ==> OutputPlays(c, s, o))
  {
    RunKeepsInv(c, INITIAL, actions);
    assert GroupOk(c, Run(c, INITIAL, actions), o);
  }

  // A record file that cannot be created leaves its slot marked as playing without selecting
  // it. That is harmless exactly when another member plays, or the slot was selected last.
  lemma RecordFileFailureBreaks(c: Config, s: State, b: nat)
    requires ValidConfig(c) && Inv(c, s) && b < SLOTS && !s.playing[b] && SharedOutput(c[b].boardId)
    ensures var o := OwnerOf(c, b); var last := LastOfGroup(c, s.selections, o);
      Inv(c, AfterStart(c, s, b, RecordFileFailed))
      <==> GroupPlays(c, s, o) || last == Latest(Select(c, b))
  {
    var t := AfterStart(c, s, b, RecordFileFailed);
    var home := OwnerOf(c, b);
    assert GroupOk(c, s, home);
    assert OwnerOf(c, b) == home && t.playing[b];
    assert GroupPlays(c, t, home);
    if GroupPlays(c, s, home) || LastOfGroup(c, s.selections, home) == Latest(Select(c, b)) {
      assert s.selections + [] == t.selections;
      HandoverKeepsInv(c, s, t, home, []);
    }
    assert Inv(c, t) ==> GroupOk(c, t, home);
  }

  // An ordinary machine: a TVB594 in slot 0 with one virtual slot, and 22 empty slots.
  const ORDINARY: Config :=
    [Slot(TVB594, false, -1, 2, 3, 0), Slot(TVB594, true, 0, -1, 0, 1)]
    + seq(SLOTS - 2, _ => EMPTY)

  lemma OrdinaryIsValid()
    ensures ValidConfig(ORDINARY) && Inv(ORDINARY, INITIAL)
  {
    forall i: nat | i < SLOTS
      ensures Bit(3, i) <==> i < 2
    {
      if i >= 2 {
        ZeroStaysZero(i - 2);
        assert Shifted(3, i) == Shifted(1, i - 1) == Shifted(0, i - 2);
      }
    }
  }

  lemma {:induction false} ZeroStaysZero(i: nat)
    ensures Shifted(0, i) == 0
  {
    if i == 0 {
    } else {
      ZeroStaysZero(i - 1);
    }
  }

  // The first recording attempt of that machine is an input that breaks the invariant.
  lemma RecordFileFailureBreaksOrdinary()
    ensures ValidConfig(ORDINARY) && Inv(ORDINARY, INITIAL)
    ensures !Inv(ORDINARY, AfterStart(ORDINARY, INITIAL, 0, RecordFileFailed))
  {
    OrdinaryIsValid();
    RecordFileFailureBreaks(ORDINARY, INITIAL, 0);
  }

  // Bringing that slot to the front repairs it.
  lemma FocusRepairs(c: Config, s: State, b: nat)
    requires ValidConfig(c) && Inv(c, s) && b < SLOTS && !s.playing[b]
    ensures Inv(c, AfterFocus(c, AfterStart(c, s, b, RecordFileFailed), b))
  {
    var t := AfterFocus(c, AfterStart(c, s, b, RecordFileFailed), b);
    assert s.selections + [] == s.selections;
    SelectKeepsInv(c, s, t, b);
  }

  lemma SameBoard(c: Config, owner: nat, i: nat)
    requires ValidConfig(c) && owner < SLOTS && i < SLOTS && SharesOutput(c, owner) && Bit(c[owner].groupMap, i)
    ensures c[i].boardId == c[owner].boardId
  {
  }

  lemma Regroup(front: seq<Selection>, next: Selection, rest: seq<Selection>)
    ensures front + ([next] + rest) == front + [next] + rest
  {
  }

  // The program's side: the flags it keeps for each slot, and the selections it makes.
  class Controller {
    const config: Config
    var playing: seq<bool>
    var paused: seq<bool>
    ghost var selections: seq<Selection>

    ghost predicate Valid()
      reads this
    {
      ValidConfig(config) && |playing| == SLOTS && |paused| == SLOTS
    }

    ghost function Current(): State
      reads this
    {
      State(playing, selections)
    }

    constructor (config: Config)
      requires ValidConfig(config)
      ensures Valid() && this.config == config && Current() == INITIAL
    {
      this.config := config;
      playing, paused := seq(SLOTS, _ => false), seq(SLOTS, _ => false);
      selections := [];
    }

    // TSPH__SEL_TS_of_ASI310OUT
    method SelectOutput(slot: nat, value: int)
      requires Valid()
      modifies `selections
      ensures selections == old(selections) + [Selection(slot, value)]
    {
      selections := selections + [Selection(slot, value)];
    }

    // Start_Playing; the outcome stands for the files, the combiner and the stream library.
    method StartPlaying(b: nat, outcome: StartOutcome)
      requires Valid() && b < SLOTS
      modifies this
      ensures Valid() && Current() == AfterStart(config, old(Current()), b, outcome)
      ensures paused == old(paused)
      ensures playing ==
        if outcome == Refused then old(playing)
        else old(playing)[b := outcome == Started || outcome == RecordFileFailed]
      ensures selections == old(selections)
        + if outcome == Started && config[b].boardId in {0x50, 0xF, 0x16, 16} then [Select(config, b)] else []
    {
      if outcome == Refused {
        return;
      }
      playing := playing[b := true];
      if outcome == CombinerInvalid {
        playing := playing[b := false];
        return;
      }
      if outcome == RecordFileFailed {
        return;
      }
      if outcome == LibraryFailed {
        playing := playing[b := false];
      } else {
        if SharedOutput(config[b].boardId) && playing[b] {
          SelectOutput(b, StreamValue(config[b].boardId, config[b].stream));
        }
      }
    }

    // Stop_Playing
    method StopPlaying(b: nat)
      requires Valid() && b < SLOTS
      modifies this
      ensures Valid() && Current() == AfterStop(config, old(Current()), b)
      ensures paused == if old(playing)[b] then old(paused)[b := false] else old(paused)
      ensures playing == old(playing)[b := false]
      ensures !old(playing)[b] ==> selections == old(selections)
      ensures old(playing)[b] ==>
        var o := if config[b].isVirtual then config[b].owner else b;
        && old(selections) <= selections
        && var added := selections[|old(selections)|..];
        && (config[b].boardId !in {0x50, 0xF, 0x16, 16} ==> added == [])
        && (config[b].boardId in {0x50, 0xF, 0x16, 16} && config[b].isVirtual && playing[o] ==>
              added == [Select(config, o)])
        && (config[b].boardId in {0x50, 0xF, 0x16, 16} && !(config[b].isVirtual && playing[o]) ==>
              && (forall m <- added ::
                    m.slot < SLOTS && OwnerOf(config, m.slot) == o && playing[m.slot] && m == Select(config, m.slot))
              && (forall x, y :: 0 <= x < y < |added| ==> added[x].slot < added[y].slot)
              && (config[b].isVirtual ==>
                    forall i: nat :: i < SLOTS && OwnerOf(config, i) == o && playing[i] ==> Select(config, i) in added)
              && (!config[b].isVirtual ==> |added| <= 1)
              && (!config[b].isVirtual ==>
                    forall i: nat :: i < SLOTS && OwnerOf(config, i) == o && playing[i] ==>
                      added != [] && added[0].slot <= i))
    {
      if playing[b] {
        StopHandsOver(config, playing[b := false], b);
        paused := paused[b := false];
        playing := playing[b := false];
        if SharedOutput(config[b].boardId) {
          if config[b].isVirtual {
            var owner := config[b].owner;
            if playing[owner] {
              SelectOutput(owner, StreamValue(config[b].boardId, config[owner].stream));
            } else if config[owner].groupCount > 1 {
              SelectAllPlaying(owner, b);
            }
          } else if config[b].groupCount > 1 {
            SelectFirstPlaying(b);
          }
        }
      }
    }

    // The loop for a virtual slot: every playing member of the owner's map is selected in turn.
    method SelectAllPlaying(owner: nat, b: nat)
      requires Valid() && owner < SLOTS && b < SLOTS && !playing[b]
      requires SharesOutput(config, owner) && config[b].boardId == config[owner].boardId
      modifies `selections
      ensures selections == old(selections) + PlayingMembers(config, config[owner].groupMap, playing, 0)
    {
      ghost var all := selections + PlayingMembers(config, config[owner].groupMap, playing, 0);
      for i := 0 to SLOTS
        invariant selections + PlayingMembers(config, config[owner].groupMap, playing, i) == all
      {
        if Bit(config[owner].groupMap, i) {
          if playing[i] && i != b {
            SameBoard(config, owner, i);
            Regroup(selections, Select(config, i), PlayingMembers(config, config[owner].groupMap, playing, i + 1));
            SelectOutput(i, StreamValue(config[b].boardId, config[i].stream));
          }
        }
      }
    }

    // The loop for a real slot: it ends at the first playing member.
    method SelectFirstPlaying(b: nat)
      requires Valid() && b < SLOTS && SharesOutput(config, b)
      modifies `selections
      ensures var members := PlayingMembers(config, config[b].groupMap, playing, 0);
        selections == old(selections) + if members == [] then [] else [members[0]]
    {
      for i := 0 to SLOTS
        invariant selections == old(selections)
        invariant PlayingMembers(config, config[b].groupMap, playing, i)
               == PlayingMembers(config, config[b].groupMap, playing, 0)
      {
        if Bit(config[b].groupMap, i) {
          if playing[i] {
            SameBoard(config, b, i);
            SelectOutput(i, StreamValue(config[b].boardId, config[i].stream));
            break;
          }
        }
      }
    }

    // Start_Recording, once the library has answered
    method StartRecording(b: nat, succeeds: bool)
      requires Valid() && b < SLOTS
      modifies this
      ensures Valid() && Current() == AfterRecord(config, old(Current()), b, succeeds)
      ensures selections == old(selections)
      ensures forall i: nat :: i < SLOTS ==>
        var stops := succeeds && config[b].boardId in {0x50, 0xF, 0x16, 16} && !config[b].isVirtual
                     && config[b].groupCount > 1 && OwnerOf(config, i) == b && old(playing)[i];
        playing[i] == (old(playing)[i] && !stops) && paused[i] == (old(paused)[i] && !stops)
    {
      if succeeds && SharedOutput(config[b].boardId) {
        if config[b].groupCount > 1 {
          for i := 0 to SLOTS
            invariant |playing| == |paused| == SLOTS && selections == old(selections)
            invariant forall k :: 0 <= k < i ==> playing[k] == (old(playing)[k] && !Bit(config[b].groupMap, k))
            invariant forall k :: i <= k < SLOTS ==> playing[k] == old(playing)[k]
            invariant forall k :: 0 <= k < SLOTS ==>
              paused[k] == (old(paused)[k] && (playing[k] || !old(playing)[k]))
          {
            if Bit(config[b].groupMap, i) {
              if playing[i] {
                paused := paused[i := false];
                playing := playing[i := false];
              }
            }
          }
        }
      }
    }

    // The selection made when a board is brought to the front
    method BringToFront(b: nat)
      requires Valid() && b < SLOTS
      modifies `selections
      ensures Valid() && Current() == AfterFocus(config, old(Current()), b)
      ensures selections == old(selections)
        + if playing[b] && config[b].boardId in {0x50, 0xF, 0x16, 16} then [Select(config, b)] else []
    {
      if SharedOutput(config[b].boardId) && playing[b] {
        SelectOutput(b, StreamValue(config[b].boardId, config[b].stream));
      }
    }
  }
}
