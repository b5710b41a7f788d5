/** How the program learns the slot groups: what the library reports for each real board turns
    into the fields on which playing, stopping and recording rely. */
module BoardGroups {
  import opened CArithmetic
  import opened PlayControl

  // A real board: its type, whether it could be activated, and the slots of
  // TSPH_GetRealAndVirBdMap.
  datatype Board = Board(boardId: int, active: bool, slots: seq<nat>) {
    predicate Grouped() {
      active && SharedOutput(boardId)
    }
  }

  predicate Distinct(s: seq<nat>) {
    forall a, b :: 0 <= a < b < |s| ==> s[a] != s[b]
  }

  // Reports that make sense: a board lists itself and otherwise virtual slots, which come
  // behind the real ones, and no slot belongs to two boards.
  ghost predicate Reported(boards: seq<Board>) {
    && |boards| <= SLOTS
    && (forall k, s :: 0 <= k < |boards| && s in boards[k].slots ==> s == k || |boards| <= s < SLOTS)
    && (forall k :: 0 <= k < |boards| ==>
          Distinct(boards[k].slots) && (boards[k].slots != [] ==> k in boards[k].slots))
    && forall k, m, s :: 0 <= k < m < |boards| ==> !(s in boards[k].slots && s in boards[m].slots)
  }

  // Adding a power of two to a map sets a bit that was clear.
  lemma {:induction false} BitAdded(bitmap: nat, v: nat, i: nat)
    requires !Bit(bitmap, v)
    ensures Bit(bitmap + Pow2(v), i) <==> Bit(bitmap, i) || i == v
  {
    if v == 0 {
      assert i > 0 ==> Shifted(bitmap + 1, i) == Shifted(bitmap / 2, i - 1);
    } else {
      HalfOfSum(bitmap, Pow2(v - 1));
      if i == 0 {
      } else {
        BitAdded(bitmap / 2, v - 1, i - 1);
        assert Bit(bitmap, i) <==> Bit(bitmap / 2, i - 1);
      }
    }
  }

  lemma HalfOfSum(m: nat, p: nat)
    ensures (m + 2 * p) / 2 == m / 2 + p && (m + 2 * p) % 2 == m % 2
  {
  }

  // The slots of a group once the first n of its list are known.
  ghost predicate GroupEntered(before: seq<Slot>, after: seq<Slot>, i: nat, board: Board, n: nat, stream: nat -> int)
    requires |before| == |after| == SLOTS && i < SLOTS && n <= |board.slots|
  {
    var list := board.slots[..n];
    && (forall s :: 0 <= s < SLOTS && s != i ==>
          after[s] == if s in list then before[s].(owner := i, isVirtual := true, boardId := before[i].boardId,
                                                   stream := stream(s))
                      else before[s])
    && after[i].boardId == before[i].boardId && !after[i].isVirtual
    && after[i].groupCount == |board.slots| && after[i].groupMap >= 0
    && forall s: nat :: Bit(after[i].groupMap, s) <==> s in list
  }

  // The body of the loop over a group
  method EnterMember(c: seq<Slot>, ghost before: seq<Slot>, i: nat, board: Board, v: nat, stream: nat -> int)
    returns (after: seq<Slot>)
    requires |before| == |c| == SLOTS && i < SLOTS && v < |board.slots| && Distinct(board.slots)
    requires board.slots[v] < SLOTS && GroupEntered(before, c, i, board, v, stream)
    ensures |after| == SLOTS && GroupEntered(before, after, i, board, v + 1, stream)
  {
    after := c;
    var s := board.slots[v];
    if s == i {
      after := after[s := after[s].(isVirtual := false)];
    } else {
      after := after[s := after[s].(owner := i, isVirtual := true, boardId := after[i].boardId)];
    }
    after := after[i := after[i].(groupMap := after[i].groupMap + Pow2(s))];
    after := after[s := after[s].(stream := stream(s))];
    assert board.slots[..v + 1] == board.slots[..v] + [s];
    assert s !in board.slots[..v];
    forall k: nat
      ensures Bit(c[i].groupMap + Pow2(s), k) <==> Bit(c[i].groupMap, k) || k == s
    {
      BitAdded(c[i].groupMap, s, k);
    }
  }

  method EnterGroup(c: seq<Slot>, i: nat, board: Board, stream: nat -> int) returns (after: seq<Slot>)
    requires |c| == SLOTS && i < SLOTS && Distinct(board.slots) && forall s <- board.slots :: s < SLOTS
    requires !c[i].isVirtual && c[i].groupMap == 0
    ensures |after| == SLOTS && GroupEntered(c, after, i, board, |board.slots|, stream)
  {
    after := c[i := c[i].(groupCount := |board.slots|)];
    forall s: nat
      ensures !Bit(0, s)
    {
      ZeroStaysZero(s);
    }
    for v := 0 to |board.slots|
      invariant |after| == SLOTS && GroupEntered(c, after, i, board, v, stream)
    {
      assert board.slots[v] in board.slots;
      after := EnterMember(after, c, i, board, v, stream);
    }
  }

  // What is known once the first n real boards are entered.
  ghost predicate Entered(boards: seq<Board>, n: nat, c: seq<Slot>)
    requires n <= |boards| <= SLOTS
  {
    && |c| == SLOTS
    && (forall s :: 0 <= s < SLOTS && c[s].isVirtual ==>
          && 0 <= c[s].owner < n && boards[c[s].owner].Grouped() && s != c[s].owner
          && s in boards[c[s].owner].slots && c[s].boardId == boards[c[s].owner].boardId)
    && (forall k, s :: 0 <= k < n && boards[k].Grouped() && s in boards[k].slots && s != k && s < SLOTS ==>
          c[s].isVirtual && c[s].owner == k)
    && (forall k :: 0 <= k < n ==> !c[k].isVirtual && c[k].boardId == boards[k].boardId)
    && (forall k :: 0 <= k < n && boards[k].Grouped() ==>
          c[k].groupCount == |boards[k].slots| && MapIs(c[k].groupMap, boards[k].slots))
    && (forall s :: 0 <= s < SLOTS && !(s < n && boards[s].Grouped()) ==> c[s].groupCount == -1 && c[s].groupMap == 0)
    && forall s :: n <= s < |boards| ==> c[s] == EMPTY
  }

  ghost predicate MapIs(groupMap: int, list: seq<nat>) {
    forall s: nat :: Bit(groupMap, s) <==> s in list
  }

  lemma OneMoreBoard(boards: seq<Board>, n: nat, c: seq<Slot>, named: seq<Slot>, after: seq<Slot>, stream: nat -> int)
    requires Reported(boards) && n < |boards| && Entered(boards, n, c)
    requires named == c[n := c[n].(boardId := boards[n].boardId)] && |after| == SLOTS
    requires if boards[n].Grouped() then GroupEntered(named, after, n, boards[n], |boards[n].slots|, stream)
             else after == named
    ensures Entered(boards, n + 1, after)
  {
    if boards[n].Grouped() {
      var list := boards[n].slots;
      assert list[..|list|] == list;
      assert MapIs(after[n].groupMap, list);
      forall k | 0 <= k < n && boards[k].Grouped()
        ensures after[k] == c[k]
      {
        assert k !in list;
      }
    }
  }

  // The groups that the program enters are the ones that playing relies on.
  lemma EnteredIsValid(boards: seq<Board>, c: seq<Slot>)
    requires Reported(boards) && Entered(boards, |boards|, c)
    ensures ValidConfig(c)
  {
    forall o, i | 0 <= o < SLOTS && 0 <= i < SLOTS && OwnerOf(c, i) == o && i != o
      ensures c[o].groupCount > 1
    {
      TwoMembers(boards[o].slots, o, i);
    }
  }

  lemma TwoMembers(list: seq<nat>, a: nat, b: nat)
    requires a in list && b in list && a != b
    ensures |list| > 1
  {
    assert |list| == 1 ==> list == [a];
  }

  // The part of initialization that finds the boards and their groups.
  method FindBoards(boards: seq<Board>, stream: nat -> int) returns (c: Config)
    requires Reported(boards)
    ensures ValidConfig(c)
    ensures forall k, s {:trigger s in boards[k].slots} ::
      0 <= k < |boards| && boards[k].Grouped() && s in boards[k].slots ==> OwnerOf(c, s) == k
  {
    var slots := seq(SLOTS, _ => EMPTY);
    for i := 0 to |boards|
      invariant Entered(boards, i, slots)
    {
      ghost var before := slots;
      slots := slots[i := slots[i].(boardId := boards[i].boardId)];
      ghost var named := slots;
      if boards[i].active {
        if SharedOutput(boards[i].boardId) {
          slots := EnterGroup(slots, i, boards[i], stream);
        }
      }
      OneMoreBoard(boards, i, before, named, slots, stream);
    }
    EnteredIsValid(boards, slots);
    c := slots;
  }
}
