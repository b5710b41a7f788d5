/** The EEPROM driver of tvb380v4.c over the indexed register window of a PEX8111 bridge. */
module PexEeprom {
  import opened CArithmetic
  import opened SpiEeprom

  type Dword = w: int | 0 <= w < 0x1_0000_0000

  const MAIN_CNTL_REG_INDEX := 0x84
  const MAIN_CNTL_REG_DATA := 0x88
  const EECTL := 0x1004
  const BUSY_POLLS := 100000
  const STATUS_POLLS := 200

  // Control register: write data 7:0, read data 15:8, chip select 18, busy 19, width 24:23
  function ControlWord(writeData: Byte, readData: Byte, selected: bool, busy: bool, width: nat): (w: Dword)
    requires width <= 3
    ensures w / 0x80_0000 % 4 == width
    ensures w / 0x8_0000 % 2 == 1 <==> busy
    ensures w / 0x100 % 0x100 == readData
  {
    var flags := (if selected then 1 else 0) + (if busy then 2 else 0);
    var high := 0x4 * flags + 0x80 * width;
    var w := writeData + 0x100 * readData + 0x1_0000 * high;
    DivModUnique(w, 0x100, readData + 0x100 * high, writeData);
    DivModUnique(w, 0x8_0000, flags / 2 + 0x10 * width, writeData + 0x100 * readData + 0x4_0000 * (flags % 2));
    DivModUnique(w, 0x80_0000, width, writeData + 0x100 * readData + 0x4_0000 * flags);
    w
  }

  // The bridge as its configuration space shows it. The index register selects an internal
  // register; 4 is the EEPROM control register. Each byte transfer keeps the controller busy
  // for some reads of that register, at most busyLimit.
  class Pex8111 {
    const geometry: Geometry
    const busyLimit: nat
    const programLimit: nat
    var index: Dword
    var chip: Chip
    var busy: nat
    var readData: Byte
    var writeData: Byte
    ghost var frames: seq<seq<Byte>>  // the bytes shifted in during each finished chip-select period

    ghost predicate Valid()
      reads this
    {
      ValidChip(geometry, chip) && busy <= busyLimit && chip.wip <= programLimit
    }

    // Busy times that the polling loop of the driver can outwait
    predicate Responsive() {
      busyLimit < BUSY_POLLS - 1
    }

    // A responsive device between two chip-select periods
    predicate Ready()
      reads this
    {
      Responsive() && chip.frame.Idle?
    }

    constructor (g: Geometry, mem: seq<Byte>, busyLimit: nat, programLimit: nat)
      requires g.Valid() && |mem| == g.size
      ensures Valid() && geometry == g && this.busyLimit == busyLimit && this.programLimit == programLimit
      ensures chip == Chip(mem, false, 0, Idle, 0) && busy == 0 && frames == []
    {
      geometry, this.busyLimit, this.programLimit := g, busyLimit, programLimit;
      index, chip, busy, readData, writeData := 0, Chip(mem, false, 0, Idle, 0), 0, 0, 0;
      frames := [];
    }

    function Control(): (w: Dword)
      requires geometry.width <= 3
      reads this
    {
      ControlWord(writeData, readData, chip.frame.Selected?, busy > 0, geometry.width)
    }

    method ReadConfig(reg: int) returns (value: Dword)
      requires Valid()
      modifies `busy
      ensures Valid()
      ensures reg == MAIN_CNTL_REG_INDEX ==> value == index && busy == old(busy)
      ensures reg == MAIN_CNTL_REG_DATA && index == 4 ==>
        value == old(Control()) && busy == if old(busy) > 0 then old(busy) - 1 else 0
    {
      if reg == MAIN_CNTL_REG_INDEX {
        value := index;
      } else if reg == MAIN_CNTL_REG_DATA && index == 4 {
        value := Control();
        if busy > 0 {
          busy := busy - 1;
        }
      } else {
        value := *;
      }
    }

    method Disturb()
      requires Valid()
      modifies this
      ensures Valid() && index == old(index)
    {
      var after: Chip :| ValidChip(geometry, after) && after.wip <= programLimit;
      var polls: nat :| polls <= busyLimit;
      chip, busy := after, polls;
      readData, writeData, frames := *, *, *;
    }

    method WriteConfig(reg: int, value: Dword)
      requires Valid()
      modifies this
      ensures Valid()
      ensures reg == MAIN_CNTL_REG_INDEX ==>
        index == value && chip == old(chip) && busy == old(busy) && frames == old(frames)
        && readData == old(readData) && writeData == old(writeData)
      ensures reg == MAIN_CNTL_REG_DATA ==> index == old(index)
      ensures reg == MAIN_CNTL_REG_DATA && index == 4 && old(busy) == 0 ==>
        Effect(value, old(chip), old(frames), chip, frames, readData)
        && (value / 0x4_0000 % 2 == 0 ==> busy == 0)
    {
      if reg == MAIN_CNTL_REG_INDEX {
        index := value;
      } else if reg == MAIN_CNTL_REG_DATA && index == 4 {
        WriteControl(value);
      }
    }

    // What a command word does: bit 18 is chip select, bit 16 shifts a byte in, bit 17 out.
    ghost predicate Effect(value: Dword, before: Chip, framesBefore: seq<seq<Byte>>,
                           after: Chip, framesAfter: seq<seq<Byte>>, out: Byte)
      requires ValidChip(geometry, before)
    {
      if value / 0x4_0000 % 2 == 0 then
        && (exists time: nat :: time <= programLimit && after == Deselect(geometry, before, time))
        && framesAfter == framesBefore + if before.frame.Selected? then [before.frame.bytes] else []
      else if value / 0x1_0000 % 2 == 1 then
        after == ShiftIn(before, value % 0x100) && framesAfter == framesBefore
      else if value / 0x2_0000 % 2 == 1 then
        (out, after) == ShiftOut(geometry, before) && framesAfter == framesBefore
      else after == before && framesAfter == framesBefore
    }

    // A command that comes while the controller is busy may do anything to the chip.
    method WriteControl(value: Dword)
      requires Valid()
      modifies this
      ensures Valid() && index == old(index)
      ensures old(busy) == 0 ==>
        Effect(value, old(chip), old(frames), chip, frames, readData)
        && (value / 0x4_0000 % 2 == 0 ==> busy == 0)
    {
      if busy > 0 {
        Disturb();
        return;
      }
      writeData := value % 0x100;
      if value / 0x4_0000 % 2 == 0 {
        var time: nat :| time <= programLimit;
        if chip.frame.Selected? {
          frames := frames + [chip.frame.bytes];
        }
        chip := Deselect(geometry, chip, time);
      } else if value / 0x1_0000 % 2 == 1 {
        chip := ShiftIn(chip, value % 0x100);
        var polls: nat :| polls <= busyLimit;
        busy := polls;
      } else if value / 0x2_0000 % 2 == 1 {
        var out := ShiftOut(geometry, chip);
        readData, chip := out.0, out.1;
        var polls: nat :| polls <= busyLimit;
        busy := polls;
      }
    }
  }

  // Plx8311_Register_read: the index register is saved and restored around the access.
  method RegisterRead(dev: Pex8111, offset: Dword) returns (value: Dword)
    requires dev.Valid()
    modifies dev
    ensures dev.Valid() && dev.index == old(dev.index)
    ensures dev.chip == old(dev.chip) && dev.frames == old(dev.frames) && dev.readData == old(dev.readData)
    ensures offset == EECTL ==>
      value == old(dev.Control()) && dev.busy == if old(dev.busy) > 0 then old(dev.busy) - 1 else 0
    ensures offset < 0x1000 || offset > 0x1064 ==> value == 0 && dev.busy == old(dev.busy)
  {
    if offset < 0x1000 || offset > 0x1064 {
      return 0;
    }
    var saved := dev.ReadConfig(MAIN_CNTL_REG_INDEX);
    dev.WriteConfig(MAIN_CNTL_REG_INDEX, offset - 0x1000);
    value := dev.ReadConfig(MAIN_CNTL_REG_DATA);
    dev.WriteConfig(MAIN_CNTL_REG_INDEX, saved);
  }

  // Plx8311_Register_write
  method RegisterWrite(dev: Pex8111, offset: Dword, data: Dword) returns (ok: bool)
    requires dev.Valid()
    modifies dev
    ensures dev.Valid() && dev.index == old(dev.index)
    ensures ok <==> 0x1000 <= offset <= 0x1064
    ensures offset == EECTL && old(dev.busy) == 0 ==>
      dev.Effect(data, old(dev.chip), old(dev.frames), dev.chip, dev.frames, dev.readData)
      && (data / 0x4_0000 % 2 == 0 ==> dev.busy == 0)
  {
    if offset < 0x1000 || offset > 0x1064 {
      return false;
    }
    var saved := dev.ReadConfig(MAIN_CNTL_REG_INDEX);
    dev.WriteConfig(MAIN_CNTL_REG_INDEX, offset - 0x1000);
    dev.WriteConfig(MAIN_CNTL_REG_DATA, data);
    dev.WriteConfig(MAIN_CNTL_REG_INDEX, saved);
    ok := true;
  }

  // Nothing but the busy countdown has changed.
  twostate predicate OnlyPolled(dev: Pex8111)
    reads dev
  {
    && dev.index == old(dev.index) && dev.chip == old(dev.chip)
    && dev.frames == old(dev.frames) && dev.readData == old(dev.readData)
  }

  // Plx8311_Eeprom_CheckBusy: true exactly when the flag clears before the last poll. A flag
  // that clears on the last poll still counts as a timeout.
  method CheckBusy(dev: Pex8111) returns (ok: bool)
    requires dev.Valid()
    modifies dev
    ensures dev.Valid() && OnlyPolled(dev)
    ensures ok <==> old(dev.busy) < 99999
    ensures ok ==> dev.busy == 0
  {
    var timeout := BUSY_POLLS;
    var value := RegisterRead(dev, EECTL);
    timeout := timeout - 1;
    while timeout != 0 && value / 0x8_0000 % 2 == 1
      invariant 0 <= timeout <= BUSY_POLLS - 1
      invariant dev.Valid() && OnlyPolled(dev)
      invariant value / 0x8_0000 % 2 == 1 <==> old(dev.busy) >= BUSY_POLLS - timeout
      invariant timeout == 0 ==> old(dev.busy) >= BUSY_POLLS - 1
      invariant dev.busy == if old(dev.busy) > BUSY_POLLS - timeout then old(dev.busy) - (BUSY_POLLS - timeout) else 0
      decreases timeout
    {
      value := RegisterRead(dev, EECTL);
      timeout := timeout - 1;
    }
    ok := timeout != 0;
  }

  // Plx8311_EepromDataWrite: shift one byte in. It fails without touching the chip when the
  // busy flag does not clear before, and after the transfer when it does not clear then.
  method DataWrite(dev: Pex8111, data: Byte) returns (ok: bool)
    requires dev.Valid()
    modifies dev
    ensures dev.Valid() && dev.index == old(dev.index)
    ensures old(dev.busy) >= BUSY_POLLS - 1 ==> !ok && OnlyPolled(dev)
    ensures old(dev.busy) < BUSY_POLLS - 1 ==>
      dev.chip == ShiftIn(old(dev.chip), data) && dev.frames == old(dev.frames)
    ensures (ok ==> dev.busy == 0) && (dev.Responsive() ==> ok)
  {
    ok := CheckBusy(dev);
    if !ok {
      return false;
    }
    var command := 0x4_0000 + 0x1_0000 + data;
    var written := RegisterWrite(dev, EECTL, command);
    ok := CheckBusy(dev);
  }

  // Plx8311_EepromDataRead: shift one byte out. After a failure the data is arbitrary.
  method DataRead(dev: Pex8111) returns (ok: bool, data: Byte)
    requires dev.Valid()
    modifies dev
    ensures dev.Valid() && dev.index == old(dev.index)
    ensures old(dev.busy) >= BUSY_POLLS - 1 ==> !ok && OnlyPolled(dev)
    ensures old(dev.busy) < BUSY_POLLS - 1 ==>
      dev.chip == ShiftOut(dev.geometry, old(dev.chip)).1 && dev.frames == old(dev.frames)
    ensures ok ==> data == ShiftOut(dev.geometry, old(dev.chip)).0 && dev.busy == 0
    ensures dev.Responsive() ==> ok
  {
    data := *;
    ok := CheckBusy(dev);
    if !ok {
      return;
    }
    var command := 0x4_0000 + 0x2_0000;
    var written := RegisterWrite(dev, EECTL, command);
    ok := CheckBusy(dev);
    if ok {
      var value := RegisterRead(dev, EECTL);
      data := value / 0x100 % 0x100;
    }
  }

  // End the chip-select period.
  method Release(dev: Pex8111)
    requires dev.Valid()
    modifies dev
    ensures dev.Valid() && dev.index == old(dev.index)
    ensures old(dev.busy) == 0 ==>
      && dev.busy == 0
      && (exists time: nat :: time <= dev.programLimit && dev.chip == Deselect(dev.geometry, old(dev.chip), time))
      && dev.frames == old(dev.frames) + if old(dev.chip).frame.Selected? then [old(dev.chip).frame.bytes] else []
  {
    var written := RegisterWrite(dev, EECTL, 0);
  }

  // Status frames that the wait sends: one per poll
  function Polls(count: nat): (frames: seq<seq<Byte>>)
    ensures |frames| == count && forall f <- frames :: f == [5]
  {
    seq(count, _ => [READ_STATUS])
  }

  function PollsNeeded(wip: nat): nat {
    if wip < STATUS_POLLS then wip + 1 else STATUS_POLLS
  }

  // Plx8311_EepromWait: poll the status register, one chip-select period a poll, until no write
  // is in progress. The wait gives up when 200 polls find the chip writing.
  method EepromWait(dev: Pex8111) returns (ok: bool)
    requires dev.Valid()
    modifies dev
    ensures dev.Valid() && dev.index == old(dev.index)
    ensures old(dev.Ready()) ==>
      && (ok <==> old(dev.chip).wip < 200) && (ok ==> dev.chip.wip == 0)
      && dev.Ready() && dev.chip.mem == old(dev.chip).mem && dev.chip.wel == old(dev.chip).wel
      && dev.frames == old(dev.frames) + Polls(PollsNeeded(old(dev.chip).wip))
      && dev.busy == 0
  {
    var timeout := STATUS_POLLS;
    ghost var wip, ready := dev.chip.wip, dev.Ready();
    while true
      invariant 1 <= timeout <= STATUS_POLLS
      invariant dev.Valid() && dev.index == old(dev.index)
      invariant ready ==>
        && dev.Ready() && dev.chip.mem == old(dev.chip).mem && dev.chip.wel == old(dev.chip).wel
        && wip >= STATUS_POLLS - timeout && dev.chip.wip == wip - (STATUS_POLLS - timeout)
        && dev.frames == old(dev.frames) + Polls(STATUS_POLLS - timeout)
      decreases timeout
    {
      var status := PollOnce(dev, STATUS_POLLS - timeout, old(dev.frames));
      if status % 2 == 0 {
        return true;
      }
      timeout := timeout - 1;
      if timeout == 0 {
        break;
      }
    }
    ok := false;
  }

  // One poll: the status command and its answer in one chip-select period
  method PollOnce(dev: Pex8111, ghost done: nat, ghost first: seq<seq<Byte>>) returns (status: Byte)
    requires dev.Valid()
    modifies dev
    ensures dev.Valid() && dev.index == old(dev.index)
    ensures old(dev.Ready()) ==>
      && dev.Ready() && dev.chip.mem == old(dev.chip).mem && dev.chip.wel == old(dev.chip).wel
      && dev.chip.wip == (if old(dev.chip).wip > 0 then old(dev.chip).wip - 1 else 0)
      && (status % 2 == 0 <==> old(dev.chip).wip == 0)
      && (old(dev.frames) == first + Polls(done) ==> dev.frames == first + Polls(done + 1))
      && dev.busy == 0
  {
    var sent := DataWrite(dev, READ_STATUS);
    var read;
    read, status := DataRead(dev);
    Release(dev);
    assert Polls(done + 1) == Polls(done) + [[READ_STATUS]];
  }

  // The address bytes the driver sends: three-byte parts get a zero byte first, so no more
  // than the low 16 bits of the offset ever reach the chip.
  function AddressSent(g: Geometry, offset: Dword): (bytes: seq<Byte>)
    requires g.Valid()
    ensures |bytes| == g.AddressBytes()
  {
    var low, high := offset % 0x100, offset / 0x100 % 0x100;
    if g.width == 1 then [low] else if g.width == 3 then [0] + [high] + [low] else [high] + [low]
  }

  function Reached(g: Geometry, offset: Dword): (a: nat)
    requires g.Valid()
    ensures a < g.size
  {
    (if g.width == 1 then offset % 0x100 else offset % 0x1_0000) % g.size
  }

  lemma AddressReached(g: Geometry, opcode: Byte, offset: Dword, data: seq<Byte>)
    requires g.Valid()
    ensures Address(g, [opcode] + AddressSent(g, offset) + data) == Reached(g, offset)
    ensures ([opcode] + AddressSent(g, offset) + data)[1 + g.AddressBytes()..] == data
  {
    assert ([opcode] + AddressSent(g, offset) + data)[1..1 + g.AddressBytes()] == AddressSent(g, offset);
    AddressValue(g, offset);
  }

  lemma AddressValue(g: Geometry, offset: Dword)
    requires g.Valid()
    ensures BigEndian(AddressSent(g, offset)) == if g.width == 1 then offset % 0x100 else offset % 0x1_0000
  {
    var low, high := offset % 0x100, offset / 0x100 % 0x100;
    SplitLow(offset);
    AddressBytesValue(high, low);
  }

  lemma AddressBytesValue(high: Byte, low: Byte)
    ensures BigEndian([low]) == low
    ensures BigEndian([high] + [low]) == high * 256 + low
    ensures BigEndian([0] + [high] + [low]) == high * 256 + low
  {
    OneByte(low);
    OneByte(high);
    OneByte(0);
    AppendByte([high], low);
    AppendByte([0], high);
    AppendByte([0] + [high], low);
  }

  lemma AppendByte(bytes: seq<Byte>, b: Byte)
    ensures BigEndian(bytes + [b]) == BigEndian(bytes) * 256 + b
  {
  }

  lemma OneByte(b: Byte)
    ensures BigEndian([b]) == b
  {
  }

  // The address phase, which reads the address width from the control register.
  method SendAddress(dev: Pex8111, offset: Dword)
    requires dev.Valid()
    modifies dev
    ensures dev.Valid() && dev.index == old(dev.index)
    ensures dev.Responsive() && old(dev.chip).frame.Selected? ==>
      && dev.frames == old(dev.frames) && dev.busy == 0
      && dev.chip
         == old(dev.chip).(frame := Selected(old(dev.chip).frame.bytes + AddressSent(dev.geometry, offset)))
  {
    var width := RegisterRead(dev, EECTL);
    width := width / 0x80_0000 % 4;
    if width == 0 {
      width := 2;
    }
    ghost var before := if dev.chip.frame.Selected? then dev.chip.frame.bytes else [];
    ghost var selected := dev.Responsive() && dev.chip.frame.Selected?;
    var sent;
    if width == 3 {
      sent := DataWrite(dev, 0);
    }
    if width == 2 || width == 3 {
      sent := DataWrite(dev, offset / 0x100 % 0x100);
    }
    sent := DataWrite(dev, offset % 0x100);
    assert selected ==> dev.chip.frame.bytes == before + AddressSent(dev.geometry, offset);
  }

  // PlxEepromRead
  method EepromRead(dev: Pex8111, offset: Dword) returns (ok: bool, value: Dword)
    requires dev.Valid()
    modifies dev
    ensures dev.Valid() && dev.index == old(dev.index)
    ensures !ok ==> value == 0
    ensures old(dev.Ready()) ==>
      && dev.Ready() && (ok <==> old(dev.chip).wip < 200)
      && dev.chip.mem == old(dev.chip).mem && dev.chip.wel == old(dev.chip).wel
      && (ok ==> dev.chip.wip == 0 && value == ReadBack(dev.geometry, dev.chip.mem, Reached(dev.geometry, offset)))
      && dev.frames == old(dev.frames) + Polls(PollsNeeded(old(dev.chip).wip))
                       + if ok then [[3] + AddressSent(dev.geometry, offset)] else []
  {
    value := 0;
    ghost var ready := dev.Ready();
    ok := EepromWait(dev);
    if !ok {
      return;
    }
    var sent := DataWrite(dev, READ);
    SendAddress(dev, offset);
    AddressReached(dev.geometry, READ, offset, []);
    assert ready ==> dev.chip.frame.bytes == [READ] + AddressSent(dev.geometry, offset) + [];
    var read, low := DataRead(dev);
    value := low;
    var high: Byte;
    read, high := DataRead(dev);
    value := value + high * 0x100;
    Release(dev);
  }

  // The two bytes at an address, low byte first
  function ReadBack(g: Geometry, mem: seq<Byte>, a: nat): Dword
    requires g.Valid() && |mem| == g.size
  {
    ReadAt(g, mem, a, 0) + 0x100 * ReadAt(g, mem, a, 1)
  }

  // PlxEepromWrite
  method EepromWrite(dev: Pex8111, offset: Dword, val: Dword) returns (ok: bool)
    requires dev.Valid()
    modifies dev
    ensures dev.Valid() && dev.index == old(dev.index)
    ensures old(dev.Ready()) ==>
      && dev.Ready() && (ok <==> old(dev.chip).wip < 200)
      && (ok ==> dev.chip.mem == Written(dev.geometry, old(dev.chip).mem, Reached(dev.geometry, offset), val))
      && (ok ==> !dev.chip.wel)
      && (!ok ==> dev.chip.mem == old(dev.chip).mem && dev.chip.wel == old(dev.chip).wel)
      && dev.frames == old(dev.frames) + Polls(PollsNeeded(old(dev.chip).wip))
                       + if ok then [[6], [2] + AddressSent(dev.geometry, offset) + TwoBytes(val)] else []
  {
    ghost var ready := dev.Ready();
    var value := val % 0x1_0000;
    ok := EepromWait(dev);
    if !ok {
      return;
    }
    ghost var frames := dev.frames;
    EnableWrite(dev);
    ProgramPair(dev, offset, value);
    SplitLow(val);
    assert ready ==>
      dev.frames == frames + [[WRITE_ENABLE], [WRITE] + AddressSent(dev.geometry, offset) + TwoBytes(val)];
  }

  lemma SplitLow(val: Dword)
    ensures TwoBytes(val % 0x1_0000) == TwoBytes(val)
    ensures val % 0x1_0000 == val % 0x100 + 0x100 * (val / 0x100 % 0x100)
  {
  }

  // The write enable command in its own chip-select period
  method EnableWrite(dev: Pex8111)
    requires dev.Valid()
    modifies dev
    ensures dev.Valid() && dev.index == old(dev.index)
    ensures old(dev.Ready()) && old(dev.chip).wip == 0 ==>
      && dev.busy == 0
      && dev.chip == old(dev.chip).(wel := true, frame := Idle, sent := 0)
      && dev.frames == old(dev.frames) + [[WRITE_ENABLE]]
  {
    var sent := DataWrite(dev, WRITE_ENABLE);
    Release(dev);
  }

  // The write command: opcode, address and the two bytes of value, low byte first
  method ProgramPair(dev: Pex8111, offset: Dword, value0: Dword)
    requires dev.Valid()
    modifies dev
    ensures dev.Valid() && dev.index == old(dev.index)
    ensures old(dev.Ready()) && old(dev.chip).wip == 0 && old(dev.chip).wel ==>
      && dev.Ready() && !dev.chip.wel
      && dev.chip.mem == Written(dev.geometry, old(dev.chip).mem, Reached(dev.geometry, offset), value0)
      && dev.frames == old(dev.frames) + [[WRITE] + AddressSent(dev.geometry, offset) + TwoBytes(value0)]
  {
    ghost var ready := dev.Ready();
    var value := value0;
    var sent := DataWrite(dev, WRITE);
    SendAddress(dev, offset);
    sent := DataWrite(dev, value % 0x100);
    value := value / 0x100;
    sent := DataWrite(dev, value % 0x100);
    AddressReached(dev.geometry, WRITE, offset, TwoBytes(value0));
    assert ready ==> dev.chip.frame.bytes == [WRITE] + AddressSent(dev.geometry, offset) + TwoBytes(value0);
    Release(dev);
  }

  function TwoBytes(val: Dword): seq<Byte> {
    [val % 0x100, val / 0x100 % 0x100]
  }

  function Written(g: Geometry, mem: seq<Byte>, a: nat, val: Dword): (mem': seq<Byte>)
    requires g.Valid() && |mem| == g.size && a < g.size
    ensures |mem'| == g.size
  {
    Programmed(g, mem, a, TwoBytes(val))
  }

  // Writing a pair and reading it back, on values: it works exactly when the pair does not
  // cross a page, or the page is the whole memory, or the byte past the page was right before.
  lemma WrittenReadsBack(g: Geometry, mem: seq<Byte>, a: nat, val: Dword)
    requires g.Valid() && |mem| == g.size && a < g.size
    ensures ReadBack(g, Written(g, mem, a, val), a) == val % 0x1_0000
      <==> a % g.page != g.page - 1 || g.page == g.size || mem[(a + 1) % g.size] == val / 0x100 % 0x100
  {
    BytesReadBack(g, mem, a, val);
    SplitLow(val);
    DivModUnique(a, g.size, 0, a);
  }

  lemma BytesReadBack(g: Geometry, mem: seq<Byte>, a: nat, val: Dword)
    requires g.Valid() && |mem| == g.size && a < g.size
    ensures Written(g, mem, a, val)[a] == val % 0x100
    ensures Written(g, mem, a, val)[(a + 1) % g.size]
      == if a % g.page != g.page - 1 || g.page == g.size then val / 0x100 % 0x100 else mem[(a + 1) % g.size]
  {
    PairAddresses(g, a);
    TwoProgrammed(g, mem, a, val);
  }

  lemma TwoProgrammed(g: Geometry, mem: seq<Byte>, a: nat, val: Dword)
    requires g.Valid() && |mem| == g.size && a < g.size
    ensures PageAddress(g, a, 0) == a
    ensures Written(g, mem, a, val) == mem[a := val % 0x100][PageAddress(g, a, 1) := val / 0x100 % 0x100]
  {
    PairAddresses(g, a);
    var data := TwoBytes(val);
    assert data[..1] == [data[0]] && data[..1][..0] == [];
    assert Programmed(g, mem, a, []) == mem;
    assert Programmed(g, mem, a, data[..1]) == mem[a := data[0]];
  }

  // Where the two bytes go, and where they are read
  lemma PairAddresses(g: Geometry, a: nat)
    requires g.Valid() && a < g.size
    ensures PageAddress(g, a, 0) == a
    ensures a % g.page != g.page - 1 ==> PageAddress(g, a, 1) == a + 1 == (a + 1) % g.size
    ensures a % g.page == g.page - 1 ==> PageAddress(g, a, 1) == a + 1 - g.page
    ensures a % g.page == g.page - 1 ==> (PageAddress(g, a, 1) == (a + 1) % g.size <==> g.page == g.size)
    ensures PageAddress(g, a, 1) != a && (a + 1) % g.size != a
  {
    PageInside(g, a);
    var r := a % g.page;
    DivModUnique(a, g.size, 0, a);
    DivModUnique(r, g.page, 0, r);
    NextInCircle(r, g.page);
    NextInCircle(a, g.size);
  }

  lemma NextInCircle(r: nat, n: nat)
    requires r < n
    ensures (r + 1) % n == if r == n - 1 then 0 else r + 1
  {
  }

  // Every other byte keeps its value.
  lemma OthersUnchanged(g: Geometry, mem: seq<Byte>, a: nat, val: Dword, k: nat)
    requires g.Valid() && |mem| == g.size && a < g.size && k < g.size
    requires k != a && k != PageAddress(g, a, 1)
    ensures Written(g, mem, a, val)[k] == mem[k]
  {
    TwoProgrammed(g, mem, a, val);
  }

  // An even offset never crosses a page of even size.
  lemma EvenOffsetStaysInPage(g: Geometry, offset: Dword)
    requires g.Valid() && g.page % 2 == 0 && offset % 2 == 0
    ensures Reached(g, offset) % g.page != g.page - 1
  {
    var n := if g.width == 1 then offset % 0x100 else offset % 0x1_0000;
    EvenRemainder(n, g.size, g.page);
  }

  lemma EvenRemainder(n: nat, size: nat, page: nat)
    requires page > 0 && size > 0 && size % page == 0 && page % 2 == 0 && n % 2 == 0
    ensures n % size % page % 2 == 0
  {
    EvenMultiple(page, size / page);
    assert size == page * (size / page) + size % page;
    EvenMod(n, size);
    EvenMod(n % size, page);
  }

  lemma EvenMultiple(m: nat, k: nat)
    requires m % 2 == 0
    ensures m * k % 2 == 0
  {
    assert m * k == 2 * (m / 2 * k);
  }

  lemma EvenMod(n: nat, m: nat)
    requires m > 0 && m % 2 == 0 && n % 2 == 0
    ensures n % m % 2 == 0
  {
    DivModIdentity(n, m);
    EvenRest(n, m, n / m, n % m);
  }

  lemma EvenRest(n: nat, m: nat, q: nat, r: nat)
    requires n == m * q + r && n % 2 == 0 && m % 2 == 0
    ensures r % 2 == 0
  {
    EvenMultiple(m, q);
  }

  // On a chip whose flags clear within the poll limits, a written pair reads back.
  method WriteThenRead(dev: Pex8111, offset: Dword, val: Dword) returns (value: Dword)
    requires dev.Valid() && dev.Ready()
    requires dev.programLimit < STATUS_POLLS
    requires Reached(dev.geometry, offset) % dev.geometry.page != dev.geometry.page - 1
    modifies dev
    ensures dev.Valid() && value == val % 0x1_0000
    ensures var a := Reached(dev.geometry, offset);
      forall k :: 0 <= k < dev.geometry.size && k != a && k != a + 1 ==> dev.chip.mem[k] == old(dev.chip).mem[k]
  {
    ghost var a := Reached(dev.geometry, offset);
    ghost var mem := dev.chip.mem;
    var ok := EepromWrite(dev, offset, val);
    PairAddresses(dev.geometry, a);
    TwoProgrammed(dev.geometry, mem, a, val);
    WrittenReadsBack(dev.geometry, mem, a, val);
    ok, value := EepromRead(dev, offset);
  }
}
