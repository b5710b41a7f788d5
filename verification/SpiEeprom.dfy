/** The serial EEPROM behind the PEX8111 bridge, as a state machine over chip-select periods:
    opcodes, page programming, write enable latch and write-in-progress flag. */
module SpiEeprom {
  import opened CArithmetic

  const WRITE := 2
  const READ := 3
  const READ_STATUS := 5
  const WRITE_ENABLE := 6

  // width is the address width field of the controller: 1, 2 or 3 bytes, and 0 when the
  // controller has not determined it, which both sides treat as 2.
  datatype Geometry = Geometry(size: nat, page: nat, width: nat) {
    predicate Valid() {
      page >= 2 && size > 0 && size % page == 0 && width <= 3
    }

    function AddressBytes(): nat {
      if width == 0 then 2 else width
    }
  }

  // Between chip-select periods there is no frame. wip counts the status reads that still
  // report a write in progress; sent counts the bytes shifted out in the frame.
  datatype Frame = Idle | Selected(bytes: seq<Byte>)
  datatype Chip = Chip(mem: seq<Byte>, wel: bool, wip: nat, frame: Frame, sent: nat)

  predicate ValidChip(g: Geometry, c: Chip) {
    g.Valid() && |c.mem| == g.size
  }

  function BigEndian(bytes: seq<Byte>): nat {
    if bytes == [] then 0 else BigEndian(bytes[..|bytes| - 1]) * 256 + bytes[|bytes| - 1]
  }

  function Address(g: Geometry, frame: seq<Byte>): (a: nat)
    requires g.Valid() && |frame| >= 1 + g.AddressBytes()
    ensures a < g.size
  {
    BigEndian(frame[1..1 + g.AddressBytes()]) % g.size
  }

  // Programming wraps around within the page of the start address.
  function PageAddress(g: Geometry, a: nat, k: nat): (b: nat)
    requires g.Valid() && a < g.size
    ensures b < g.size
  {
    PageInside(g, a);
    var start, inPage := a - a % g.page, (a % g.page + k) % g.page;
    start + inPage
  }

  lemma PageInside(g: Geometry, a: nat)
    requires g.Valid() && a < g.size
    ensures 0 <= a - a % g.page <= g.size - g.page
  {
    var q, n := a / g.page, g.size / g.page;
    DivModIdentity(a, g.page);
    DivModIdentity(g.size, g.page);
    var k := n - q;
    assert g.page * k == g.page * n - g.page * q == g.size - (a - a % g.page) > 0;
    Multiples(g.page, k);
    assert k != 0;
  }

  function Programmed(g: Geometry, mem: seq<Byte>, a: nat, data: seq<Byte>): (mem': seq<Byte>)
    requires g.Valid() && |mem| == g.size && a < g.size
    ensures |mem'| == |mem|
  {
    if data == [] then mem
    else
      var n := |data| - 1;
      Programmed(g, mem, a, data[..n])[PageAddress(g, a, n) := data[n]]
  }

  // Reading continues past the page and rolls over at the end of the memory.
  function ReadAt(g: Geometry, mem: seq<Byte>, a: nat, k: nat): Byte
    requires g.Valid() && |mem| == g.size
  {
    mem[(a + k) % g.size]
  }

  // One byte shifted in, which asserts chip select if it was not asserted
  function ShiftIn(c: Chip, b: Byte): Chip {
    if c.frame.Idle? then c.(frame := Selected([b]), sent := 0) else c.(frame := Selected(c.frame.bytes + [b]))
  }

  function Status(c: Chip): Byte {
    (if c.wip > 0 then 1 else 0) + (if c.wel then 2 else 0)
  }

  // One byte shifted out: status, memory, or an undriven line
  function ShiftOut(g: Geometry, c: Chip): (r: (Byte, Chip))
    requires ValidChip(g, c)
    ensures ValidChip(g, r.1)
  {
    if c.frame.Idle? || c.frame.bytes == [] then (0xFF, c.(frame := Selected([]), sent := 0))
    else
      var f := c.frame.bytes;
      if f[0] == READ_STATUS then
        (Status(c), c.(wip := if c.wip > 0 then c.wip - 1 else 0, sent := c.sent + 1))
      else if f[0] == READ && |f| == 1 + g.AddressBytes() && c.wip == 0 then
        (ReadAt(g, c.mem, Address(g, f), c.sent), c.(sent := c.sent + 1))
      else (0xFF, c.(sent := c.sent + 1))
  }

  // The end of a chip-select period executes what the frame asked for. A chip that is still
  // writing executes nothing. programTime is how many status reads the next write stays busy.
  function Deselect(g: Geometry, c: Chip, programTime: nat): (c': Chip)
    requires ValidChip(g, c)
    ensures ValidChip(g, c')
  {
    if c.frame.Idle? then c
    else
      var f := c.frame.bytes;
      var idle := c.(frame := Idle, sent := 0);
      if c.wip > 0 || f == [] then idle
      else if f == [WRITE_ENABLE] then idle.(wel := true)
      else if f[0] == WRITE && c.wel && |f| > 1 + g.AddressBytes() then
        idle.(mem := Programmed(g, c.mem, Address(g, f), f[1 + g.AddressBytes()..]), wel := false, wip := programTime)
      else idle
  }
}
