/** The system bus as its clients use it: single bytes, and words made of single bytes. */
module SystemBus {
  import opened Memory

  class Bus {
    var mem: Mem

    constructor (m: Mem)
      ensures mem == m
    {
      mem := m;
    }

    method ReadByte(a: int) returns (r: Option<byte>)
      ensures r == if CanRead(mem, a) then Some(mem.bytes[a]) else None
    {
      if CanRead(mem, a) { return Some(mem.bytes[a]); }
      return None;
    }

    method WriteByte(a: int, v: byte) returns (ok: bool)
      modifies this
      ensures ok == CanWrite(old(mem), a)
      ensures mem == if ok then Put(old(mem), a, v) else old(mem)
    {
      if CanWrite(mem, a) {
        mem := Put(mem, a, v);
        return true;
      }
      return false;
    }

    /** A block goes out byte by byte and stops where the bus refuses. */
    method WriteBytes(a: int, bs: seq<byte>) returns (ok: bool)
      modifies this
      ensures var r := WriteBlock(old(mem), a, bs); mem == r.mem && ok == r.ok
    {
      ok := true;
      var i := 0;
      while i < |bs| && ok
        invariant 0 <= i <= |bs| && Overlaid(old(mem), mem, a, bs, i)
        invariant forall x :: a <= x < a + i ==> CanWrite(old(mem), x)
        invariant !ok ==> i < |bs| && !CanWrite(old(mem), a + i)
        decreases |bs| - i, ok
      {
        ok := WriteByte(a + i, bs[i]);
        if ok { i := i + 1; }
      }
      WriteBlockIs(old(mem), mem, a, bs, i);
    }

    method ReadBytes(a: int, n: nat) returns (r: Option<seq<byte>>)
      ensures r == ReadBlock(mem, a, n)
    {
      var data: seq<byte> := [];
      var i := 0;
      while i < n
        invariant 0 <= i <= n && |data| == i
        invariant forall x :: a <= x < a + i ==> CanRead(mem, x) && data[x - a] == mem.bytes[x]
      {
        var b := ReadByte(a + i);
        if b.None? {
          ReadBlockSpec(mem, a, n);
          return None;
        }
        data := data + [b.value];
        i := i + 1;
      }
      ReadBlockSpec(mem, a, n);
      SameBlock(mem, a, data, ReadBlock(mem, a, n).value);
      return Some(data);
    }

    /** Word accesses must be aligned. */
    method ReadWord(a: u32) returns (r: Option<nat>)
      ensures r == if a % 4 == 0 then ReadLE(mem, a, 4) else None
    {
      if a % 4 != 0 { return None; }
      var block := ReadBytes(a, 4);
      if block.None? { return None; }
      return Some(FromLE(block.value));
    }

    method WriteWord(a: u32, v: u32) returns (ok: bool)
      modifies this
      ensures if a % 4 == 0 then var r := WriteLE(old(mem), a, 4, v); mem == r.mem && ok == r.ok
              else !ok && mem == old(mem)
    {
      if a % 4 != 0 { return false; }
      ok := WriteBytes(a, ToLE(v, 4));
    }

    /** Little-endian numbers as the DMA helpers move them: any alignment, byte by byte. */
    method ReadNumber(a: int, n: nat) returns (r: Option<nat>)
      ensures r == ReadLE(mem, a, n)
    {
      var block := ReadBytes(a, n);
      if block.None? { return None; }
      return Some(FromLE(block.value));
    }

    method WriteNumber(a: int, n: nat, v: nat) returns (ok: bool)
      modifies this
      ensures var r := WriteLE(old(mem), a, n, v); mem == r.mem && ok == r.ok
    {
      ok := WriteBytes(a, ToLE(v, n));
    }
  }
}
