/** The memory every device of the simulator works on.

    `Bus::read_byte`/`write_byte` search a list of regions; what a caller can observe is a partial
    map from addresses to bytes, some of which (ROM regions) refuse to be written.  Everything else
    here (blocks, little-endian words) is built from single bytes exactly as the source builds it,
    so an access can fail half way and leave its first bytes written.
 */
module Memory {
  type byte = x: int | 0 <= x < 0x100
  type u16 = x: int | 0 <= x < 0x1_0000
  type u32 = x: int | 0 <= x < 0x1_0000_0000
  type u64 = x: int | 0 <= x < 0x1_0000_0000_0000_0000

  datatype Option<+T> = None | Some(value: T)

  /** `bytes` holds the mapped bytes, `writable` the addresses whose region accepts stores. */
  datatype Mem = Mem(bytes: map<int, byte>, writable: set<int>)

  predicate CanRead(m: Mem, a: int) {
    0 <= a < 0x1_0000_0000 && a in m.bytes
  }

  predicate CanWrite(m: Mem, a: int) {
    CanRead(m, a) && a in m.writable
  }

  function Put(m: Mem, a: int, v: byte): Mem {
    m.(bytes := m.bytes[a := v])
  }

  /** Two memories with the same regions, whatever their contents. */
  ghost predicate SameRegions(m: Mem, m': Mem) {
    m.bytes.Keys == m'.bytes.Keys && m.writable == m'.writable
  }

  /** The two memories hold the same bytes in [a, a + n). */
  ghost predicate AgreeOn(m: Mem, m': Mem, a: int, n: nat) {
    forall x :: a <= x < a + n && x in m.bytes ==> x in m'.bytes && m.bytes[x] == m'.bytes[x]
  }

  /** [a, a + n) and [b, b + k) share no byte. */
  predicate Apart(a: int, n: nat, b: int, k: nat) { a + n <= b || b + k <= a }

  ghost predicate Readable(m: Mem, a: int, n: nat) { forall x :: a <= x < a + n ==> CanRead(m, x) }

  ghost predicate Writable(m: Mem, a: int, n: nat) { forall x :: a <= x < a + n ==> CanWrite(m, x) }

  /** Outside [a, a + n) the memories hold the same. */
  ghost predicate SameOutside(m: Mem, m': Mem, a: int, n: nat) {
    SameRegions(m, m') && forall x :: x in m.bytes && !(a <= x < a + n) ==> m'.bytes[x] == m.bytes[x]
  }

  // ---- Blocks of bytes ----

  function ReadBlock(m: Mem, a: int, n: nat): (r: Option<seq<byte>>)
    ensures r.Some? ==> |r.value| == n
    decreases m, n
  {
    if n == 0 then Some([])
    else if !CanRead(m, a) then None
    else match ReadBlock(m, a + 1, n - 1)
      case None => None
      case Some(rest) => Some([m.bytes[a]] + rest)
  }

  /** A block can be read exactly when all its bytes can, and is made of them. */
  lemma {:induction false} ReadBlockSpec(m: Mem, a: int, n: nat)
    ensures ReadBlock(m, a, n).Some? <==> forall x :: a <= x < a + n ==> CanRead(m, x)
    ensures ReadBlock(m, a, n).Some? ==>
      forall x :: a <= x < a + n ==> CanRead(m, x) && ReadBlock(m, a, n).value[x - a] == m.bytes[x]
    decreases n
  {
    if n > 0 && CanRead(m, a) { ReadBlockSpec(m, a + 1, n - 1); }
  }

  /** `count` bytes of a block store were accepted; `ok` when that was all of them. */
  datatype Stored = Stored(mem: Mem, ok: bool, count: nat)

  /** `m'` is `m` with exactly the first `k` bytes of `bs` laid over it from `a` on. */
  ghost predicate Overlaid(m: Mem, m': Mem, a: int, bs: seq<byte>, k: nat)
    requires k <= |bs|
  {
    SameRegions(m, m') &&
    forall x :: x in m.bytes ==> m'.bytes[x] == if a <= x < a + k then bs[x - a] else m.bytes[x]
  }

  /** Bytes go out one by one; the first refusal stops the transfer and keeps what was written. */
  function WriteBlock(m: Mem, a: int, bs: seq<byte>): (r: Stored)
    ensures r.count <= |bs| && (r.ok <==> r.count == |bs|) && SameRegions(m, r.mem)
    decreases |bs|
  {
    if bs == [] then Stored(m, true, 0)
    else if !CanWrite(m, a) then Stored(m, false, 0)
    else
      var next := Put(m, a, bs[0]);
      var r := WriteBlock(next, a + 1, bs[1..]);
      Stored(r.mem, r.ok, r.count + 1)
  }

  /** The accepted bytes, and only they, have been laid over memory. */
  lemma WriteBlockSpec(m: Mem, a: int, bs: seq<byte>)
    ensures var r := WriteBlock(m, a, bs);
      Overlaid(m, r.mem, a, bs, r.count) &&
      (forall x :: a <= x < a + r.count ==> CanWrite(m, x)) && (!r.ok ==> !CanWrite(m, a + r.count))
    ensures WriteBlock(m, a, bs).ok <==> forall x :: a <= x < a + |bs| ==> CanWrite(m, x)
  {
    AcceptedBytes(m, a, bs);
    RefusedByte(m, a, bs);
  }

  lemma {:induction false} AcceptedBytes(m: Mem, a: int, bs: seq<byte>)
    ensures var r := WriteBlock(m, a, bs); Overlaid(m, r.mem, a, bs, r.count)
    decreases |bs|
  {
    if bs != [] && CanWrite(m, a) {
      AcceptedBytes(Put(m, a, bs[0]), a + 1, bs[1..]);
    }
  }

  lemma {:induction false} RefusedByte(m: Mem, a: int, bs: seq<byte>)
    ensures var r := WriteBlock(m, a, bs);
      (forall x :: a <= x < a + r.count ==> CanWrite(m, x)) && (!r.ok ==> !CanWrite(m, a + r.count))
    decreases |bs|
  {
    if bs != [] && CanWrite(m, a) {
      var next := Put(m, a, bs[0]);
      assert forall x :: CanWrite(next, x) <==> CanWrite(m, x);
      RefusedByte(next, a + 1, bs[1..]);
    }
  }

  /** Only one memory and one count can be the outcome of a block store. */
  lemma WriteBlockIs(m: Mem, m': Mem, a: int, bs: seq<byte>, k: nat)
    requires k <= |bs| && Overlaid(m, m', a, bs, k)
    requires forall x :: a <= x < a + k ==> CanWrite(m, x)
    requires k < |bs| ==> !CanWrite(m, a + k)
    ensures WriteBlock(m, a, bs) == Stored(m', k == |bs|, k)
  {
    var r := WriteBlock(m, a, bs);
    WriteBlockSpec(m, a, bs);
    assert r.count < k ==> CanWrite(m, a + r.count);
    assert k < r.count ==> CanWrite(m, a + k);
    forall x | x in m.bytes
      ensures r.mem.bytes[x] == m'.bytes[x]
    {
    }
    assert r.mem.bytes == m'.bytes;
  }

  /** A block is determined by what memory holds at its addresses. */
  lemma SameBlock(m: Mem, a: int, bs: seq<byte>, bs': seq<byte>)
    requires |bs| == |bs'|
    requires forall x :: a <= x < a + |bs| ==> CanRead(m, x) && bs[x - a] == m.bytes[x] == bs'[x - a]
    ensures bs == bs'
  {
    forall i | 0 <= i < |bs|
      ensures bs[i] == bs'[i]
    {
      assert a <= a + i < a + |bs| && CanRead(m, a + i);
    }
  }

  /** Part of a block that can be read is that part of it. */
  lemma ReadWithin(m: Mem, a: int, bs: seq<byte>, i: nat, n: nat)
    requires i + n <= |bs| && ReadBlock(m, a, |bs|) == Some(bs)
    ensures ReadBlock(m, a + i, n) == Some(bs[i..i + n])
  {
    ReadBlockSpec(m, a, |bs|);
    ReadBlockSpec(m, a + i, n);
    forall x | a + i <= x < a + i + n
      ensures CanRead(m, x) && m.bytes[x] == bs[i..i + n][x - (a + i)]
    {
      assert CanRead(m, x) && bs[x - a] == m.bytes[x];
    }
    SameBlock(m, a + i, ReadBlock(m, a + i, n).value, bs[i..i + n]);
  }

  lemma ReadBlockFrame(m: Mem, m': Mem, a: int, n: nat)
    requires SameRegions(m, m') && AgreeOn(m, m', a, n)
    ensures ReadBlock(m, a, n) == ReadBlock(m', a, n)
  {
    ReadBlockSpec(m, a, n);
    ReadBlockSpec(m', a, n);
    assert forall x :: CanRead(m, x) <==> CanRead(m', x);
    var r, r' := ReadBlock(m, a, n), ReadBlock(m', a, n);
    if r.Some? {
      SameBlock(m, a, r.value, r'.value);
    }
  }

  /** A block store leaves every other block alone. */
  lemma WriteBlockElsewhere(m: Mem, a: int, bs: seq<byte>, b: int, n: nat)
    requires b + n <= a || a + |bs| <= b
    ensures AgreeOn(m, WriteBlock(m, a, bs).mem, b, n)
    ensures ReadBlock(WriteBlock(m, a, bs).mem, b, n) == ReadBlock(m, b, n)
  {
    WriteBlockSpec(m, a, bs);
    ReadBlockFrame(m, WriteBlock(m, a, bs).mem, b, n);
  }

  /** What a completed block store reads back as. */
  lemma WriteThenRead(m: Mem, a: int, bs: seq<byte>)
    requires WriteBlock(m, a, bs).ok
    ensures ReadBlock(WriteBlock(m, a, bs).mem, a, |bs|) == Some(bs)
  {
    var m' := WriteBlock(m, a, bs).mem;
    WriteBlockSpec(m, a, bs);
    ReadBlockSpec(m', a, |bs|);
    forall x | a <= x < a + |bs|
      ensures CanRead(m', x) && m'.bytes[x] == bs[x - a]
    {
      assert CanWrite(m, x) && x in m.bytes;
    }
    SameBlock(m', a, ReadBlock(m', a, |bs|).value, bs);
  }

  // ---- Little-endian numbers ----

  function Pow256(n: nat): (r: nat)
    ensures r > 0
  {
    if n == 0 then 1 else 256 * Pow256(n - 1)
  }

  function FromLE(bs: seq<byte>): (r: nat)
    ensures r < Pow256(|bs|)
  {
    if bs == [] then 0 else bs[0] + 256 * FromLE(bs[1..])
  }

  function ToLE(v: nat, n: nat): (r: seq<byte>)
    ensures |r| == n
  {
    if n == 0 then [] else [v % 256] + ToLE(v / 256, n - 1)
  }

  lemma {:induction false} LERoundTrip(v: nat, n: nat)
    requires v < Pow256(n)
    ensures FromLE(ToLE(v, n)) == v
  {
    if n > 0 {
      LERoundTrip(v / 256, n - 1);
      assert ToLE(v, n)[1..] == ToLE(v / 256, n - 1);
    }
  }

  function ReadLE(m: Mem, a: int, n: nat): (r: Option<nat>)
    ensures r.Some? ==> r.value < Pow256(n)
  {
    match ReadBlock(m, a, n)
    case None => None
    case Some(bs) => Some(FromLE(bs))
  }

  function WriteLE(m: Mem, a: int, n: nat, v: nat): (r: Stored)
    ensures r.count <= n && (r.ok <==> r.count == n) && SameRegions(m, r.mem)
  {
    WriteBlock(m, a, ToLE(v, n))
  }

  /** A number starts with its lowest byte. */
  lemma LowestFirst(m: Mem, a: int, n: nat)
    ensures ReadLE(m, a, 0) == Some(0)
    ensures var rest := ReadLE(m, a + 1, n);
      ReadLE(m, a, n + 1) ==
        if CanRead(m, a) && rest.Some? then var low: nat := m.bytes[a]; Some(low + 0x100 * rest.value) else None
  {
  }

  /** The word at `a` is `v`, its bytes from the lowest to the highest. */
  lemma WordBytes(m: Mem, a: int, b0: byte, b1: byte, b2: byte, b3: byte)
    requires CanRead(m, a) && CanRead(m, a + 1) && CanRead(m, a + 2) && CanRead(m, a + 3)
    requires m.bytes[a] == b0 && m.bytes[a + 1] == b1 && m.bytes[a + 2] == b2 && m.bytes[a + 3] == b3
    ensures var low: nat := b0; ReadLE(m, a, 4) == Some(low + 0x100 * b1 + 0x1_0000 * b2 + 0x100_0000 * b3)
  {
    LowestFirst(m, a, 3);
    LowestFirst(m, a + 1, 2);
    LowestFirst(m, a + 2, 1);
    LowestFirst(m, a + 3, 0);
    LowestFirst(m, a + 4, 0);
  }

  lemma WordFits(m: Mem, a: int)
    ensures ReadLE(m, a, 4).Some? ==> ReadLE(m, a, 4).value < 0x1_0000_0000
  {
    assert Pow256(4) == 0x1_0000_0000;
  }

  lemma WriteLEThenRead(m: Mem, a: int, n: nat, v: nat)
    requires v < Pow256(n) && WriteLE(m, a, n, v).ok
    ensures ReadLE(WriteLE(m, a, n, v).mem, a, n) == Some(v)
  {
    WriteThenRead(m, a, ToLE(v, n));
    LERoundTrip(v, n);
  }

  lemma ReadLEFrame(m: Mem, m': Mem, a: int, n: nat)
    requires SameRegions(m, m') && AgreeOn(m, m', a, n)
    ensures ReadLE(m, a, n) == ReadLE(m', a, n)
  {
    ReadBlockFrame(m, m', a, n);
  }

  /** A number inside a block reads back. */
  lemma ReadLEWithin(m: Mem, a: int, bs: seq<byte>, i: nat, n: nat, v: nat)
    requires i + n <= |bs| && ReadBlock(m, a, |bs|) == Some(bs) && bs[i..i + n] == ToLE(v, n) && v < Pow256(n)
    ensures ReadLE(m, a + i, n) == Some(v)
  {
    ReadWithin(m, a, bs, i, n);
    LERoundTrip(v, n);
  }
}
