/** The devicetree blob byte by byte, and what Linux reads from it, in numbers. */
module FdtMeaning {
  import opened Memory
  import opened FdtSpec
  import opened Devicetree

  /** The big-endian number at byte `k`. */
  function Number(s: seq<byte>, k: nat): nat
    requires k + 4 <= |s|
  {
    var a: nat, b: nat, c: nat, d: nat := s[k], s[k + 1], s[k + 2], s[k + 3];
    0x100_0000 * a + 0x1_0000 * b + 0x100 * c + d
  }

  lemma NumberOf(v: u32)
    ensures Number(BE32(v), 0) == v
  {
    BERoundTrip(v);
  }

  lemma SameNumber(s: seq<byte>, k: nat, w: seq<byte>)
    requires k + 4 <= |s| && w == s[k..k + 4]
    ensures Number(s, k) == Number(w, 0)
  {
    assert w[0] == s[k] && w[1] == s[k + 1] && w[2] == s[k + 2] && w[3] == s[k + 3];
  }

  lemma NumberIs(v: u32, before: seq<byte>, after: seq<byte>, s: seq<byte>, k: nat)
    requires s == before + BE32(v) + after && |before| == k
    ensures k + 4 <= |s| && Number(s, k) == v
  {
    NumberOf(v);
    assert s[k..k + 4] == BE32(v);
    SameNumber(s, k, BE32(v));
  }

  lemma {:induction false} WordsSay(vs: seq<nat>, s: seq<byte>, i: nat, at: nat)
    requires i < |vs| && s == Words(vs) && at == 4 * i && vs[i] < 0x1_0000_0000
    ensures Number(s, at) == vs[i]
  {
    if i == 0 {
      NumberIs(vs[0], [], Words(vs[1..]), s, 0);
    } else {
      var rest := Words(vs[1..]);
      WordsSay(vs[1..], rest, i - 1, at - 4);
      LaterNumber(BE32(vs[0]), rest, s, at - 4);
    }
  }

  lemma LaterNumber(first: seq<byte>, rest: seq<byte>, s: seq<byte>, k: nat)
    requires |first| == 4 && s == first + rest && k + 4 <= |rest|
    ensures Number(s, k + 4) == Number(rest, k)
  {
    assert s[k + 4] == rest[k] && s[k + 5] == rest[k + 1] && s[k + 6] == rest[k + 2] && s[k + 7] == rest[k + 3];
  }

  lemma EarlierNumber(s: seq<byte>, rest: seq<byte>, k: nat, blob: seq<byte>)
    requires k + 4 <= |s| && blob == s + rest
    ensures Number(blob, k) == Number(s, k)
  {
    assert blob[k] == s[k] && blob[k + 1] == s[k + 1] && blob[k + 2] == s[k + 2] && blob[k + 3] == s[k + 3];
  }

  /** The ten numbers of the header, in the order of section 5.2 of the Devicetree Specification. */
  predicate HeaderSays(blob: seq<byte>, structure: nat, strings: nat)
    requires |blob| >= 40
  {
    Number(blob, 0) == 0xD00D_FEED && Number(blob, 4) == |blob| && Number(blob, 8) == 56 &&
    Number(blob, 12) == 56 + structure && Number(blob, 16) == 40 && Number(blob, 20) == 17 &&
    Number(blob, 24) == 16 && Number(blob, 28) == 0 && Number(blob, 32) == strings && Number(blob, 36) == structure
  }

  lemma HeaderNumber(vs: seq<nat>, s: seq<byte>, rest: seq<byte>, i: nat, at: nat, blob: seq<byte>)
    requires i < |vs| && s == Words(vs) && at == 4 * i && blob == s + rest && vs[i] < 0x1_0000_0000
    ensures Number(blob, at) == vs[i]
  {
    WordsSay(vs, s, i, at);
    EarlierNumber(s, rest, at, blob);
  }

  lemma NumbersAre(vs: seq<nat>, s: seq<byte>, rest: seq<byte>, blob: seq<byte>)
    requires |vs| == 10 && (forall i :: 0 <= i < 10 ==> vs[i] < 0x1_0000_0000) && s == Words(vs) && blob == s + rest
    ensures Number(blob, 0) == vs[0] && Number(blob, 4) == vs[1] && Number(blob, 8) == vs[2]
    ensures Number(blob, 12) == vs[3] && Number(blob, 16) == vs[4] && Number(blob, 20) == vs[5]
    ensures Number(blob, 24) == vs[6] && Number(blob, 28) == vs[7] && Number(blob, 32) == vs[8]
    ensures Number(blob, 36) == vs[9]
  {
    HeaderNumber(vs, s, rest, 0, 0, blob);
    HeaderNumber(vs, s, rest, 1, 4, blob);
    HeaderNumber(vs, s, rest, 2, 8, blob);
    HeaderNumber(vs, s, rest, 3, 12, blob);
    HeaderNumber(vs, s, rest, 4, 16, blob);
    HeaderNumber(vs, s, rest, 5, 20, blob);
    HeaderNumber(vs, s, rest, 6, 24, blob);
    HeaderNumber(vs, s, rest, 7, 28, blob);
    HeaderNumber(vs, s, rest, 8, 32, blob);
    HeaderNumber(vs, s, rest, 9, 36, blob);
  }

  lemma HeaderIs(structure: nat, strings: nat, rest: seq<byte>, blob: seq<byte>)
    requires blob == Header(structure, strings) + rest && |blob| == 56 + structure + strings < 0x1_0000_0000
    ensures HeaderSays(blob, structure, strings)
  {
    NumbersAre(HeaderWords(structure, strings), Header(structure, strings), rest, blob);
  }

  /** Main result: a blob below 2^32 bytes is the header, sixteen zeros, the structure and the strings, one after the
      other, and the header says so. */
  lemma BlobIs(names: seq<seq<byte>>, root: Node, blob: seq<byte>)
    requires Good(names, root) && blob == Blob(names, root) && |blob| < 0x1_0000_0000
    ensures var structure, strings := Structure(names, root), Table(names);
      |blob| == 56 + |structure| + |strings| && HeaderSays(blob, |structure|, |strings|) &&
      (forall k :: 40 <= k < 56 ==> blob[k] == 0) &&
      blob[56..56 + |structure|] == structure && blob[56 + |structure|..] == strings
  {
    var structure, strings := Structure(names, root), Table(names);
    var rest := Zeros(16) + structure + strings;
    assert blob == Header(|structure|, |strings|) + rest;
    HeaderIs(|structure|, |strings|, rest, blob);
  }

  /** Main result: the structure of a node, by section 5.4 of the Devicetree Specification: the number 1 and its name,
      for every property the number 3, its length, the place of its name and its value, then its children, and the
      number 2; all padded to words.  A 9 ends the structure. */
  lemma NodeIs(names: seq<seq<byte>>, n: Node)
    requires Good(names, n)
    ensures EmitNode(names, n) ==
      [0, 0, 0, 1] + Padded(n.name + [0]) + EmitProps(names, n.props) + EmitNodes(names, n.children) + [0, 0, 0, 2]
    ensures n.props != [] ==>
      var p := n.props[0];
      EmitProps(names, n.props) ==
        [0, 0, 0, 3] + BE32(|p.value|) + BE32(Offset(names, p.name)) + Padded(p.value) + EmitProps(names, n.props[1..])
    ensures Structure(names, n) == EmitNode(names, n) + [0, 0, 0, 9]
  {
    assert BE32(1) == [0, 0, 0, 1] && BE32(2) == [0, 0, 0, 2] && BE32(3) == [0, 0, 0, 3] && BE32(9) == [0, 0, 0, 9];
  }

  // ---- What Linux reads ----

  /** The value of the first property of that name. */
  function ValueOf(ps: seq<Prop>, name: seq<byte>): Option<seq<byte>> {
    if ps == [] then None else if ps[0].name == name then Some(ps[0].value) else ValueOf(ps[1..], name)
  }

  function ChildOf(ns: seq<Node>, name: seq<byte>): Option<Node> {
    if ns == [] then None else if ns[0].name == name then Some(ns[0]) else ChildOf(ns[1..], name)
  }

  /** The `i`th property is the first of its name. */
  lemma {:induction false} ValueAt(ps: seq<Prop>, i: nat, name: seq<byte>)
    requires i < |ps| && ps[i].name == name && forall j :: 0 <= j < i ==> |ps[j].name| != |name|
    ensures ValueOf(ps, name) == Some(ps[i].value)
  {
    if i > 0 { ValueAt(ps[1..], i - 1, name); }
  }

  lemma {:induction false} ChildAt(ns: seq<Node>, i: nat, name: seq<byte>)
    requires i < |ns| && ns[i].name == name && forall j :: 0 <= j < i ==> |ns[j].name| != |name|
    ensures ChildOf(ns, name) == Some(ns[i])
  {
    if i > 0 { ChildAt(ns[1..], i - 1, name); }
  }

  /** Addresses and sizes of one word each. */
  ghost predicate SaysCells(root: Node) {
    ValueOf(root.props, Ascii("#address-cells")) == Some([0, 0, 0, 1]) &&
    ValueOf(root.props, Ascii("#size-cells")) == Some([0, 0, 0, 1])
  }

  /** One bank of `size` bytes at 0x8000_0000. */
  ghost predicate SaysMemory(root: Node, size: u32) {
    var memory := ChildOf(root.children, Ascii("memory@80000000"));
    memory.Some? && ValueOf(memory.value.props, Ascii("device_type")) == Some(Ascii("memory") + [0]) &&
    match ValueOf(memory.value.props, Ascii("reg"))
    case None => false
    case Some(reg) => |reg| == 8 && Number(reg, 0) == 0x8000_0000 && Number(reg, 4) == size
  }

  /** The command line, if there is one. */
  ghost predicate SaysBootargs(root: Node, bootargs: Option<seq<byte>>) {
    var chosen := ChildOf(root.children, Ascii("chosen"));
    chosen.Some? && ValueOf(chosen.value.props, Ascii("bootargs")) ==
      match bootargs
      case None => None
      case Some(args) => Some(args + [0])
  }

  lemma CellsSaid(root: Node)
    requires root.props == RootProps()
    ensures SaysCells(root)
  {
    ValueAt(root.props, 2, AddressCellsName());
    ValueAt(root.props, 3, SizeCellsName());
    assert BE32(1) == [0, 0, 0, 1];
  }

  lemma MemorySaid(root: Node, size: u32, bootargs: Option<seq<byte>>)
    requires root.children == [Chosen(bootargs), MemoryNode(size)]
    ensures SaysMemory(root, size)
  {
    ChildAt(root.children, 1, Ascii("memory@80000000"));
    ValueAt(MemoryNode(size).props, 0, DeviceTypeName());
    ValueAt(MemoryNode(size).props, 1, RegName());
    var reg := BE32(0x8000_0000) + BE32(size);
    NumberIs(0x8000_0000, [], BE32(size), reg, 0);
    NumberIs(size, BE32(0x8000_0000), [], reg, 4);
  }

  lemma BootargsSaid(root: Node, size: u32, bootargs: Option<seq<byte>>)
    requires root.children == [Chosen(bootargs), MemoryNode(size)]
    ensures SaysBootargs(root, bootargs)
  {
    ChildAt(root.children, 0, Ascii("chosen"));
    if bootargs.Some? { ValueAt(Chosen(bootargs).props, 0, BootargsName()); }
  }

  /** Main result: for every command line short enough, what is read back from the blob are the cells, the memory bank
      and the command line. */
  lemma LinuxReads(names: seq<seq<byte>>, n: Node, size: u32, bootargs: Option<seq<byte>>, blob: seq<byte>)
    requires InTableOrder(names) && n == LinuxTree(size, bootargs) && Good(names, n) && blob == Blob(names, n)
    requires bootargs.Some? ==> |bootargs.value| <= LONGEST
    ensures ParseBlob(blob).Some? && var root := ParseBlob(blob).value.root;
      SaysCells(root) && SaysMemory(root, size) && SaysBootargs(root, bootargs)
  {
    DevicetreeRoundTrip(names, n, size, bootargs, blob);
    CellsSaid(n);
    MemorySaid(n, size, bootargs);
    BootargsSaid(n, size, bootargs);
  }
}
