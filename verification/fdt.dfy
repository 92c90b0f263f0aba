/** The devicetree handed to Linux, written into growing buffers. */
module Devicetree {
  import opened Memory
  import opened FdtSpec

  /** ASCII text as bytes. */
  function Ascii(s: string): (r: seq<byte>)
    ensures |r| == |s| && forall i :: 0 <= i < |s| ==> r[i] == s[i] as int % 256
  {
    seq(|s|, i requires 0 <= i < |s| => s[i] as int % 256)
  }

  function CompatibleName(): seq<byte> { Ascii("compatible") }
  function ModelName(): seq<byte> { Ascii("model") }
  function AddressCellsName(): seq<byte> { Ascii("#address-cells") }
  function SizeCellsName(): seq<byte> { Ascii("#size-cells") }
  function BootargsName(): seq<byte> { Ascii("bootargs") }
  function DeviceTypeName(): seq<byte> { Ascii("device_type") }
  function RegName(): seq<byte> { Ascii("reg") }

  function Names(): (ns: seq<seq<byte>>)
    ensures |ns| == 7
  {
    [CompatibleName(), ModelName(), AddressCellsName(), SizeCellsName(), BootargsName(), DeviceTypeName(), RegName()]
  }

  // ---- The tree ----

  function Chosen(bootargs: Option<seq<byte>>): Node {
    Node(Ascii("chosen"),
         match bootargs
         case None => []
         case Some(args) => [Prop(BootargsName(), args + [0])],
         [])
  }

  function MemoryNode(size: u32): Node {
    Node(Ascii("memory@80000000"),
         [Prop(DeviceTypeName(), Ascii("memory") + [0]), Prop(RegName(), BE32(0x8000_0000) + BE32(size))],
         [])
  }

  function RootProps(): seq<Prop> {
    [Prop(CompatibleName(), Ascii("mycpu,virt") + [0]), Prop(ModelName(), Ascii("mycpu-rv32") + [0]),
     Prop(AddressCellsName(), BE32(1)), Prop(SizeCellsName(), BE32(1))]
  }

  /** One memory bank at 0x8000_0000, and the command line if there is one. */
  function LinuxTree(size: u32, bootargs: Option<seq<byte>>): Node {
    Node([], RootProps(), [Chosen(bootargs), MemoryNode(size)])
  }

  // ---- Names and their offsets ----

  predicate Distinct(names: seq<seq<byte>>) {
    forall i, j :: 0 <= i < j < |names| ==> names[i] != names[j]
  }

  lemma {:induction false} TableGrows(names: seq<seq<byte>>, name: seq<byte>)
    ensures Table(names + [name]) == Table(names) + name + [0]
  {
    if names == [] {
      assert Table([name]) == name + [0] + Table([name][1..]);
    } else {
      assert (names + [name])[1..] == names[1..] + [name];
      TableGrows(names[1..], name);
    }
  }

  lemma {:induction false} OffsetIsLength(names: seq<seq<byte>>, i: nat)
    requires i < |names| && Distinct(names)
    ensures names[i] in names && Offset(names, names[i]) == |Table(names[..i])|
  {
    if i > 0 {
      assert names[0] != names[i] && names[i] == names[1..][i - 1];
      OffsetIsLength(names[1..], i - 1);
      assert names[..i][1..] == names[1..][..i - 1];
    }
  }

  lemma NamesDistinct()
    ensures Distinct(Names())
  {
    assert |CompatibleName()| == 10 && |ModelName()| == 5 && |AddressCellsName()| == 14 && |SizeCellsName()| == 11;
    assert |BootargsName()| == 8 && |DeviceTypeName()| == 11 && |RegName()| == 3;
    assert SizeCellsName()[0] == 35 && DeviceTypeName()[0] == 100;
  }

  /** The seven names in the order the generator adds them. */
  ghost predicate InTableOrder(names: seq<seq<byte>>) {
    |names| == 7 && Distinct(names) &&
    names[0] == CompatibleName() && names[1] == ModelName() && names[2] == AddressCellsName() &&
    names[3] == SizeCellsName() && names[4] == BootargsName() && names[5] == DeviceTypeName() && names[6] == RegName()
  }

  lemma NamesNoNul(names: seq<seq<byte>>, i: nat)
    requires InTableOrder(names) && i < 7
    ensures NoNul(names[i])
  {
    TextNoNul();
    MoreTextNoNul();
  }

  lemma TextNoNul()
    ensures NoNul(CompatibleName()) && NoNul(ModelName()) && NoNul(AddressCellsName()) && NoNul(SizeCellsName())
  {
  }

  lemma MoreTextNoNul()
    ensures NoNul(BootargsName()) && NoNul(DeviceTypeName()) && NoNul(RegName())
  {
  }

  lemma NameLengths()
    ensures |CompatibleName()| == 10 && |ModelName()| == 5 && |AddressCellsName()| == 14 && |SizeCellsName()| == 11
    ensures |BootargsName()| == 8 && |DeviceTypeName()| == 11 && |RegName()| == 3
  {
  }

  lemma ShortTable(names: seq<seq<byte>>)
    requires InTableOrder(names)
    ensures |Table(names)| == 69
  {
    NameLengths();
    TableLength(names, 7);
    NextLength(names, 0);
    NextLength(names, 1);
    NextLength(names, 2);
    NextLength(names, 3);
    NextLength(names, 4);
    NextLength(names, 5);
    NextLength(names, 6);
  }

  lemma NextLength(names: seq<seq<byte>>, n: nat)
    requires n < |names|
    ensures Lengths(names, n + 1) == Lengths(names, n) + |names[n]| + 1 && Lengths(names, 0) == 0
  {
  }

  function Lengths(names: seq<seq<byte>>, n: nat): nat
    requires n <= |names|
  {
    if n == 0 then 0 else Lengths(names, n - 1) + |names[n - 1]| + 1
  }

  lemma {:induction false} TableLength(names: seq<seq<byte>>, n: nat)
    requires n <= |names|
    ensures |Table(names[..n])| == Lengths(names, n) && (n == |names| ==> |Table(names)| == Lengths(names, n))
  {
    if n > 0 {
      TableLength(names, n - 1);
      TableGrows(names[..n - 1], names[n - 1]);
      assert names[..n] == names[..n - 1] + [names[n - 1]];
    }
    assert n == |names| ==> names[..n] == names;
  }

  // ---- The tree can be written and read ----

  lemma PropSized(names: seq<seq<byte>>, i: nat, p: Prop)
    requires InTableOrder(names) && i < 7 && p.name == names[i] && |p.value| < 0x1_0000_0000
    ensures Sized(names, p)
  {
    NamesNoNul(names, i);
    ShortTable(names);
  }

  lemma ChosenFits(names: seq<seq<byte>>, n: Node, bootargs: Option<seq<byte>>)
    requires InTableOrder(names) && n == Chosen(bootargs)
    requires bootargs.Some? ==> |bootargs.value| + 1 < 0x1_0000_0000
    ensures Fit(names, n)
  {
    if bootargs.Some? { PropSized(names, 4, n.props[0]); }
    assert NoNul(Ascii("chosen"));
  }

  lemma MemoryFits(names: seq<seq<byte>>, n: Node, size: u32)
    requires InTableOrder(names) && n == MemoryNode(size)
    ensures Fit(names, n)
  {
    PropSized(names, 5, n.props[0]);
    PropSized(names, 6, n.props[1]);
    assert NoNul(Ascii("memory@80000000"));
  }

  lemma RootPropsSized(names: seq<seq<byte>>, ps: seq<Prop>)
    requires InTableOrder(names) && ps == RootProps()
    ensures AllSized(names, ps)
  {
    PropSized(names, 0, ps[0]);
    PropSized(names, 1, ps[1]);
    PropSized(names, 2, ps[2]);
    PropSized(names, 3, ps[3]);
  }

  lemma PairFits(names: seq<seq<byte>>, n: Node, a: Node, b: Node)
    requires n.name == [] && AllSized(names, n.props) && n.children == [a, b] && Fit(names, a) && Fit(names, b)
    ensures Fit(names, n)
  {
    var ns := [a, b];
    assert ns[1..] == [b] && ns[1..][1..] == [];
    assert AllFit(names, []);
    assert AllFit(names, ns[1..]);
  }

  lemma TreeFits(names: seq<seq<byte>>, n: Node, size: u32, bootargs: Option<seq<byte>>)
    requires InTableOrder(names) && n == LinuxTree(size, bootargs)
    requires bootargs.Some? ==> |bootargs.value| + 1 < 0x1_0000_0000
    ensures Fit(names, n)
  {
    RootPropsSized(names, n.props);
    ChosenFits(names, n.children[0], bootargs);
    MemoryFits(names, n.children[1], size);
    PairFits(names, n, n.children[0], n.children[1]);
  }

  lemma TwoNodes(names: seq<seq<byte>>, a: Node, b: Node)
    requires Good(names, a) && Good(names, b)
    ensures AllGood(names, [a, b]) && EmitNodes(names, [a, b]) == EmitNode(names, a) + EmitNode(names, b)
  {
    var ns := [a, b];
    assert ns[1..] == [b] && ns[1..][1..] == [];
    assert AllGood(names, []) && EmitNodes(names, []) == [];
    assert AllGood(names, ns[1..]) && EmitNodes(names, ns[1..]) == EmitNode(names, b);
  }

  lemma ChosenGood(names: seq<seq<byte>>, n: Node, bootargs: Option<seq<byte>>)
    requires InTableOrder(names) && n == Chosen(bootargs)
    ensures Good(names, n)
  {
    assert names[4] in names;
    assert NoNul(Ascii("chosen"));
  }

  /** Whatever the command line, every name is where it should be. */
  lemma TreeGood(names: seq<seq<byte>>, n: Node, size: u32, bootargs: Option<seq<byte>>)
    requires InTableOrder(names) && n == LinuxTree(size, bootargs)
    ensures Good(names, n)
  {
    var a, b := n.children[0], n.children[1];
    ChosenGood(names, a, bootargs);
    MemoryFits(names, b, size);
    FitIsGood(names, b);
    RootPropsSized(names, n.props);
    SizedAreNamed(names, n.props);
    TwoNodes(names, a, b);
  }

  // ---- How long it is ----

  function PropSize(value: nat): nat { 12 + value + Gap(value) }

  /** 301 bytes, and with a command line the property that holds it and its NUL. */
  function BlobSize(bootargs: Option<seq<byte>>): nat {
    301 + if bootargs.Some? then PropSize(|bootargs.value| + 1) else 0
  }

  lemma PropLength(names: seq<seq<byte>>, p: Prop)
    requires p.name in names
    ensures Named(names, [p]) && |EmitProps(names, [p])| == PropSize(|p.value|)
  {
    assert [p][1..] == [];
  }

  lemma {:induction false} PropsLength(names: seq<seq<byte>>, ps: seq<Prop>)
    requires ps != [] && Named(names, ps)
    ensures |EmitProps(names, ps)| == PropSize(|ps[0].value|) + |EmitProps(names, ps[1..])|
  {
  }

  lemma NodeLength(names: seq<seq<byte>>, n: Node)
    requires Good(names, n)
    ensures |EmitNode(names, n)| ==
      9 + |n.name| + Gap(|n.name| + 1) + |EmitProps(names, n.props)| + |EmitNodes(names, n.children)|
  {
  }

  lemma ChosenLength(names: seq<seq<byte>>, n: Node, bootargs: Option<seq<byte>>)
    requires Good(names, n) && n == Chosen(bootargs)
    ensures |EmitNode(names, n)| == 16 + if bootargs.Some? then PropSize(|bootargs.value| + 1) else 0
  {
    NodeLength(names, n);
    if bootargs.Some? { PropLength(names, n.props[0]); }
  }

  lemma TwoProps(names: seq<seq<byte>>, p: Prop, q: Prop)
    requires p.name in names && q.name in names
    ensures Named(names, [p, q]) && |EmitProps(names, [p, q])| == PropSize(|p.value|) + PropSize(|q.value|)
  {
    PropLength(names, q);
    assert [p, q][1..] == [q];
  }

  lemma MemoryLength(names: seq<seq<byte>>, n: Node, size: u32)
    requires Good(names, n) && n == MemoryNode(size)
    ensures |EmitNode(names, n)| == 64
  {
    NodeLength(names, n);
    TwoProps(names, n.props[0], n.props[1]);
  }

  lemma RootPropsLength(names: seq<seq<byte>>, ps: seq<Prop>)
    requires Named(names, ps) && ps == RootProps()
    ensures |EmitProps(names, ps)| == 80
  {
    PropsLength(names, ps);
    PropsLength(names, ps[1..]);
    TwoProps(names, ps[2], ps[3]);
    assert ps[1..][1..] == [ps[2], ps[3]];
  }

  lemma PairLength(names: seq<seq<byte>>, n: Node, a: Node, b: Node)
    requires Good(names, n) && n.children == [a, b]
    ensures Good(names, a) && Good(names, b)
    ensures |EmitNode(names, n)| == 9 + |n.name| + Gap(|n.name| + 1) + |EmitProps(names, n.props)| +
      |EmitNode(names, a)| + |EmitNode(names, b)|
  {
    assert AllGood(names, n.children) && n.children[1..] == [b];
    assert AllGood(names, n.children[1..]);
    NodeLength(names, n);
    TwoNodes(names, a, b);
  }

  lemma TreeLength(names: seq<seq<byte>>, n: Node, size: u32, bootargs: Option<seq<byte>>)
    requires Good(names, n) && n == LinuxTree(size, bootargs)
    ensures |EmitNode(names, n)| == BlobSize(bootargs) - 129
  {
    var a, b := Chosen(bootargs), MemoryNode(size);
    PairLength(names, n, a, b);
    ChosenLength(names, a, bootargs);
    MemoryLength(names, b, size);
    RootPropsLength(names, n.props);
  }

  lemma BlobLength(names: seq<seq<byte>>, n: Node, size: u32, bootargs: Option<seq<byte>>)
    requires Good(names, n) && n == LinuxTree(size, bootargs) && |Table(names)| == 69
    ensures |Blob(names, n)| == BlobSize(bootargs)
  {
    TreeLength(names, n, size, bootargs);
    BlobParts(names, n);
  }

  /** The longest command line whose blob a 32-bit size can describe. */
  const LONGEST: nat := 4294966979

  lemma SizeLimit(bootargs: Option<seq<byte>>)
    ensures BlobSize(bootargs) < 0x1_0000_0000 <==> (bootargs.Some? ==> |bootargs.value| <= LONGEST)
  {
  }

  /** Main result: for every memory size and every command line short enough, the emitted blob reads
      back as exactly the intended tree; for a longer one the header's total size is wrong. */
  lemma DevicetreeRoundTrip(names: seq<seq<byte>>, n: Node, size: u32, bootargs: Option<seq<byte>>, blob: seq<byte>)
    requires InTableOrder(names) && n == LinuxTree(size, bootargs) && Good(names, n) && blob == Blob(names, n)
    ensures ParseBlob(blob) == Some(Tree(0, [], n)) <==> (bootargs.Some? ==> |bootargs.value| <= LONGEST)
  {
    ShortTable(names);
    BlobLength(names, n, size, bootargs);
    SizeLimit(bootargs);
    if bootargs.Some? ==> |bootargs.value| <= LONGEST { TreeFits(names, n, size, bootargs); }
    ReadsBackExactly(names, n, blob);
  }

  lemma ReadsBackExactly(names: seq<seq<byte>>, n: Node, blob: seq<byte>)
    requires Good(names, n) && blob == Blob(names, n) && (|blob| < 0x1_0000_0000 ==> Fit(names, n))
    ensures ParseBlob(blob) == Some(Tree(0, [], n)) <==> |blob| < 0x1_0000_0000
  {
    if |blob| < 0x1_0000_0000 { BlobRoundTrip(names, n, blob); } else { TotalSizeIsLength(names, n, blob); }
  }

  // ---- Writing ----

  lemma AssociateFive(o: seq<byte>, a: seq<byte>, b: seq<byte>, c: seq<byte>, d: seq<byte>)
    ensures (((o + a) + b) + c) + d == o + (((a + b) + c) + d)
  {
  }

  class Buffer {
    var bytes: seq<byte>

    constructor ()
      ensures bytes == []
    {
      bytes := [];
    }

    method Extend(data: seq<byte>)
      modifies this
      ensures bytes == old(bytes) + data
    {
      bytes := bytes + data;
    }

    method PushBE32(v: nat)
      modifies this
      ensures bytes == old(bytes) + BE32(v)
    {
      bytes := bytes + BE32(v);
    }

    method Align4()
      modifies this
      ensures bytes == old(bytes) + Zeros(Gap(|old(bytes)|))
    {
      ghost var n := 0;
      while |bytes| % 4 != 0
        invariant n + Gap(|bytes|) == Gap(|old(bytes)|) && bytes == old(bytes) + Zeros(n)
        decreases Gap(|bytes|)
      {
        GapShrinks(|bytes|);
        ZerosNext(old(bytes), n);
        bytes := bytes + [0];
        n := n + 1;
      }
    }

    /** Data and its padding, from an aligned position. */
    method Pad(ghost start: nat, ghost data: seq<byte>)
      requires start % 4 == 0 && |bytes| == start + |data| && bytes[start..] == data
      modifies this
      ensures bytes == old(bytes)[..start] + Padded(data)
    {
      assert Gap(|bytes|) == Gap(|data|);
      assert bytes == bytes[..start] + data;
      Align4();
    }

    method PushPadded(data: seq<byte>)
      requires |bytes| % 4 == 0
      modifies this
      ensures bytes == old(bytes) + Padded(data) && |bytes| % 4 == 0
    {
      ghost var before := bytes;
      Extend(data);
      Pad(|before|, data);
    }

    method PushBeginNode(name: seq<byte>)
      requires |bytes| % 4 == 0
      modifies this
      ensures bytes == old(bytes) + EmitBegin(name) && |bytes| % 4 == 0
    {
      PushBE32(BEGIN_NODE);
      ghost var before := bytes;
      Extend(name);
      Extend([0]);
      Associate(before, name, [0]);
      Pad(|before|, name + [0]);
      Associate(old(bytes), BE32(BEGIN_NODE), Padded(name + [0]));
    }

    method PushEndNode()
      modifies this
      ensures bytes == old(bytes) + BE32(END_NODE)
    {
      PushBE32(END_NODE);
    }

    method PushProp(nameoff: nat, data: seq<byte>)
      requires |bytes| % 4 == 0
      modifies this
      ensures bytes == old(bytes) + EmitProp(nameoff, data) && |bytes| % 4 == 0
    {
      PushBE32(PROP);
      PushBE32(|data|);
      PushBE32(nameoff);
      PushPadded(data);
      AssociateFive(old(bytes), BE32(PROP), BE32(|data|), BE32(nameoff), Padded(data));
    }

    method AddString(name: seq<byte>) returns (off: nat)
      modifies this
      ensures off == |old(bytes)| && bytes == old(bytes) + name + [0]
    {
      off := |bytes|;
      Extend(name);
      Extend([0]);
    }
  }

  // ---- The generator ----

  lemma NamedOffset(names: seq<seq<byte>>, i: nat)
    requires i < |names| && Distinct(names)
    ensures names[i] in names && Offset(names, names[i]) == |Table(names[..i])|
    ensures Table(names[..i + 1]) == Table(names[..i]) + names[i] + [0]
  {
    OffsetIsLength(names, i);
    TableGrows(names[..i], names[i]);
    assert names[..i + 1] == names[..i] + [names[i]];
  }

  /** The next name of the table. */
  method AddName(strings: Buffer, name: seq<byte>, ghost names: seq<seq<byte>>, ghost i: nat) returns (off: nat)
    requires i < |names| && Distinct(names) && name == names[i] && strings.bytes == Table(names[..i])
    modifies strings
    ensures strings.bytes == Table(names[..i + 1])
    ensures name in names && off == Offset(names, name)
  {
    NamedOffset(names, i);
    off := strings.AddString(name);
  }

  lemma {:induction false} PropsGrow(names: seq<seq<byte>>, ps: seq<Prop>, p: Prop)
    requires Named(names, ps) && p.name in names
    ensures Named(names, ps + [p])
    ensures EmitProps(names, ps + [p]) == EmitProps(names, ps) + EmitProp(Offset(names, p.name), p.value)
  {
    if ps == [] {
      assert [p][1..] == [];
      assert [] + [p] == [p];
    } else {
      assert (ps + [p])[1..] == ps[1..] + [p];
      PropsGrow(names, ps[1..], p);
    }
  }

  /** One more property of a node whose first properties have been written since `base`. */
  method AddProp(b: Buffer, off: nat, value: seq<byte>, ghost names: seq<seq<byte>>, ghost base: seq<byte>,
                 ghost ps: seq<Prop>, ghost i: nat)
    requires Named(names, ps) && i < |ps| && ps[i].name in names && off == Offset(names, ps[i].name) &&
      value == ps[i].value
    requires |b.bytes| % 4 == 0 && Named(names, ps[..i]) && b.bytes == base + EmitProps(names, ps[..i])
    modifies b
    ensures |b.bytes| % 4 == 0 && Named(names, ps[..i + 1])
    ensures b.bytes == base + EmitProps(names, ps[..i + 1])
  {
    PropsGrow(names, ps[..i], ps[i]);
    assert ps[..i + 1] == ps[..i] + [ps[i]];
    ghost var before := EmitProps(names, ps[..i]);
    b.PushProp(off, value);
    Associate(base, before, EmitProp(off, value));
  }

  /** What the machine is. */
  method AddIdentity(b: Buffer, compatible: nat, model: nat, ghost names: seq<seq<byte>>, ghost ps: seq<Prop>)
    requires ps == RootProps() && Named(names, ps) && |b.bytes| % 4 == 0
    requires CompatibleName() in names && compatible == Offset(names, CompatibleName())
    requires ModelName() in names && model == Offset(names, ModelName())
    modifies b
    ensures |b.bytes| % 4 == 0 && Named(names, ps[..2])
    ensures b.bytes == old(b.bytes) + EmitProps(names, ps[..2])
  {
    ghost var base := b.bytes;
    AddProp(b, compatible, Ascii("mycpu,virt") + [0], names, base, ps, 0);
    AddProp(b, model, Ascii("mycpu-rv32") + [0], names, base, ps, 1);
  }

  method WriteRootProps(b: Buffer, compatible: nat, model: nat, addressCells: nat, sizeCells: nat,
                        ghost names: seq<seq<byte>>)
    requires Named(names, RootProps()) && |b.bytes| % 4 == 0
    requires CompatibleName() in names && compatible == Offset(names, CompatibleName())
    requires ModelName() in names && model == Offset(names, ModelName())
    requires AddressCellsName() in names && addressCells == Offset(names, AddressCellsName())
    requires SizeCellsName() in names && sizeCells == Offset(names, SizeCellsName())
    modifies b
    ensures b.bytes == old(b.bytes) + EmitProps(names, RootProps()) && |b.bytes| % 4 == 0
  {
    ghost var base, ps := b.bytes, RootProps();
    AddIdentity(b, compatible, model, names, ps);
    AddProp(b, addressCells, BE32(1), names, base, ps, 2);
    AddProp(b, sizeCells, BE32(1), names, base, ps, 3);
    assert ps[..4] == ps;
  }

  lemma LeafNode(names: seq<seq<byte>>, n: Node)
    requires Good(names, n) && n.children == []
    ensures EmitNode(names, n) == EmitBegin(n.name) + EmitProps(names, n.props) + BE32(END_NODE)
  {
  }

  /** The end of a node without children. */
  method CloseLeaf(b: Buffer, ghost names: seq<seq<byte>>, ghost n: Node, ghost base: seq<byte>)
    requires Good(names, n) && n.children == [] && |b.bytes| % 4 == 0 && b.bytes == base + EmitProps(names, n.props)
    modifies b
    ensures |b.bytes| % 4 == 0
    ensures forall first :: base == first + EmitBegin(n.name) ==> b.bytes == first + EmitNode(names, n)
  {
    b.PushEndNode();
    LeafNode(names, n);
    forall first | base == first + EmitBegin(n.name)
      ensures b.bytes == first + EmitNode(names, n)
    {
      AssociateFour(first, EmitBegin(n.name), EmitProps(names, n.props), BE32(END_NODE));
    }
  }

  lemma AssociateFour(a: seq<byte>, b: seq<byte>, c: seq<byte>, d: seq<byte>)
    ensures ((a + b) + c) + d == a + ((b + c) + d)
  {
  }

  method WriteChosen(b: Buffer, off: nat, bootargs: Option<seq<byte>>, ghost names: seq<seq<byte>>, ghost n: Node)
    requires n == Chosen(bootargs) && Good(names, n) && |b.bytes| % 4 == 0
    requires BootargsName() in names && off == Offset(names, BootargsName())
    modifies b
    ensures b.bytes == old(b.bytes) + EmitNode(names, n) && |b.bytes| % 4 == 0
  {
    b.PushBeginNode(Ascii("chosen"));
    ghost var base := b.bytes;
    if bootargs.Some? {
      AddProp(b, off, bootargs.value + [0], names, base, n.props, 0);
    }
    assert n.props[..|n.props|] == n.props;
    CloseLeaf(b, names, n, base);
  }

  method WriteMemory(b: Buffer, deviceType: nat, reg: nat, size: u32, ghost names: seq<seq<byte>>, ghost n: Node)
    requires n == MemoryNode(size) && Good(names, n) && |b.bytes| % 4 == 0
    requires DeviceTypeName() in names && deviceType == Offset(names, DeviceTypeName())
    requires RegName() in names && reg == Offset(names, RegName())
    modifies b
    ensures b.bytes == old(b.bytes) + EmitNode(names, n) && |b.bytes| % 4 == 0
  {
    b.PushBeginNode(Ascii("memory@80000000"));
    ghost var base, ps := b.bytes, n.props;
    AddProp(b, deviceType, Ascii("memory") + [0], names, base, ps, 0);
    AddProp(b, reg, BE32(0x8000_0000) + BE32(size), names, base, ps, 1);
    assert ps[..2] == ps;
    CloseLeaf(b, names, n, base);
  }

  lemma {:induction false} WordsGrow(vs: seq<nat>, v: nat)
    ensures Words(vs + [v]) == Words(vs) + BE32(v)
  {
    if vs == [] {
      assert [v][1..] == [];
      assert [] + [v] == [v];
    } else {
      assert (vs + [v])[1..] == vs[1..] + [v];
      WordsGrow(vs[1..], v);
    }
  }

  lemma WordsTake(vs: seq<nat>, i: nat, v: nat)
    requires i < |vs| && v == vs[i]
    ensures Words(vs[..i + 1]) == Words(vs[..i]) + BE32(v)
  {
    var before := vs[..i];
    assert vs[..i + 1] == before + [v];
    WordsGrow(before, v);
  }

  // `Words` as a value, so that the header is followed word by word without its definition.

  type WordsFunction = seq<nat> -> seq<byte>

  ghost predicate IsWords(f: WordsFunction) { forall vs {:trigger Words(vs)} :: f(vs) == Words(vs) }

  lemma WordsAsValue() returns (f: WordsFunction)
    ensures IsWords(f)
  {
    f := Words;
  }

  lemma WordsNext(words: WordsFunction, vs: seq<nat>, i: nat, v: nat)
    requires IsWords(words) && i < |vs| && v == vs[i]
    ensures words(vs[..i + 1]) == words(vs[..i]) + BE32(v)
  {
    WordsTake(vs, i, v);
  }

  method AddWord(out: Buffer, v: nat, ghost i: nat, ghost vs: seq<nat>, ghost words: WordsFunction)
    requires IsWords(words) && i < |vs| && v == vs[i] && out.bytes == words(vs[..i])
    modifies out
    ensures out.bytes == words(vs[..i + 1])
  {
    WordsNext(words, vs, i, v);
    out.PushBE32(v);
  }

  lemma HeaderParts(structure: nat, strings: nat, words: WordsFunction) returns (vs: seq<nat>)
    requires IsWords(words)
    ensures |vs| == 10 && words(vs[..0]) == [] && words(vs[..10]) == Header(structure, strings)
    ensures vs[0] == MAGIC && vs[1] == 56 + structure + strings && vs[2] == 56 && vs[3] == 56 + structure && vs[4] == 40
    ensures vs[5] == 17 && vs[6] == 16 && vs[7] == 0 && vs[8] == strings && vs[9] == structure
  {
    vs := HeaderWords(structure, strings);
    assert vs[..10] == vs && words(vs) == Words(vs) && words(vs[..0]) == Words(vs[..0]);
  }

  /** Magic, total size and the three offsets. */
  method AddPlaces(out: Buffer, structure: nat, strings: nat, ghost vs: seq<nat>, ghost words: WordsFunction)
    requires IsWords(words) && |vs| == 10 && out.bytes == words(vs[..0])
    requires vs[0] == MAGIC && vs[1] == 56 + structure + strings
    requires vs[2] == 56 && vs[3] == 56 + structure && vs[4] == 40
    modifies out
    ensures out.bytes == words(vs[..5])
  {
    AddWord(out, MAGIC, 0, vs, words);
    AddWord(out, 56 + structure + strings, 1, vs, words);
    AddWord(out, 56, 2, vs, words);
    AddWord(out, 56 + structure, 3, vs, words);
    AddWord(out, 40, 4, vs, words);
  }

  method WriteHeader(structure: nat, strings: nat) returns (out: Buffer)
    ensures fresh(out) && out.bytes == Header(structure, strings)
  {
    ghost var words := WordsAsValue();
    ghost var vs := HeaderParts(structure, strings, words);
    out := new Buffer();
    AddPlaces(out, structure, strings, vs, words);
    AddWord(out, 17, 5, vs, words);
    AddWord(out, 16, 6, vs, words);
    AddWord(out, 0, 7, vs, words);
    AddWord(out, strings, 8, vs, words);
    AddWord(out, structure, 9, vs, words);
  }

  datatype Offsets = Offsets(
    compatible: nat, model: nat, addressCells: nat, sizeCells: nat, bootargs: nat, deviceType: nat, reg: nat)

  /** Every property name the generator uses has the offset it was given. */
  predicate Located(names: seq<seq<byte>>, o: Offsets) {
    CompatibleName() in names && o.compatible == Offset(names, CompatibleName()) &&
    ModelName() in names && o.model == Offset(names, ModelName()) &&
    AddressCellsName() in names && o.addressCells == Offset(names, AddressCellsName()) &&
    SizeCellsName() in names && o.sizeCells == Offset(names, SizeCellsName()) &&
    BootargsName() in names && o.bootargs == Offset(names, BootargsName()) &&
    DeviceTypeName() in names && o.deviceType == Offset(names, DeviceTypeName()) &&
    RegName() in names && o.reg == Offset(names, RegName())
  }

  method WriteStrings(ghost names: seq<seq<byte>>) returns (strings: Buffer, o: Offsets)
    requires InTableOrder(names)
    ensures fresh(strings) && strings.bytes == Table(names) && Located(names, o)
  {
    strings := new Buffer();
    var compatible := AddName(strings, CompatibleName(), names, 0);
    var model := AddName(strings, ModelName(), names, 1);
    var addressCells := AddName(strings, AddressCellsName(), names, 2);
    var sizeCells := AddName(strings, SizeCellsName(), names, 3);
    var bootargs := AddName(strings, BootargsName(), names, 4);
    var deviceType := AddName(strings, DeviceTypeName(), names, 5);
    var reg := AddName(strings, RegName(), names, 6);
    o := Offsets(compatible, model, addressCells, sizeCells, bootargs, deviceType, reg);
    assert names[..7] == names;
  }

  lemma NodeOfParts(names: seq<seq<byte>>, n: Node, a: Node, b: Node, s: seq<byte>)
    requires Good(names, n) && n.children == [a, b] && Good(names, a) && Good(names, b)
    requires s == EmitBegin(n.name) + EmitProps(names, n.props) + EmitNode(names, a) + EmitNode(names, b) +
      BE32(END_NODE) + BE32(END)
    ensures s == Structure(names, n)
  {
    TwoNodes(names, a, b);
    RegroupPair(EmitBegin(n.name) + EmitProps(names, n.props), EmitNode(names, a), EmitNode(names, b),
                BE32(END_NODE) + BE32(END));
    RegroupEnd(EmitBegin(n.name) + EmitProps(names, n.props), EmitNodes(names, n.children), BE32(END_NODE), BE32(END));
  }

  lemma RegroupPair(x: seq<byte>, a: seq<byte>, b: seq<byte>, y: seq<byte>)
    ensures x + a + b + y == x + (a + b) + y
  {
  }

  lemma RegroupEnd(x: seq<byte>, ab: seq<byte>, y: seq<byte>, z: seq<byte>)
    ensures x + ab + (y + z) == (x + ab + y) + z
  {
  }

  method WriteNodes(b: Buffer, size: u32, bootargs: Option<seq<byte>>, o: Offsets, ghost names: seq<seq<byte>>,
                    ghost chosen: Node, ghost memory: Node)
    requires chosen == Chosen(bootargs) && memory == MemoryNode(size) && Located(names, o)
    requires Good(names, chosen) && Good(names, memory) && Named(names, RootProps()) && b.bytes == []
    modifies b
    ensures b.bytes == EmitBegin([]) + EmitProps(names, RootProps()) + EmitNode(names, chosen) + EmitNode(names, memory)
    ensures |b.bytes| % 4 == 0
  {
    WriteRoot(b, o, names);
    WriteChosen(b, o.bootargs, bootargs, names, chosen);
    WriteMemory(b, o.deviceType, o.reg, size, names, memory);
  }

  method WriteRoot(b: Buffer, o: Offsets, ghost names: seq<seq<byte>>)
    requires Located(names, o) && Named(names, RootProps()) && b.bytes == []
    modifies b
    ensures b.bytes == EmitBegin([]) + EmitProps(names, RootProps()) && |b.bytes| % 4 == 0
  {
    b.PushBeginNode([]);
    assert b.bytes == EmitBegin([]);
    WriteRootProps(b, o.compatible, o.model, o.addressCells, o.sizeCells, names);
  }

  method WriteStructure(size: u32, bootargs: Option<seq<byte>>, o: Offsets, ghost names: seq<seq<byte>>, ghost n: Node)
      returns (b: Buffer)
    requires n == LinuxTree(size, bootargs) && Good(names, n) && Located(names, o)
    ensures fresh(b) && b.bytes == Structure(names, n)
  {
    ghost var chosen, memory := Chosen(bootargs), MemoryNode(size);
    PairLength(names, n, chosen, memory);
    b := new Buffer();
    WriteNodes(b, size, bootargs, o, names, chosen, memory);
    CloseTree(b, names, n, chosen, memory);
  }

  method CloseTree(b: Buffer, ghost names: seq<seq<byte>>, ghost n: Node, ghost x: Node, ghost y: Node)
    requires Good(names, n) && n.children == [x, y] && Good(names, x) && Good(names, y) && |b.bytes| % 4 == 0
    requires b.bytes == EmitBegin(n.name) + EmitProps(names, n.props) + EmitNode(names, x) + EmitNode(names, y)
    modifies b
    ensures b.bytes == Structure(names, n)
  {
    b.PushEndNode();
    b.PushBE32(END);
    NodeOfParts(names, n, x, y, b.bytes);
    b.Align4();
  }

  method WriteBlob(size: u32, bootargs: Option<seq<byte>>, ghost names: seq<seq<byte>>, ghost n: Node)
      returns (out: seq<byte>)
    requires InTableOrder(names) && n == LinuxTree(size, bootargs) && Good(names, n)
    ensures out == Blob(names, n)
  {
    var strings, o := WriteStrings(names);
    var structure := WriteStructure(size, bootargs, o, names, n);
    var blob := WriteHeader(|structure.bytes|, |strings.bytes|);
    blob.Extend(Zeros(16));
    blob.Extend(structure.bytes);
    blob.Extend(strings.bytes);
    out := blob.bytes;
  }

  /** The blob handed to Linux is the layout of the intended tree. */
  method GenerateMinimalLinuxDtb(size: u32, bootargs: Option<seq<byte>>) returns (out: seq<byte>)
    ensures Good(Names(), LinuxTree(size, bootargs)) && out == Blob(Names(), LinuxTree(size, bootargs))
  {
    NamesDistinct();
    TreeGood(Names(), LinuxTree(size, bootargs), size, bootargs);
    out := WriteBlob(size, bootargs, Names(), LinuxTree(size, bootargs));
  }
}
