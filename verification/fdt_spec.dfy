/** Flattened devicetrees: how a tree is laid out as a blob, and how a blob is read back.
    The reader follows sections 5.2 to 5.5 of the Devicetree Specification v0.4. */
module FdtSpec {
  import opened Memory
  import B = Bits

  const MAGIC: nat := 0xD00D_FEED
  const BEGIN_NODE: nat := 1
  const END_NODE: nat := 2
  const PROP: nat := 3
  const NOP: nat := 4
  const END: nat := 9

  datatype Prop = Prop(name: seq<byte>, value: seq<byte>)

  datatype Node = Node(name: seq<byte>, props: seq<Prop>, children: seq<Node>)

  // ---- Bytes ----

  /** The big-endian bytes of the low 32 bits. */
  function BE32(v: nat): (r: seq<byte>)
    ensures |r| == 4
  {
    [v / 0x100_0000 % 256, v / 0x1_0000 % 256, v / 0x100 % 256, v % 256]
  }

  function FromBE32(s: seq<byte>): nat
    requires |s| >= 4
  {
    var a: nat, b: nat, c: nat, d: nat := s[0], s[1], s[2], s[3];
    ((a * 256 + b) * 256 + c) * 256 + d
  }

  lemma BERoundTrip(v: nat)
    ensures FromBE32(BE32(v)) == v % 0x1_0000_0000
  {
    var a, b, c := v / 0x100, v / 0x1_0000, v / 0x100_0000;
    B.DivDiv(v, 0x100, 0x100);
    B.DivDiv(v, 0x1_0000, 0x100);
    assert v == a * 256 + v % 256 && a == b * 256 + a % 256 && b == c * 256 + b % 256;
    assert c == c / 256 * 256 + c % 256;
    B.ModUnique(v, c / 256, FromBE32(BE32(v)), 0x1_0000_0000);
  }

  function Zeros(n: nat): (r: seq<byte>)
    ensures |r| == n && forall i :: 0 <= i < n ==> r[i] == 0
  {
    seq(n, _ => 0)
  }

  /** How many bytes are missing to a multiple of four. */
  function Gap(n: nat): (r: nat)
    ensures r < 4 && (n + r) % 4 == 0
  {
    (4 - n % 4) % 4
  }

  lemma GapShrinks(n: nat)
    ensures Gap(n) == 0 <==> n % 4 == 0
    ensures n % 4 != 0 ==> Gap(n + 1) == Gap(n) - 1
  {
  }

  lemma ZerosNext(s: seq<byte>, n: nat)
    ensures s + Zeros(n) + [0] == s + Zeros(n + 1)
  {
  }

  function Padded(s: seq<byte>): (r: seq<byte>)
    ensures |r| == |s| + Gap(|s|)
  {
    s + Zeros(Gap(|s|))
  }

  predicate NoNul(s: seq<byte>) { forall i :: 0 <= i < |s| ==> s[i] != 0 }

  // ---- Strings block ----

  function Table(names: seq<seq<byte>>): seq<byte> {
    if names == [] then [] else names[0] + [0] + Table(names[1..])
  }

  function Offset(names: seq<seq<byte>>, name: seq<byte>): nat
    requires name in names
  {
    if names[0] == name then 0 else |names[0]| + 1 + Offset(names[1..], name)
  }

  // ---- Structure block ----

  function EmitBegin(name: seq<byte>): seq<byte> { BE32(BEGIN_NODE) + Padded(name + [0]) }

  function EmitProp(nameoff: nat, value: seq<byte>): seq<byte> {
    BE32(PROP) + BE32(|value|) + BE32(nameoff) + Padded(value)
  }

  predicate Named(names: seq<seq<byte>>, ps: seq<Prop>) { forall p :: p in ps ==> p.name in names }

  function EmitProps(names: seq<seq<byte>>, ps: seq<Prop>): seq<byte>
    requires Named(names, ps)
  {
    if ps == [] then [] else EmitProp(Offset(names, ps[0].name), ps[0].value) + EmitProps(names, ps[1..])
  }

  /** Node names are strings, property names are in the table. */
  predicate Good(names: seq<seq<byte>>, n: Node)
    decreases n, 0
  {
    NoNul(n.name) && Named(names, n.props) && AllGood(names, n.children)
  }

  predicate AllGood(names: seq<seq<byte>>, ns: seq<Node>)
    decreases ns, 1
  {
    ns == [] || (Good(names, ns[0]) && AllGood(names, ns[1..]))
  }

  function EmitNode(names: seq<seq<byte>>, n: Node): seq<byte>
    requires Good(names, n)
    decreases n, 0
  {
    EmitBegin(n.name) + EmitProps(names, n.props) + EmitNodes(names, n.children) + BE32(END_NODE)
  }

  function EmitNodes(names: seq<seq<byte>>, ns: seq<Node>): seq<byte>
    requires AllGood(names, ns)
    decreases ns, 1
  {
    if ns == [] then [] else EmitNode(names, ns[0]) + EmitNodes(names, ns[1..])
  }

  // ---- Blob ----

  function Structure(names: seq<seq<byte>>, root: Node): seq<byte>
    requires Good(names, root)
  {
    EmitNode(names, root) + BE32(END)
  }

  function Words(vs: seq<nat>): (r: seq<byte>)
    ensures |r| == 4 * |vs|
  {
    if vs == [] then [] else BE32(vs[0]) + Words(vs[1..])
  }

  function HeaderWords(structure: nat, strings: nat): seq<nat> {
    [MAGIC, 56 + structure + strings, 56, 56 + structure, 40, 17, 16, 0, strings, structure]
  }

  function Header(structure: nat, strings: nat): (r: seq<byte>)
    ensures |r| == 40
  {
    Words(HeaderWords(structure, strings))
  }

  /** Header, an empty reservation map, structure, strings. */
  function Blob(names: seq<seq<byte>>, root: Node): seq<byte>
    requires Good(names, root)
  {
    var structure, strings := Structure(names, root), Table(names);
    Header(|structure|, |strings|) + Zeros(16) + structure + strings
  }

  // ---- Reading ----

  function Word(s: seq<byte>): Option<nat> { if |s| < 4 then None else Some(FromBE32(s)) }

  /** The string up to the first NUL. */
  function CString(s: seq<byte>): (r: Option<seq<byte>>)
    ensures r.Some? ==> |r.value| < |s|
  {
    if s == [] then None
    else if s[0] == 0 then Some([])
    else match CString(s[1..])
      case None => None
      case Some(rest) => Some([s[0]] + rest)
  }

  datatype Parsed<T> = Failed | Parsed(value: T, rest: seq<byte>)

  /** Bytes and their padding. */
  function TakePadded(s: seq<byte>, n: nat): (r: Parsed<seq<byte>>)
    ensures r.Parsed? ==> |r.rest| <= |s|
  {
    if n + Gap(n) > |s| then Failed else Parsed(s[..n], s[n + Gap(n)..])
  }

  function ParseProp(strings: seq<byte>, s: seq<byte>): (r: Parsed<Prop>)
    ensures r.Parsed? ==> |r.rest| < |s|
  {
    if |s| < 12 || FromBE32(s) != PROP then Failed
    else
      var len, nameoff := FromBE32(s[4..]), FromBE32(s[8..]);
      var name := if nameoff > |strings| then None else CString(strings[nameoff..]);
      var value := TakePadded(s[12..], len);
      if name.None? || value.Failed? then Failed else Parsed(Prop(name.value, value.value), value.rest)
  }

  function ParseProps(strings: seq<byte>, s: seq<byte>): (r: Parsed<seq<Prop>>)
    ensures r.Parsed? ==> |r.rest| <= |s|
    decreases |s|
  {
    if Word(s) == Some(NOP) then ParseProps(strings, s[4..])
    else if Word(s) != Some(PROP) then Parsed([], s)
    else match ParseProp(strings, s)
      case Failed => Failed
      case Parsed(p, rest) =>
        match ParseProps(strings, rest)
        case Failed => Failed
        case Parsed(ps, rest') => Parsed([p] + ps, rest')
  }

  function ParseBegin(s: seq<byte>): (r: Parsed<seq<byte>>)
    ensures r.Parsed? ==> |r.rest| < |s|
  {
    if Word(s) != Some(BEGIN_NODE) then Failed
    else match CString(s[4..])
      case None => Failed
      case Some(name) =>
        var taken := TakePadded(s[4..], |name| + 1);
        if taken.Failed? then Failed else Parsed(name, taken.rest)
  }

  function ParseNode(strings: seq<byte>, s: seq<byte>): (r: Parsed<Node>)
    ensures r.Parsed? ==> |r.rest| < |s|
    decreases |s|, 0
  {
    match ParseBegin(s)
    case Failed => Failed
    case Parsed(name, s1) =>
      match ParseProps(strings, s1)
      case Failed => Failed
      case Parsed(ps, s2) =>
        match ParseNodes(strings, s2)
        case Failed => Failed
        case Parsed(ns, s3) =>
          if Word(s3) == Some(END_NODE) then Parsed(Node(name, ps, ns), s3[4..]) else Failed
  }

  function ParseNodes(strings: seq<byte>, s: seq<byte>): (r: Parsed<seq<Node>>)
    ensures r.Parsed? ==> |r.rest| <= |s|
    decreases |s|, 1
  {
    if Word(s) == Some(NOP) then ParseNodes(strings, s[4..])
    else if Word(s) != Some(BEGIN_NODE) then Parsed([], s)
    else match ParseNode(strings, s)
      case Failed => Failed
      case Parsed(n, rest) =>
        match ParseNodes(strings, rest)
        case Failed => Failed
        case Parsed(ns, rest') => Parsed([n] + ns, rest')
  }

  /** Pairs of 64-bit numbers up to a pair of zeros. */
  function ParseReserved(s: seq<byte>): Option<seq<(nat, nat, nat, nat)>>
    decreases |s|
  {
    if |s| < 16 then None
    else
      var e := (FromBE32(s), FromBE32(s[4..]), FromBE32(s[8..]), FromBE32(s[12..]));
      if e == (0, 0, 0, 0) then Some([])
      else match ParseReserved(s[16..])
        case None => None
        case Some(rest) => Some([e] + rest)
  }

  datatype Tree = Tree(bootCpu: nat, reserved: seq<(nat, nat, nat, nat)>, root: Node)

  function ReadWords(s: seq<byte>, n: nat): (r: seq<nat>)
    requires |s| >= 4 * n
    ensures |r| == n
    decreases |s|, n
  {
    if n == 0 then [] else [FromBE32(s)] + ReadWords(s[4..], n - 1)
  }

  /** The ten header words: magic, total size, offsets of structure, strings and reservation map,
      version, last compatible version, boot hart, sizes of strings and structure. */
  predicate HeaderFits(h: seq<nat>, size: nat)
    requires |h| == 10
  {
    h[0] == MAGIC && h[1] == size && h[5] >= 17 && h[6] <= 17 &&
    h[4] % 8 == 0 && h[4] <= size && h[2] % 4 == 0 && h[2] + h[9] <= size && h[3] + h[8] <= size
  }

  function ParseBlob(blob: seq<byte>): Option<Tree> {
    if |blob| < 40 then None else ParseBody(blob, ReadWords(blob, 10))
  }

  function ParseBody(blob: seq<byte>, h: seq<nat>): Option<Tree>
    requires |h| == 10
  {
    if !HeaderFits(h, |blob|) then None
    else
      var reserved := ParseReserved(blob[h[4]..]);
      match ParseNode(blob[h[3]..h[3] + h[8]], blob[h[2]..h[2] + h[9]])
      case Failed => None
      case Parsed(root, rest) =>
        if reserved.None? || Word(rest) != Some(END) then None else Some(Tree(h[7], reserved.value, root))
  }

  // ---- Round trip ----

  lemma WordOf(v: nat, tail: seq<byte>)
    requires v < 0x1_0000_0000
    ensures Word(BE32(v) + tail) == Some(v) && (BE32(v) + tail)[4..] == tail
  {
    BERoundTrip(v);
  }

  lemma {:induction false} CStringOf(name: seq<byte>, tail: seq<byte>)
    requires NoNul(name)
    ensures CString(name + [0] + tail) == Some(name)
  {
    var s := name + [0] + tail;
    if name == [] {
      assert s[0] == 0;
    } else {
      assert s[0] == name[0] && s[1..] == name[1..] + [0] + tail;
      CStringOf(name[1..], tail);
      assert [name[0]] + name[1..] == name;
    }
  }

  lemma {:induction false} TableLookup(names: seq<seq<byte>>, name: seq<byte>)
    requires name in names && NoNul(name)
    ensures Offset(names, name) <= |Table(names)| && CString(Table(names)[Offset(names, name)..]) == Some(name)
  {
    if names[0] == name {
      CStringOf(name, Table(names[1..]));
      assert Table(names)[0..] == name + [0] + Table(names[1..]);
    } else {
      TableLookup(names[1..], name);
      var head, rest := names[0] + [0], Table(names[1..]);
      var k := Offset(names[1..], name);
      assert Table(names) == head + rest && (head + rest)[|head| + k..] == rest[k..];
    }
  }

  lemma TakePaddedOf(value: seq<byte>, tail: seq<byte>)
    ensures TakePadded(Padded(value) + tail, |value|) == Parsed(value, tail)
  {
    var s, n := Padded(value) + tail, |value|;
    assert s[..n] == value && s[n + Gap(n)..] == tail;
  }

  lemma BeginRoundTrip(name: seq<byte>, tail: seq<byte>)
    requires NoNul(name)
    ensures ParseBegin(EmitBegin(name) + tail) == Parsed(name, tail)
  {
    var padded := Padded(name + [0]);
    assert EmitBegin(name) + tail == BE32(BEGIN_NODE) + (padded + tail);
    WordOf(BEGIN_NODE, padded + tail);
    assert padded + tail == name + [0] + (Zeros(Gap(|name| + 1)) + tail);
    CStringOf(name, Zeros(Gap(|name| + 1)) + tail);
    TakePaddedOf(name + [0], tail);
  }

  /** What a reader can be given: names it can find, sizes that fit 32 bits. */
  predicate Sized(names: seq<seq<byte>>, p: Prop) {
    p.name in names && NoNul(p.name) && |p.value| < 0x1_0000_0000 && |Table(names)| < 0x1_0000_0000
  }

  lemma PropFromParts(strings: seq<byte>, s: seq<byte>, p: Prop, off: nat, tail: seq<byte>)
    requires |s| >= 12 && FromBE32(s) == PROP && FromBE32(s[4..]) == |p.value| && FromBE32(s[8..]) == off
    requires off <= |strings| && CString(strings[off..]) == Some(p.name)
    requires s[12..] == Padded(p.value) + tail
    ensures ParseProp(strings, s) == Parsed(p, tail)
  {
    TakePaddedOf(p.value, tail);
  }

  lemma ThreeWords(a: nat, b: nat, c: nat, tail: seq<byte>)
    requires a < 0x1_0000_0000 && b < 0x1_0000_0000 && c < 0x1_0000_0000
    ensures var s := BE32(a) + BE32(b) + BE32(c) + tail;
      FromBE32(s) == a && FromBE32(s[4..]) == b && FromBE32(s[8..]) == c && s[12..] == tail
  {
    var s := BE32(a) + BE32(b) + BE32(c) + tail;
    assert s == BE32(a) + s[4..] && s[4..] == BE32(b) + s[8..] && s[8..] == BE32(c) + tail;
    WordOf(a, s[4..]);
    WordOf(b, s[8..]);
    WordOf(c, tail);
  }

  lemma PropRoundTrip(names: seq<seq<byte>>, p: Prop, tail: seq<byte>)
    requires Sized(names, p)
    ensures ParseProp(Table(names), EmitProp(Offset(names, p.name), p.value) + tail) == Parsed(p, tail)
  {
    var off, padded := Offset(names, p.name), Padded(p.value);
    TableLookup(names, p.name);
    ThreeWords(PROP, |p.value|, off, padded + tail);
    assert EmitProp(off, p.value) + tail == BE32(PROP) + BE32(|p.value|) + BE32(off) + (padded + tail);
    PropFromParts(Table(names), EmitProp(off, p.value) + tail, p, off, tail);
  }

  /** The tail does not start with a property or a NOP. */
  predicate NoMoreProps(s: seq<byte>) { Word(s) != Some(PROP) && Word(s) != Some(NOP) }

  predicate AllSized(names: seq<seq<byte>>, ps: seq<Prop>) { forall p :: p in ps ==> Sized(names, p) }

  lemma StartsWithProp(names: seq<seq<byte>>, off: nat, value: seq<byte>, more: seq<byte>)
    ensures Word(EmitProp(off, value) + more) == Some(PROP)
  {
    var s := EmitProp(off, value) + more;
    assert s == BE32(PROP) + s[4..];
    WordOf(PROP, s[4..]);
  }

  lemma SizedAreNamed(names: seq<seq<byte>>, ps: seq<Prop>)
    requires AllSized(names, ps)
    ensures Named(names, ps)
  {
  }

  lemma {:induction false} PropsRoundTrip(names: seq<seq<byte>>, ps: seq<Prop>, tail: seq<byte>)
    requires AllSized(names, ps) && NoMoreProps(tail) && Named(names, ps)
    ensures ParseProps(Table(names), EmitProps(names, ps) + tail) == Parsed(ps, tail)
  {
    if ps == [] {
      assert [] + tail == tail;
    } else {
      assert ps[0] in ps;
      var first, more := EmitProp(Offset(names, ps[0].name), ps[0].value), EmitProps(names, ps[1..]) + tail;
      assert EmitProps(names, ps) + tail == first + more;
      PropRoundTrip(names, ps[0], more);
      PropsRoundTrip(names, ps[1..], tail);
      StartsWithProp(names, Offset(names, ps[0].name), ps[0].value, more);
      assert [ps[0]] + ps[1..] == ps;
    }
  }

  predicate Fit(names: seq<seq<byte>>, n: Node)
    decreases n, 0
  {
    NoNul(n.name) && AllSized(names, n.props) && AllFit(names, n.children)
  }

  predicate AllFit(names: seq<seq<byte>>, ns: seq<Node>)
    decreases ns, 1
  {
    ns == [] || (Fit(names, ns[0]) && AllFit(names, ns[1..]))
  }

  lemma {:induction false} FitIsGood(names: seq<seq<byte>>, n: Node)
    requires Fit(names, n)
    ensures Good(names, n)
    decreases n, 0
  {
    AllFitIsGood(names, n.children);
  }

  lemma {:induction false} AllFitIsGood(names: seq<seq<byte>>, ns: seq<Node>)
    requires AllFit(names, ns)
    ensures AllGood(names, ns)
    decreases ns, 1
  {
    if ns != [] {
      FitIsGood(names, ns[0]);
      AllFitIsGood(names, ns[1..]);
    }
  }

  /** The tail ends a list of child nodes. */
  predicate NoMoreNodes(s: seq<byte>) { Word(s) == Some(END_NODE) }

  lemma {:induction false} NodeRoundTrip(names: seq<seq<byte>>, n: Node, tail: seq<byte>)
    requires Fit(names, n)
    ensures Good(names, n) && ParseNode(Table(names), EmitNode(names, n) + tail) == Parsed(n, tail)
    decreases n, 0
  {
    FitIsGood(names, n);
    var s3 := BE32(END_NODE) + tail;
    var s2 := EmitNodes(names, n.children) + s3;
    var s1 := EmitProps(names, n.props) + s2;
    assert EmitNode(names, n) + tail == EmitBegin(n.name) + s1;
    BeginRoundTrip(n.name, s1);
    WordOf(END_NODE, tail);
    NodesStart(names, n.children, s3);
    PropsRoundTrip(names, n.props, s2);
    NodesRoundTrip(names, n.children, s3);
    NodeFromParts(Table(names), n, EmitNode(names, n) + tail, s1, s2, s3, tail);
  }

  lemma NodeFromParts(strings: seq<byte>, n: Node, s: seq<byte>, s1: seq<byte>, s2: seq<byte>, s3: seq<byte>,
                      tail: seq<byte>)
    requires ParseBegin(s) == Parsed(n.name, s1) && ParseProps(strings, s1) == Parsed(n.props, s2)
    requires ParseNodes(strings, s2) == Parsed(n.children, s3)
    requires Word(s3) == Some(END_NODE) && s3[4..] == tail
    ensures ParseNode(strings, s) == Parsed(n, tail)
  {
  }

  lemma StartsWithBegin(names: seq<seq<byte>>, n: Node, more: seq<byte>)
    requires Good(names, n)
    ensures Word(EmitNode(names, n) + more) == Some(BEGIN_NODE)
  {
    var s := EmitNode(names, n) + more;
    assert s[..4] == BE32(BEGIN_NODE);
    assert s == BE32(BEGIN_NODE) + s[4..];
    WordOf(BEGIN_NODE, s[4..]);
  }

  /** A list of nodes and what ends it never looks like another property. */
  lemma NodesStart(names: seq<seq<byte>>, ns: seq<Node>, tail: seq<byte>)
    requires AllGood(names, ns) && NoMoreNodes(tail)
    ensures NoMoreProps(EmitNodes(names, ns) + tail)
  {
    if ns == [] {
      assert [] + tail == tail;
    } else {
      var first, rest := EmitNode(names, ns[0]), EmitNodes(names, ns[1..]);
      StartsWithBegin(names, ns[0], rest + tail);
      assert EmitNodes(names, ns) == first + rest;
      Associate(first, rest, tail);
    }
  }

  lemma Associate(a: seq<byte>, b: seq<byte>, c: seq<byte>)
    ensures (a + b) + c == a + (b + c)
  {
  }

  lemma FirstNode(names: seq<seq<byte>>, ns: seq<Node>, tail: seq<byte>) returns (s: seq<byte>, more: seq<byte>)
    requires ns != [] && AllGood(names, ns)
    ensures s == EmitNodes(names, ns) + tail && s == EmitNode(names, ns[0]) + more
    ensures more == EmitNodes(names, ns[1..]) + tail
  {
    more := EmitNodes(names, ns[1..]) + tail;
    s := EmitNode(names, ns[0]) + more;
  }

  lemma {:induction false} NodesRoundTrip(names: seq<seq<byte>>, ns: seq<Node>, tail: seq<byte>)
    requires AllFit(names, ns) && NoMoreNodes(tail)
    ensures AllGood(names, ns) && ParseNodes(Table(names), EmitNodes(names, ns) + tail) == Parsed(ns, tail)
    decreases ns, 1
  {
    AllFitIsGood(names, ns);
    if ns == [] {
      assert [] + tail == tail;
    } else {
      var s, more := FirstNode(names, ns, tail);
      NodeRoundTrip(names, ns[0], more);
      NodesRoundTrip(names, ns[1..], tail);
      StartsWithBegin(names, ns[0], more);
      NodesFromParts(Table(names), ns, s, more, tail);
    }
  }

  lemma NodesFromParts(strings: seq<byte>, ns: seq<Node>, s: seq<byte>, more: seq<byte>, tail: seq<byte>)
    requires ns != [] && Word(s) == Some(BEGIN_NODE)
    requires ParseNode(strings, s) == Parsed(ns[0], more) && ParseNodes(strings, more) == Parsed(ns[1..], tail)
    ensures ParseNodes(strings, s) == Parsed(ns, tail)
  {
    assert [ns[0]] + ns[1..] == ns;
  }

  // ---- The header ----

  /** Words read back as the numbers stored, in 32 bits. */
  lemma {:induction false} WordsRoundTrip(vs: seq<nat>, rest: seq<byte>)
    ensures |ReadWords(Words(vs) + rest, |vs|)| == |vs|
    ensures forall i :: 0 <= i < |vs| ==> ReadWords(Words(vs) + rest, |vs|)[i] == vs[i] % 0x1_0000_0000
  {
    if vs != [] {
      var s := Words(vs) + rest;
      assert s == BE32(vs[0]) + (Words(vs[1..]) + rest);
      assert s[4..] == Words(vs[1..]) + rest;
      BERoundTrip(vs[0]);
      WordsRoundTrip(vs[1..], rest);
    }
  }

  lemma NothingReserved(tail: seq<byte>)
    ensures ParseReserved(Zeros(16) + tail) == Some([])
  {
    var s := Zeros(16) + tail;
    assert forall i :: 0 <= i < 16 ==> s[i] == 0;
  }

  lemma BlobParts(names: seq<seq<byte>>, root: Node)
    requires Good(names, root)
    ensures var blob, structure, strings := Blob(names, root), Structure(names, root), Table(names);
      |blob| == 56 + |structure| + |strings| && blob[40..] == Zeros(16) + (structure + strings) &&
      blob[56..56 + |structure|] == structure && blob[56 + |structure|..56 + |structure| + |strings|] == strings &&
      blob == Header(|structure|, |strings|) + (Zeros(16) + structure + strings)
  {
  }

  lemma HeaderLeads(names: seq<seq<byte>>, root: Node, blob: seq<byte>, vs: seq<nat>)
    requires Good(names, root) && blob == Blob(names, root)
    requires vs == HeaderWords(|Structure(names, root)|, |Table(names)|)
    ensures |blob| == 56 + |Structure(names, root)| + |Table(names)|
    ensures forall i :: 0 <= i < 10 ==> ReadWords(blob, 10)[i] == vs[i] % 0x1_0000_0000
  {
    BlobParts(names, root);
    WordsRoundTrip(vs, Zeros(16) + Structure(names, root) + Table(names));
  }

  /** The total size in the header is the blob's length exactly when that fits 32 bits. */
  lemma TotalSizeIsLength(names: seq<seq<byte>>, root: Node, blob: seq<byte>)
    requires Good(names, root) && blob == Blob(names, root)
    ensures |blob| >= 40 && (ReadWords(blob, 10)[1] == |blob| <==> |blob| < 0x1_0000_0000)
  {
    var vs := HeaderWords(|Structure(names, root)|, |Table(names)|);
    HeaderLeads(names, root, blob, vs);
    HeaderLocates(blob, |Structure(names, root)|, |Table(names)|, vs);
    Fits32(|blob|, vs[1], ReadWords(blob, 10)[1]);
  }

  lemma Fits32(n: nat, v: nat, h: nat)
    requires v == n && h == v % 0x1_0000_0000
    ensures h == n <==> n < 0x1_0000_0000
  {
  }

  lemma StructureRoundTrip(names: seq<seq<byte>>, root: Node)
    requires Fit(names, root) && Good(names, root)
    ensures ParseNode(Table(names), Structure(names, root)) == Parsed(root, BE32(END)) && Word(BE32(END)) == Some(END)
  {
    NodeRoundTrip(names, root, BE32(END));
    assert BE32(END) + [] == BE32(END);
    WordOf(END, []);
  }

  lemma SmallWords(h: seq<nat>, vs: seq<nat>)
    requires |h| == |vs| && forall i :: 0 <= i < |vs| ==> vs[i] < 0x1_0000_0000 && h[i] == vs[i] % 0x1_0000_0000
    ensures h == vs
  {
  }

  lemma HeaderWordsSmall(structure: nat, strings: nat)
    requires 56 + structure + strings < 0x1_0000_0000
    ensures forall i :: 0 <= i < 10 ==> HeaderWords(structure, strings)[i] < 0x1_0000_0000
  {
  }

  lemma BodyFromParts(blob: seq<byte>, h: seq<nat>, root: Node, end: seq<byte>)
    requires |h| == 10 && HeaderFits(h, |blob|) && ParseReserved(blob[h[4]..]) == Some([])
    requires ParseNode(blob[h[3]..h[3] + h[8]], blob[h[2]..h[2] + h[9]]) == Parsed(root, end) && Word(end) == Some(END)
    ensures ParseBody(blob, h) == Some(Tree(h[7], [], root))
  {
  }

  lemma HeaderLocates(blob: seq<byte>, structure: nat, strings: nat, h: seq<nat>)
    requires |blob| == 56 + structure + strings && h == HeaderWords(structure, strings)
    ensures HeaderFits(h, |blob|) && h[7] == 0 && h[4] == 40
    ensures h[3] == 56 + structure && h[8] == strings && h[2] == 56 && h[9] == structure
  {
  }

  lemma BodyInPlace(blob: seq<byte>, structure: seq<byte>, strings: seq<byte>, h: seq<nat>, root: Node, end: seq<byte>)
    requires |h| == 10 && HeaderFits(h, |blob|) && h[4] == 40
    requires blob[h[2]..h[2] + h[9]] == structure && blob[h[3]..h[3] + h[8]] == strings
    requires blob[40..] == Zeros(16) + (structure + strings)
    requires ParseNode(strings, structure) == Parsed(root, end) && Word(end) == Some(END)
    ensures ParseBody(blob, h) == Some(Tree(h[7], [], root))
  {
    NothingReserved(structure + strings);
    BodyFromParts(blob, h, root, end);
  }

  lemma HeaderReadsBack(names: seq<seq<byte>>, root: Node, blob: seq<byte>, vs: seq<nat>)
    requires Good(names, root) && blob == Blob(names, root) && |blob| < 0x1_0000_0000
    requires vs == HeaderWords(|Structure(names, root)|, |Table(names)|)
    ensures ParseBlob(blob) == ParseBody(blob, vs)
  {
    HeaderLeads(names, root, blob, vs);
    HeaderWordsSmall(|Structure(names, root)|, |Table(names)|);
    SmallWords(ReadWords(blob, 10), vs);
  }

  lemma BodyRoundTrip(names: seq<seq<byte>>, root: Node, blob: seq<byte>, structure: seq<byte>, strings: seq<byte>,
                      vs: seq<nat>)
    requires Fit(names, root) && Good(names, root) && blob == Blob(names, root)
    requires structure == Structure(names, root) && strings == Table(names)
    requires vs == HeaderWords(|structure|, |strings|)
    ensures ParseBody(blob, vs) == Some(Tree(0, [], root))
  {
    BlobParts(names, root);
    StructureRoundTrip(names, root);
    HeaderLocates(blob, |structure|, |strings|, vs);
    BodyInPlace(blob, structure, strings, vs, root, BE32(END));
  }

  /** Main result: whatever the tree, reading its blob by the specification gives it back, nothing
      reserved and hart 0 booting; every offset, size, name reference and padding is consistent. */
  lemma BlobRoundTrip(names: seq<seq<byte>>, root: Node, blob: seq<byte>)
    requires Fit(names, root) && Good(names, root) && blob == Blob(names, root) && |blob| < 0x1_0000_0000
    ensures ParseBlob(blob) == Some(Tree(0, [], root))
  {
    var structure, strings := Structure(names, root), Table(names);
    var vs := HeaderWords(|structure|, |strings|);
    HeaderReadsBack(names, root, blob, vs);
    BodyRoundTrip(names, root, blob, structure, strings, vs);
  }
}
