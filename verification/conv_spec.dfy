/** Convolution and pooling over flattened tensors.  Numbers are an arbitrary type with the operations
    the kernels use, so what is fixed is which cells are combined, and in which order. */
module ConvSpec {
  import opened Memory
  import B = Bits

  datatype FloatOps<!F> = FloatOps(
    zero: F, negInf: F, add: (F, F) -> F, mul: (F, F) -> F, div: (F, F) -> F, greater: (F, F) -> bool,
    ofCount: nat -> F)

  /** Image, kernel, stride and padding, each as height and width. */
  datatype Shape = Shape(inH: nat, inW: nat, kh: nat, kw: nat, strideH: nat, strideW: nat, padH: nat, padW: nat)

  /** Everything positive, and the kernel fits the padded image. */
  predicate Fits(g: Shape) {
    g.inH > 0 && g.inW > 0 && g.kh > 0 && g.kw > 0 && g.strideH > 0 && g.strideW > 0 &&
    g.kh <= g.inH + 2 * g.padH && g.kw <= g.inW + 2 * g.padW
  }

  /** What a dispatcher hands to a kernel. */
  datatype Params = Params(shape: Shape, channelsIn: nat, channelsOut: nat)

  /** Each register packs a pair of 16-bit numbers, height or input count in the upper half; a zero
      where a size is needed is refused. */
  function Unpack(kernel: u32, stride: u32, padding: u32, dims: u32, channels: u32): Option<Params> {
    var g := Shape(dims / 0x1_0000, dims % 0x1_0000, kernel / 0x1_0000, kernel % 0x1_0000,
                   stride / 0x1_0000, stride % 0x1_0000, padding / 0x1_0000, padding % 0x1_0000);
    var cIn, cOut := channels / 0x1_0000, channels % 0x1_0000;
    if g.kh == 0 || g.kw == 0 || g.strideH == 0 || g.strideW == 0 || g.inH == 0 || g.inW == 0 || cIn == 0 || cOut == 0
    then None
    else Some(Params(g, cIn, cOut))
  }

  /** The pooling kernels' parameters: the same guards, but only the upper half of the channels counts. */
  function UnpackPool(kernel: u32, stride: u32, padding: u32, dims: u32, channels: u32): Option<Params> {
    var g := Shape(dims / 0x1_0000, dims % 0x1_0000, kernel / 0x1_0000, kernel % 0x1_0000,
                   stride / 0x1_0000, stride % 0x1_0000, padding / 0x1_0000, padding % 0x1_0000);
    if g.kh == 0 || g.kw == 0 || g.strideH == 0 || g.strideW == 0 || g.inH == 0 || g.inW == 0 ||
      channels / 0x1_0000 == 0
    then None
    else Some(Params(g, channels / 0x1_0000, channels / 0x1_0000))
  }

  function OutH(g: Shape): (r: nat)
    requires Fits(g)
    ensures r > 0
  {
    (g.inH + 2 * g.padH - g.kh) / g.strideH + 1
  }

  function OutW(g: Shape): (r: nat)
    requires Fits(g)
    ensures r > 0
  {
    (g.inW + 2 * g.padW - g.kw) / g.strideW + 1
  }

  /** One output dimension as the kernels compute it, in 64-bit unsigned arithmetic. */
  function MachineOut(size: nat, pad: nat, kernel: nat, stride: nat): nat
    requires stride > 0
  {
    (size + 2 * pad - kernel) % 0x1_0000_0000_0000_0000 / stride + 1
  }

  /** Window positions that stay on the padded image. */
  predicate Position(size: nat, pad: nat, kernel: nat, stride: nat, i: nat) {
    i * stride + kernel <= size + 2 * pad
  }

  /** For 16-bit sizes the machine's count is the number of window positions if and only if the kernel is
      no larger than the padded image; for a larger one the subtraction goes below zero, there is no
      position at all, and the count that comes out is beyond any tensor. */
  lemma MachineOutExact(size: nat, pad: nat, kernel: nat, stride: nat)
    requires size < 0x1_0000 && pad < 0x1_0000 && 0 < kernel < 0x1_0000 && 0 < stride < 0x1_0000
    ensures kernel <= size + 2 * pad <==>
      forall i: nat :: i < MachineOut(size, pad, kernel, stride) <==> Position(size, pad, kernel, stride, i)
    ensures kernel > size + 2 * pad ==>
      MachineOut(size, pad, kernel, stride) > 0x1_0000_0000_0000 &&
        forall i: nat :: !Position(size, pad, kernel, stride, i)
  {
    if kernel <= size + 2 * pad {
      forall i: nat
        ensures i < MachineOut(size, pad, kernel, stride) <==> Position(size, pad, kernel, stride, i)
      {
        PositionsCounted(size + 2 * pad - kernel, stride, i);
      }
    } else {
      HugeOut(size + 2 * pad - kernel, stride);
      forall i: nat
        ensures !Position(size, pad, kernel, stride, i)
      {
        assert i * stride >= 0;
      }
      assert 0 < MachineOut(size, pad, kernel, stride) && !Position(size, pad, kernel, stride, 0);
    }
  }

  lemma PositionsCounted(room: nat, stride: nat, i: nat)
    requires 0 < stride && room < 0x1_0000_0000
    ensures i < room % 0x1_0000_0000_0000_0000 / stride + 1 <==> i * stride <= room
  {
    var q := room / stride;
    assert room == q * stride + room % stride;
    assert (i - q) * stride == i * stride - q * stride;
    B.MultipleOutside(i - q, stride);
  }

  lemma HugeOut(room: int, stride: nat)
    requires -0x1_0000 < room < 0 && 0 < stride < 0x1_0000
    ensures room % 0x1_0000_0000_0000_0000 / stride + 1 > 0x1_0000_0000_0000
  {
    var r := room % 0x1_0000_0000_0000_0000;
    assert r == room + 0x1_0000_0000_0000_0000;
    var q := r / stride;
    assert r == q * stride + r % stride;
    assert (q + 1) * stride > r;
    assert (0x1_0000_0000_0000 - (q + 1)) * stride == 0x1_0000_0000_0000 * stride - (q + 1) * stride;
    B.MultipleOutside(0x1_0000_0000_0000 - (q + 1), stride);
  }

  /** The guards, of convolution and of pooling alike, accept parameters whose output sizes come out right
      exactly if they fit, and for every image that leaves room for it some kernel that does not. */
  lemma GuardsOmitFit(kernel: u32, stride: u32, padding: u32, dims: u32, channels: u32) returns (tooLarge: u32)
    requires UnpackPool(kernel, stride, padding, dims, channels).Some?
    ensures var g := UnpackPool(kernel, stride, padding, dims, channels).value.shape;
      Fits(g) <==>
        (forall i: nat :: i < MachineOut(g.inH, g.padH, g.kh, g.strideH) <==>
           Position(g.inH, g.padH, g.kh, g.strideH, i)) &&
        (forall i: nat :: i < MachineOut(g.inW, g.padW, g.kw, g.strideW) <==>
           Position(g.inW, g.padW, g.kw, g.strideW, i))
    ensures Unpack(kernel, stride, padding, dims, channels).Some? ==>
      Unpack(kernel, stride, padding, dims, channels).value.shape ==
        UnpackPool(kernel, stride, padding, dims, channels).value.shape
    ensures dims / 0x1_0000 + 2 * (padding / 0x1_0000) < 0xFFFF ==>
      var p := UnpackPool(tooLarge, stride, padding, dims, channels); p.Some? && !Fits(p.value.shape)
  {
    var g := UnpackPool(kernel, stride, padding, dims, channels).value.shape;
    MachineOutExact(g.inH, g.padH, g.kh, g.strideH);
    MachineOutExact(g.inW, g.padW, g.kw, g.strideW);
    tooLarge := 0xFFFF_0001;
    assert tooLarge / 0x1_0000 == 0xFFFF && tooLarge % 0x1_0000 == 1;
  }

  // ---- Flattened indices ----

  /** Row-major place of (c, y, x) among planes of `h` rows of `w` cells. */
  function Flat3(c: nat, y: nat, x: nat, h: nat, w: nat): nat { (c * h + y) * w + x }

  function Flat4(d: nat, c: nat, y: nat, x: nat, channels: nat, h: nat, w: nat): nat { Flat3(d * channels + c, y, x,
                 h, w) }

  lemma Below(a: nat, n: nat, b: nat, k: nat)
    requires a < n && b < k
    ensures a * k + b < n * k
  {
    assert (n - a) * k == n * k - a * k;
    B.MultipleOutside(n - a, k);
  }

  lemma Flat3InBounds(c: nat, n: nat, y: nat, x: nat, h: nat, w: nat)
    requires c < n && y < h && x < w
    ensures Flat3(c, y, x, h, w) < n * h * w
  {
    Below(c, n, y, h);
    Below(c * h + y, n * h, x, w);
  }

  lemma Flat4InBounds(d: nat, n: nat, c: nat, channels: nat, y: nat, x: nat, h: nat, w: nat)
    requires d < n && c < channels && y < h && x < w
    ensures Flat4(d, c, y, x, channels, h, w) < n * channels * h * w
  {
    Below(d, n, c, channels);
    Flat3InBounds(d * channels + c, n * channels, y, x, h, w);
  }

  /** The kernels' own index expressions. */
  lemma Flat3Is(c: nat, y: nat, x: nat, h: nat, w: nat)
    ensures Flat3(c, y, x, h, w) == c * h * w + y * w + x
  {
    assert (c * h + y) * w == c * h * w + y * w;
  }

  lemma Flat4Is(d: nat, c: nat, y: nat, x: nat, channels: nat, h: nat, w: nat)
    ensures Flat4(d, c, y, x, channels, h, w) == d * channels * h * w + c * h * w + y * w + x
  {
    Flat3Is(d * channels + c, y, x, h, w);
    assert (d * channels + c) * h == d * channels * h + c * h;
    assert (d * channels * h + c * h) * w == d * channels * h * w + c * h * w;
  }

  function Quotient(k: nat, d: nat): nat
    requires d > 0
  {
    assert k == k / d * d + k % d;
    B.MultipleOutside(k / d, d);
    k / d
  }

  function PlaneAt(k: nat, h: nat, w: nat): nat
    requires h > 0 && w > 0
  {
    Quotient(Quotient(k, w), h)
  }

  function RowAt(k: nat, h: nat, w: nat): nat
    requires h > 0 && w > 0
  {
    Quotient(k, w) % h
  }

  function ColumnAt(k: nat, w: nat): nat
    requires w > 0
  {
    k % w
  }

  /** Coordinates can be read off a flattened index, so no two cells share a place. */
  lemma Flat3Unique(c: nat, y: nat, x: nat, h: nat, w: nat)
    requires y < h && x < w
    ensures var k := Flat3(c, y, x, h, w); ColumnAt(k, w) == x && RowAt(k, h, w) == y && PlaneAt(k, h, w) == c
  {
    B.ModUnique(Flat3(c, y, x, h, w), c * h + y, x, w);
    B.ModUnique(c * h + y, c, y, h);
  }

  // ---- The window of an output cell ----

  /** A kernel cell and the image cell it falls on. */
  datatype Tap = Tap(fh: nat, fw: nat, y: nat, x: nat)

  /** Position in the image of one kernel row, negative or beyond the edge in the padding. */
  function ImageY(g: Shape, oh: nat, fh: nat): int { oh * g.strideH + fh - g.padH }

  function ImageX(g: Shape, ow: nat, fw: nat): int { ow * g.strideW + fw - g.padW }

  predicate InImage(g: Shape, oh: nat, ow: nat, fh: nat, fw: nat) {
    0 <= ImageY(g, oh, fh) < g.inH && 0 <= ImageX(g, ow, fw) < g.inW
  }

  /** The tap of one kernel cell, if it falls inside the image. */
  function TapAt(g: Shape, oh: nat, ow: nat, fh: nat, fw: nat): seq<Tap> {
    if InImage(g, oh, ow, fh, fw) then [Tap(fh, fw, ImageY(g, oh, fh), ImageX(g, ow, fw))] else []
  }

  /** The taps of kernel row `fh` among its first `n` cells, left to right. */
  function RowTaps(g: Shape, oh: nat, ow: nat, fh: nat, n: nat): seq<Tap> {
    if n == 0 then []
    else
      RowTaps(g, oh, ow, fh, n - 1) + TapAt(g, oh, ow, fh, n - 1)
  }

  /** The taps of the first `n` kernel rows, top to bottom. */
  function Taps(g: Shape, oh: nat, ow: nat, n: nat): seq<Tap> {
    if n == 0 then [] else Taps(g, oh, ow, n - 1) + RowTaps(g, oh, ow, n - 1, g.kw)
  }

  function Window(g: Shape, oh: nat, ow: nat): seq<Tap> { Taps(g, oh, ow, g.kh) }

  predicate Earlier(s: Tap, t: Tap) { s.fh < t.fh || (s.fh == t.fh && s.fw < t.fw) }

  ghost predicate InOrder(ts: seq<Tap>) { forall i, j :: 0 <= i < j < |ts| ==> Earlier(ts[i], ts[j]) }

  predicate IsTap(g: Shape, oh: nat, ow: nat, t: Tap) {
    InImage(g, oh, ow, t.fh, t.fw) && t.y == ImageY(g, oh, t.fh) && t.x == ImageX(g, ow, t.fw)
  }

  lemma {:induction false} RowTapsAre(g: Shape, oh: nat, ow: nat, fh: nat, n: nat)
    ensures InOrder(RowTaps(g, oh, ow, fh, n))
    ensures forall t :: t in RowTaps(g, oh, ow, fh, n) <==> t.fh == fh && t.fw < n && IsTap(g, oh, ow, t)
  {
    if n > 0 {
      RowTapsAre(g, oh, ow, fh, n - 1);
      var ts, before := RowTaps(g, oh, ow, fh, n), RowTaps(g, oh, ow, fh, n - 1);
      forall i, j | 0 <= i < j < |ts|
        ensures Earlier(ts[i], ts[j])
      {
        assert ts[i] == before[i] && before[i] in before;
      }
    }
  }

  lemma {:induction false} TapsAre(g: Shape, oh: nat, ow: nat, n: nat)
    ensures InOrder(Taps(g, oh, ow, n))
    ensures forall t :: t in Taps(g, oh, ow, n) <==> t.fh < n && t.fw < g.kw && IsTap(g, oh, ow, t)
  {
    if n > 0 {
      TapsAre(g, oh, ow, n - 1);
      RowTapsAre(g, oh, ow, n - 1, g.kw);
      NextRowIn(g, oh, ow, n - 1, Taps(g, oh, ow, n - 1), RowTaps(g, oh, ow, n - 1, g.kw));
    }
  }

  lemma NextRowIn(g: Shape, oh: nat, ow: nat, n: nat, before: seq<Tap>, row: seq<Tap>)
    requires InOrder(before) && InOrder(row)
    requires forall t :: t in before <==> t.fh < n && t.fw < g.kw && IsTap(g, oh, ow, t)
    requires forall t :: t in row <==> t.fh == n && t.fw < g.kw && IsTap(g, oh, ow, t)
    ensures InOrder(before + row)
    ensures forall t :: t in before + row <==> t.fh < n + 1 && t.fw < g.kw && IsTap(g, oh, ow, t)
  {
    JoinInOrder(before, row, n);
  }

  lemma JoinInOrder(before: seq<Tap>, row: seq<Tap>, n: nat)
    requires InOrder(before) && InOrder(row) && (forall t :: t in before ==> t.fh < n) &&
      (forall t :: t in row ==> t.fh == n)
    ensures InOrder(before + row)
  {
    var ts := before + row;
    forall i, j | 0 <= i < j < |ts|
      ensures Earlier(ts[i], ts[j])
    {
      if i < |before| { assert ts[i] in before; }
      if j >= |before| { assert ts[j] in row; }
    }
  }

  /** The window holds exactly the kernel cells that fall inside the image, each once, in row order. */
  lemma WindowIs(g: Shape, oh: nat, ow: nat)
    ensures InOrder(Window(g, oh, ow))
    ensures forall t :: t in Window(g, oh, ow) <==> t.fh < g.kh && t.fw < g.kw && IsTap(g, oh, ow, t)
  {
    TapsAre(g, oh, ow, g.kh);
  }

  /** Every kernel cell of every output cell stays within the padded image. */
  lemma WindowFits(g: Shape, oh: nat, fh: nat)
    requires Fits(g) && oh < OutH(g) && fh < g.kh
    ensures oh * g.strideH + fh < g.inH + 2 * g.padH
  {
    var room := g.inH + 2 * g.padH - g.kh;
    var q := room / g.strideH;
    assert room == q * g.strideH + room % g.strideH;
    assert (q - oh) * g.strideH == q * g.strideH - oh * g.strideH;
    B.MultipleOutside(q - oh, g.strideH);
    assert q - oh >= 0;
  }

  // ---- Values ----

  /** A cell of a flattened tensor; the kernels never ask for one outside. */
  function At<F>(ops: FloatOps<F>, s: seq<F>, i: nat): F { if i < |s| then s[i] else ops.zero }

  function Pixel<F>(ops: FloatOps<F>, input: seq<F>, g: Shape, c: nat, t: Tap): F {
    At(ops, input, Flat3(c, t.y, t.x, g.inH, g.inW))
  }

  /** Products added one by one onto `acc`, in the order of the taps. */
  function AddProducts<F>(ops: FloatOps<F>, input: seq<F>, filter: seq<F>, g: Shape, channels: nat,
                          co: nat, ci: nat, ts: seq<Tap>, acc: F): F {
    if ts == [] then acc
    else
      var t := ts[|ts| - 1];
      ops.add(AddProducts(ops, input, filter, g, channels, co, ci, ts[..|ts| - 1], acc),
              ops.mul(Pixel(ops, input, g, ci, t), At(ops, filter, Flat4(co, ci, t.fh, t.fw, channels, g.kh, g.kw))))
  }

  /** The sum over the first `n` channels, channel by channel. */
  function ConvSum<F>(ops: FloatOps<F>, input: seq<F>, filter: seq<F>, g: Shape, channels: nat,
                      co: nat, oh: nat, ow: nat, n: nat): F {
    if n == 0 then ops.zero
    else
      AddProducts(ops, input, filter, g, channels, co, n - 1, Window(g, oh, ow),
                  ConvSum(ops, input, filter, g, channels, co, oh, ow, n - 1))
  }

  function Sum<F>(ops: FloatOps<F>, input: seq<F>, g: Shape, c: nat, ts: seq<Tap>): F {
    if ts == [] then ops.zero
    else ops.add(Sum(ops, input, g, c, ts[..|ts| - 1]), Pixel(ops, input, g, c, ts[|ts| - 1]))
  }

  function Highest<F>(ops: FloatOps<F>, input: seq<F>, g: Shape, c: nat, ts: seq<Tap>): F {
    if ts == [] then ops.negInf
    else
      var m, v := Highest(ops, input, g, c, ts[..|ts| - 1]), Pixel(ops, input, g, c, ts[|ts| - 1]);
      if ops.greater(v, m) then v else m
  }

  function Average<F>(ops: FloatOps<F>, input: seq<F>, g: Shape, c: nat, ts: seq<Tap>): F {
    if ts == [] then ops.zero else ops.div(Sum(ops, input, g, c, ts), ops.ofCount(|ts|))
  }

  /** `greater` orders the values as numbers are ordered; NaN would not be. */
  ghost predicate Orders<F(!new)>(ops: FloatOps<F>) {
    (forall a, b :: ops.greater(a, b) ==> !ops.greater(b, a)) &&
    (forall a, b, c :: ops.greater(a, b) && !ops.greater(c, b) ==> ops.greater(a, c))
  }

  /** Over ordered values the pooled maximum is reached by no tap and comes from one, or from the start
      value if no tap exceeds that. */
  lemma {:induction false} HighestIsMaximum<F(!new)>(ops: FloatOps<F>, input: seq<F>, g: Shape, c: nat, ts: seq<Tap>)
    requires Orders(ops)
    ensures var m := Highest(ops, input, g, c, ts);
      (forall t :: t in ts ==> !ops.greater(Pixel(ops, input, g, c, t), m)) &&
      (m == ops.negInf || exists t :: t in ts && m == Pixel(ops, input, g, c, t))
  {
    if ts != [] {
      var rest, last := ts[..|ts| - 1], ts[|ts| - 1];
      HighestIsMaximum(ops, input, g, c, rest);
      assert ts == rest + [last];
      var m, m', v := Highest(ops, input, g, c, rest), Highest(ops, input, g, c, ts), Pixel(ops, input, g, c, last);
      forall t | t in ts
        ensures !ops.greater(Pixel(ops, input, g, c, t), m')
      {
        if t in rest && ops.greater(v, m) {
          var u := Pixel(ops, input, g, c, t);
          assert ops.greater(u, v) && !ops.greater(m, v) ==> ops.greater(u, m);
        }
      }
    }
  }
}
