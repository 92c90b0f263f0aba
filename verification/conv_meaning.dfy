/** Convolution and pooling as walks over the kernel, with every place in the tensors written out. */
module ConvMeaning {
  import opened ConvSpec
  import opened Memory
  import B = Bits

  /** For output cell (oh, ow), kernel cell (fh, fw) falls inside the image. */
  predicate Inside(g: Shape, oh: nat, ow: nat, fh: int, fw: int) {
    0 <= oh * g.strideH + fh - g.padH < g.inH && 0 <= ow * g.strideW + fw - g.padW < g.inW
  }

  /** Visits the first `n` kernel cells in row order and skips those that fall outside the image. */
  ghost function Walk<F>(g: Shape, oh: nat, ow: nat, step: (F, Tap) -> F, start: F, n: nat): F
    requires g.kw > 0
  {
    if n == 0 then start
    else
      var k, before := n - 1, Walk(g, oh, ow, step, start, n - 1);
      if !Inside(g, oh, ow, k / g.kw, k % g.kw) then before
      else step(before, Tap(Quotient(k, g.kw), k % g.kw, oh * g.strideH + k / g.kw - g.padH,
                            ow * g.strideW + k % g.kw - g.padW))
  }

  ghost function FoldTaps<F>(step: (F, Tap) -> F, start: F, ts: seq<Tap>): F {
    if ts == [] then start else step(FoldTaps(step, start, ts[..|ts| - 1]), ts[|ts| - 1])
  }

  lemma FoldOne<F>(step: (F, Tap) -> F, start: F, ts: seq<Tap>, more: seq<Tap>)
    requires |more| <= 1
    ensures FoldTaps(step, start, ts + more) ==
      if more == [] then FoldTaps(step, start, ts) else step(FoldTaps(step, start, ts), more[0])
  {
    if more == [] {
      assert ts + more == ts;
    } else {
      assert (ts + more)[..|ts + more| - 1] == ts;
    }
  }

  /** The coordinates of the kernel cell after `fw` others of row `fh`. */
  lemma CellOf(g: Shape, fh: nat, fw: nat, k: nat)
    requires fw < g.kw && k == fh * g.kw + fw
    ensures k / g.kw == fh && k % g.kw == fw
  {
    B.ModUnique(k, fh, fw, g.kw);
  }

  lemma WalkNext<F>(g: Shape, oh: nat, ow: nat, step: (F, Tap) -> F, start: F, fh: nat, fw: nat, k: nat, ts: seq<Tap>,
                    ts': seq<Tap>)
    requires fw < g.kw && k == fh * g.kw + fw && ts' == ts + TapAt(g, oh, ow, fh, fw)
    requires Walk(g, oh, ow, step, start, k) == FoldTaps(step, start, ts)
    ensures Walk(g, oh, ow, step, start, k + 1) == FoldTaps(step, start, ts')
  {
    CellOf(g, fh, fw, k);
    FoldOne(step, start, ts, TapAt(g, oh, ow, fh, fw));
  }

  lemma RowGrows(g: Shape, oh: nat, ow: nat, fh: nat, n: nat, ts: seq<Tap>)
    requires n > 0
    ensures ts + RowTaps(g, oh, ow, fh, n) == ts + RowTaps(g, oh, ow, fh, n - 1) + TapAt(g, oh, ow, fh, n - 1)
  {
  }

  lemma {:induction false} WalkRow<F>(g: Shape, oh: nat, ow: nat, step: (F, Tap) -> F, start: F, fh: nat, n: nat,
                                      last: nat, ts: seq<Tap>, ts': seq<Tap>)
    requires 0 < g.kw && n <= g.kw && last == fh * g.kw + n && ts' == ts + RowTaps(g, oh, ow, fh, n)
    requires Walk(g, oh, ow, step, start, last - n) == FoldTaps(step, start, ts)
    ensures Walk(g, oh, ow, step, start, last) == FoldTaps(step, start, ts')
    decreases n
  {
    if n == 0 {
      assert ts' == ts;
    } else {
      var before := ts + RowTaps(g, oh, ow, fh, n - 1);
      RowGrows(g, oh, ow, fh, n, ts);
      WalkRow(g, oh, ow, step, start, fh, n - 1, last - 1, ts, before);
      WalkNext(g, oh, ow, step, start, fh, n - 1, last - 1, before, ts');
    }
  }

  lemma RowBefore(n: nat, width: nat)
    requires n > 0
    ensures n * width == (n - 1) * width + width
  {
  }

  lemma {:induction false} WalkRows<F>(g: Shape, oh: nat, ow: nat, step: (F, Tap) -> F, start: F, n: nat, last: nat)
    requires 0 < g.kw && last == n * g.kw
    ensures Walk(g, oh, ow, step, start, last) == FoldTaps(step, start, Taps(g, oh, ow, n))
    decreases n
  {
    if n > 0 {
      RowBefore(n, g.kw);
      WalkRows(g, oh, ow, step, start, n - 1, last - g.kw);
      WalkRow(g, oh, ow, step, start, n - 1, g.kw, last, Taps(g, oh, ow, n - 1), Taps(g, oh, ow, n));
    }
  }

  /** Folding over the window is walking over the whole kernel. */
  lemma WalkIsWindow<F>(g: Shape, oh: nat, ow: nat, step: (F, Tap) -> F, start: F)
    requires 0 < g.kw
    ensures Walk(g, oh, ow, step, start, g.kh * g.kw) == FoldTaps(step, start, Window(g, oh, ow))
  {
    WalkRows(g, oh, ow, step, start, g.kh, g.kh * g.kw);
  }

  // ---- The kernels ----

  /** Cell (c, y, x) of the input: plane after plane, row after row. */
  function Image<F>(ops: FloatOps<F>, input: seq<F>, g: Shape, c: nat, y: nat, x: nat): F {
    At(ops, input, c * g.inH * g.inW + y * g.inW + x)
  }

  /** Cell (fh, fw) of the kernel from input channel `ci` to output channel `co`. */
  function Weight<F>(ops: FloatOps<F>, filter: seq<F>, g: Shape, channels: nat, co: nat, ci: nat, fh: nat, fw: nat): F {
    At(ops, filter, co * channels * g.kh * g.kw + ci * g.kh * g.kw + fh * g.kw + fw)
  }

  lemma PixelIs<F>(ops: FloatOps<F>, input: seq<F>, g: Shape, c: nat, t: Tap)
    ensures Pixel(ops, input, g, c, t) == Image(ops, input, g, c, t.y, t.x)
  {
    Flat3Is(c, t.y, t.x, g.inH, g.inW);
  }

  lemma WeightIs<F>(ops: FloatOps<F>, filter: seq<F>, g: Shape, channels: nat, co: nat, ci: nat, fh: nat, fw: nat)
    ensures At(ops, filter, Flat4(co, ci, fh, fw, channels, g.kh, g.kw)) ==
      Weight(ops, filter, g, channels, co, ci, fh, fw)
  {
    Flat4Is(co, ci, fh, fw, channels, g.kh, g.kw);
  }

  /** What one kernel cell does to the value so far: adds a product, adds the image cell, or keeps the greater. */
  function AddProduct<F>(ops: FloatOps<F>, input: seq<F>, filter: seq<F>, g: Shape, channels: nat, co: nat, ci: nat)
      : (F, Tap) -> F {
    (v: F, t: Tap) => ops.add(v, ops.mul(Image(ops, input, g, ci, t.y, t.x),
                                         Weight(ops, filter, g, channels, co, ci, t.fh, t.fw)))
  }

  function AddPixel<F>(ops: FloatOps<F>, input: seq<F>, g: Shape, c: nat): (F, Tap) -> F {
    (v: F, t: Tap) => ops.add(v, Image(ops, input, g, c, t.y, t.x))
  }

  function KeepGreater<F>(ops: FloatOps<F>, input: seq<F>, g: Shape, c: nat): (F, Tap) -> F {
    (v: F, t: Tap) =>
      if ops.greater(Image(ops, input, g, c, t.y, t.x), v) then Image(ops, input, g, c, t.y, t.x) else v
  }

  lemma {:induction false} AddProductsFolds<F>(ops: FloatOps<F>, input: seq<F>, filter: seq<F>, g: Shape, channels: nat,
                                               co: nat, ci: nat, ts: seq<Tap>, start: F, step: (F, Tap) -> F)
    requires step == AddProduct(ops, input, filter, g, channels, co, ci)
    ensures AddProducts(ops, input, filter, g, channels, co, ci, ts, start) == FoldTaps(step, start, ts)
  {
    if ts != [] {
      var t := ts[|ts| - 1];
      AddProductsFolds(ops, input, filter, g, channels, co, ci, ts[..|ts| - 1], start, step);
      PixelIs(ops, input, g, ci, t);
      WeightIs(ops, filter, g, channels, co, ci, t.fh, t.fw);
    }
  }

  /** The sum over the first `n` channels: each one walks its kernel on from where the one before ended. */
  ghost function WalkChannels<F>(ops: FloatOps<F>, input: seq<F>, filter: seq<F>, g: Shape, channels: nat, co: nat,
                                 oh: nat, ow: nat, n: nat): F
    requires 0 < g.kw
  {
    if n == 0 then ops.zero
    else
      Walk(g, oh, ow, AddProduct(ops, input, filter, g, channels, co, n - 1),
           WalkChannels(ops, input, filter, g, channels, co, oh, ow, n - 1), g.kh * g.kw)
  }

  /** Main result: an output cell of the convolution is the sum, channel after channel and kernel cell after kernel
      cell, of image times weight, left out where the kernel cell falls outside the image. */
  lemma {:induction false} ConvolutionIs<F>(ops: FloatOps<F>, input: seq<F>, filter: seq<F>, g: Shape, channels: nat,
                                            co: nat, oh: nat, ow: nat, n: nat)
    requires 0 < g.kw
    ensures ConvSum(ops, input, filter, g, channels, co, oh, ow, n) ==
      WalkChannels(ops, input, filter, g, channels, co, oh, ow, n)
  {
    if n > 0 {
      var start := ConvSum(ops, input, filter, g, channels, co, oh, ow, n - 1);
      ConvolutionIs(ops, input, filter, g, channels, co, oh, ow, n - 1);
      var step := AddProduct(ops, input, filter, g, channels, co, n - 1);
      AddProductsFolds(ops, input, filter, g, channels, co, n - 1, Window(g, oh, ow), start, step);
      WalkIsWindow(g, oh, ow, step, start);
    }
  }

  lemma {:induction false} SumFolds<F>(ops: FloatOps<F>, input: seq<F>, g: Shape, c: nat, ts: seq<Tap>,
                                       step: (F, Tap) -> F)
    requires step == AddPixel(ops, input, g, c)
    ensures Sum(ops, input, g, c, ts) == FoldTaps(step, ops.zero, ts)
  {
    if ts != [] {
      SumFolds(ops, input, g, c, ts[..|ts| - 1], step);
      PixelIs(ops, input, g, c, ts[|ts| - 1]);
    }
  }

  lemma {:induction false} HighestFolds<F>(ops: FloatOps<F>, input: seq<F>, g: Shape, c: nat, ts: seq<Tap>,
                                           step: (F, Tap) -> F)
    requires step == KeepGreater(ops, input, g, c)
    ensures Highest(ops, input, g, c, ts) == FoldTaps(step, ops.negInf, ts)
  {
    if ts != [] {
      HighestFolds(ops, input, g, c, ts[..|ts| - 1], step);
      PixelIs(ops, input, g, c, ts[|ts| - 1]);
    }
  }

  /** Main result: the pooled maximum walks the kernel from the start value and keeps what exceeds it. */
  lemma MaximumIs<F>(ops: FloatOps<F>, input: seq<F>, g: Shape, c: nat, oh: nat, ow: nat)
    requires 0 < g.kw
    ensures Highest(ops, input, g, c, Window(g, oh, ow)) ==
      Walk(g, oh, ow, KeepGreater(ops, input, g, c), ops.negInf, g.kh * g.kw)
  {
    var step := KeepGreater(ops, input, g, c);
    HighestFolds(ops, input, g, c, Window(g, oh, ow), step);
    WalkIsWindow(g, oh, ow, step, ops.negInf);
  }

  // ---- The mean ----

  /** The kernel cells that fall inside the image. */
  ghost function CellsInside(g: Shape, oh: nat, ow: nat): set<(nat, nat)> {
    set fh: nat, fw: nat | fh < g.kh && fw < g.kw && Inside(g, oh, ow, fh, fw) :: (fh, fw)
  }

  ghost function Cells(ts: seq<Tap>): set<(nat, nat)> { set t <- ts :: (t.fh, t.fw) }

  lemma OrderedStart(before: seq<Tap>, t: Tap)
    requires InOrder(before + [t])
    ensures InOrder(before) && forall s <- before :: Earlier(s, t)
  {
    var ts := before + [t];
    forall i, j | 0 <= i < j < |before|
      ensures Earlier(before[i], before[j])
    {
      assert Earlier(ts[i], ts[j]);
    }
    forall s | s in before
      ensures Earlier(s, t)
    {
      var i :| 0 <= i < |before| && before[i] == s;
      assert Earlier(ts[i], ts[|before|]);
    }
  }

  lemma CellsGrow(before: seq<Tap>, t: Tap)
    ensures Cells(before + [t]) == Cells(before) + {(t.fh, t.fw)}
  {
    forall c
      ensures c in Cells(before + [t]) <==> c in Cells(before) + {(t.fh, t.fw)}
    {
    }
  }

  lemma OneMoreCell(before: seq<Tap>, t: Tap)
    requires forall s <- before :: Earlier(s, t)
    ensures |Cells(before + [t])| == |Cells(before)| + 1
  {
    var cell := (t.fh, t.fw);
    forall s <- before
      ensures (s.fh, s.fw) != cell
    {
      assert Earlier(s, t);
    }
    assert cell !in Cells(before);
    CellsGrow(before, t);
  }

  lemma {:induction false} OrderedAreDistinct(ts: seq<Tap>)
    requires InOrder(ts)
    ensures |Cells(ts)| == |ts|
  {
    if ts == [] {
      assert Cells(ts) == {};
    } else {
      var before, t := ts[..|ts| - 1], ts[|ts| - 1];
      assert ts == before + [t];
      OrderedStart(before, t);
      OrderedAreDistinct(before);
      OneMoreCell(before, t);
    }
  }

  lemma WindowCounts(g: Shape, oh: nat, ow: nat)
    ensures |Window(g, oh, ow)| == |CellsInside(g, oh, ow)|
  {
    var ts := Window(g, oh, ow);
    WindowIs(g, oh, ow);
    OrderedAreDistinct(ts);
    forall fh: nat, fw: nat | (fh, fw) in CellsInside(g, oh, ow)
      ensures (fh, fw) in Cells(ts)
    {
      assert Tap(fh, fw, ImageY(g, oh, fh), ImageX(g, ow, fw)) in ts;
    }
    assert Cells(ts) == CellsInside(g, oh, ow);
  }

  /** Main result: the pooled mean is the sum over the kernel cells inside the image divided by their number, and zero
      if there are none. */
  lemma MeanIs<F>(ops: FloatOps<F>, input: seq<F>, g: Shape, c: nat, oh: nat, ow: nat)
    requires 0 < g.kw
    ensures Average(ops, input, g, c, Window(g, oh, ow)) ==
      if CellsInside(g, oh, ow) == {} then ops.zero
      else
        ops.div(Walk(g, oh, ow, AddPixel(ops, input, g, c), ops.zero, g.kh * g.kw),
                ops.ofCount(|CellsInside(g, oh, ow)|))
  {
    var step := AddPixel(ops, input, g, c);
    SumFolds(ops, input, g, c, Window(g, oh, ow), step);
    WalkIsWindow(g, oh, ow, step, ops.zero);
    WindowCounts(g, oh, ow);
  }

  // ---- The registers ----

  /** Each register holds a height, or the number of input channels, above a width, or the number of output channels;
      the parameters are taken if and only if no size, stride or number of channels is zero. */
  lemma RegistersSay(g: Shape, channelsIn: nat, channelsOut: nat)
    requires g.inH < 0x1_0000 && g.inW < 0x1_0000 && g.kh < 0x1_0000 && g.kw < 0x1_0000
    requires g.strideH < 0x1_0000 && g.strideW < 0x1_0000 && g.padH < 0x1_0000 && g.padW < 0x1_0000
    requires channelsIn < 0x1_0000 && channelsOut < 0x1_0000
    ensures var kernel, stride, padding := 0x1_0000 * g.kh + g.kw, 0x1_0000 * g.strideH + g.strideW,
        0x1_0000 * g.padH + g.padW;
      var dims, channels := 0x1_0000 * g.inH + g.inW, 0x1_0000 * channelsIn + channelsOut;
      var sound := g.inH > 0 && g.inW > 0 && g.kh > 0 && g.kw > 0 && g.strideH > 0 && g.strideW > 0 && channelsIn > 0;
      Unpack(kernel, stride, padding, dims, channels) ==
        (if sound && channelsOut > 0 then Some(Params(g, channelsIn, channelsOut)) else None) &&
      UnpackPool(kernel, stride, padding, dims, channels) ==
        (if sound then Some(Params(g, channelsIn, channelsIn)) else None)
  {
    Halves(g.kh, g.kw);
    Halves(g.strideH, g.strideW);
    Halves(g.padH, g.padW);
    Halves(g.inH, g.inW);
    Halves(channelsIn, channelsOut);
  }

  lemma Halves(high: nat, low: nat)
    requires low < 0x1_0000
    ensures var r := 0x1_0000 * high + low; r / 0x1_0000 == high && r % 0x1_0000 == low
  {
  }
}
