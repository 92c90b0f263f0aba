/** The convolution and pooling kernels: nested loops that fill an output vector cell by cell. */
module ConvKernels {
  import opened ConvSpec

  /** The kernels' test for a cell of the padded image, and the image cell behind it. */
  lemma InsideTest(g: Shape, oh: nat, ow: nat, fh: nat, fw: nat)
    ensures var ih, iw := oh * g.strideH + fh, ow * g.strideW + fw;
      (ih >= g.padH && iw >= g.padW && ih < g.inH + g.padH && iw < g.inW + g.padW) <==> InImage(g, oh, ow, fh, fw)
  {
  }

  lemma LastTap(ts: seq<Tap>, t: Tap)
    ensures (ts + [t])[..|ts + [t]| - 1] == ts && (ts + [t])[|ts + [t]| - 1] == t
  {
  }

  /** The taps up to and including one more kernel cell of row `fh`. */
  lemma OneMoreTap(g: Shape, oh: nat, ow: nat, fh: nat, fw: nat)
    ensures Taps(g, oh, ow, fh) + RowTaps(g, oh, ow, fh, fw + 1) ==
            Taps(g, oh, ow, fh) + RowTaps(g, oh, ow, fh, fw) + TapAt(g, oh, ow, fh, fw)
  {
  }

  lemma NoMoreTaps(ts: seq<Tap>)
    ensures ts + [] == ts
  {
  }

  // ---- Convolution ----

  /** One kernel cell: a product is added if the cell lies inside the image. */
  method AddTap<F>(ops: FloatOps<F>, input: seq<F>, filter: seq<F>, g: Shape, channels: nat, outs: nat,
                   co: nat, ci: nat, oh: nat, ow: nat, fh: nat, fw: nat, from: F, ghost base: F, ghost ts: seq<Tap>)
      returns (sum: F)
    requires |input| == channels * g.inH * g.inW && |filter| == outs * channels * g.kh * g.kw
    requires co < outs && ci < channels && fh < g.kh && fw < g.kw
    requires from == AddProducts(ops, input, filter, g, channels, co, ci, ts, base)
    ensures sum == AddProducts(ops, input, filter, g, channels, co, ci, ts + TapAt(g, oh, ow, fh, fw), base)
  {
    sum := from;
    NoMoreTaps(ts);
    var ih, iw := oh * g.strideH + fh, ow * g.strideW + fw;
    InsideTest(g, oh, ow, fh, fw);
    if ih >= g.padH && iw >= g.padW && ih < g.inH + g.padH && iw < g.inW + g.padW {
      var y, x := ih - g.padH, iw - g.padW;
      LastTap(ts, Tap(fh, fw, y, x));
      Flat3InBounds(ci, channels, y, x, g.inH, g.inW);
      Flat4InBounds(co, outs, ci, channels, fh, fw, g.kh, g.kw);
      sum := ops.add(sum, ops.mul(input[Index3(ci, y, x, g.inH, g.inW)],
                                  filter[Index4(co, ci, fh, fw, channels, g.kh, g.kw)]));
    }
  }

  /** One kernel row of one channel, added onto `from`. */
  method AddRow<F>(ops: FloatOps<F>, input: seq<F>, filter: seq<F>, g: Shape, channels: nat, outs: nat,
                   co: nat, ci: nat, oh: nat, ow: nat, fh: nat, from: F, ghost base: F) returns (sum: F)
    requires |input| == channels * g.inH * g.inW && |filter| == outs * channels * g.kh * g.kw
    requires co < outs && ci < channels && fh < g.kh
    requires from == AddProducts(ops, input, filter, g, channels, co, ci, Taps(g, oh, ow, fh), base)
    ensures sum == AddProducts(ops, input, filter, g, channels, co, ci, Taps(g, oh, ow, fh + 1), base)
  {
    sum := from;
    ghost var before := Taps(g, oh, ow, fh);
    NoMoreTaps(before);
    for fw := 0 to g.kw
      invariant sum == AddProducts(ops, input, filter, g, channels, co, ci, before + RowTaps(g, oh, ow, fh, fw), base)
    {
      OneMoreTap(g, oh, ow, fh, fw);
      sum := AddTap(ops, input, filter, g, channels, outs, co, ci, oh, ow, fh, fw, sum, base,
                    before + RowTaps(g, oh, ow, fh, fw));
    }
  }

  function Index3(c: nat, y: nat, x: nat, h: nat, w: nat): (k: nat)
    ensures k == Flat3(c, y, x, h, w)
  {
    Flat3Is(c, y, x, h, w);
    c * h * w + y * w + x
  }

  function Index4(d: nat, c: nat, y: nat, x: nat, channels: nat, h: nat, w: nat): (k: nat)
    ensures k == Flat4(d, c, y, x, channels, h, w)
  {
    Flat4Is(d, c, y, x, channels, h, w);
    d * channels * h * w + c * h * w + y * w + x
  }

  method ConvCell<F>(ops: FloatOps<F>, input: seq<F>, filter: seq<F>, g: Shape, channels: nat, outs: nat,
                     co: nat, oh: nat, ow: nat) returns (sum: F)
    requires |input| == channels * g.inH * g.inW && |filter| == outs * channels * g.kh * g.kw && co < outs
    ensures sum == ConvSum(ops, input, filter, g, channels, co, oh, ow, channels)
  {
    sum := ops.zero;
    for ci := 0 to channels
      invariant sum == ConvSum(ops, input, filter, g, channels, co, oh, ow, ci)
    {
      ghost var base := sum;
      for fh := 0 to g.kh
        invariant sum == AddProducts(ops, input, filter, g, channels, co, ci, Taps(g, oh, ow, fh), base)
      {
        sum := AddRow(ops, input, filter, g, channels, outs, co, ci, oh, ow, fh, sum, base);
      }
    }
  }

  // ---- Filling the output ----

  /** The output holds `cell` at its first `n` places. */
  ghost predicate Filled<F>(output: seq<F>, cell: (nat, nat, nat) -> F, h: nat, w: nat, n: nat) {
    h > 0 && w > 0 && n <= |output| &&
    forall k: nat :: k < n ==> output[k] == cell(PlaneAt(k, h, w), RowAt(k, h, w), ColumnAt(k, w))
  }

  /** A vector filled to the end holds every cell at its flattened place. */
  lemma AllFilled<F>(output: seq<F>, cell: (nat, nat, nat) -> F, channels: nat, h: nat, w: nat)
    requires |output| == channels * h * w && Filled(output, cell, h, w, |output|)
    ensures Holds(output, cell, channels, h, w)
  {
    forall c: nat, y: nat, x: nat | c < channels && y < h && x < w
      ensures Flat3(c, y, x, h, w) < |output| && output[Flat3(c, y, x, h, w)] == cell(c, y, x)
    {
      Flat3InBounds(c, channels, y, x, h, w);
      Flat3Unique(c, y, x, h, w);
    }
  }

  /** Every cell of the 3-dimensional output is where its flattened index says. */
  ghost predicate Holds<F>(output: seq<F>, cell: (nat, nat, nat) -> F, channels: nat, h: nat, w: nat) {
    forall c: nat, y: nat, x: nat {:trigger Flat3(c, y, x, h, w)} :: c < channels && y < h && x < w ==>
      Flat3(c, y, x, h, w) < |output| && output[Flat3(c, y, x, h, w)] == cell(c, y, x)
  }

  /** The next cell in row-major order goes to the next place, and no place is written again. */
  method Fill<F>(output: array<F>, v: F, c: nat, y: nat, x: nat, channels: nat, h: nat, w: nat,
                 ghost cell: (nat, nat, nat) -> F)
    requires output.Length == channels * h * w && c < channels && y < h && x < w
    requires v == cell(c, y, x) && Filled(output[..], cell, h, w, Flat3(c, y, x, h, w))
    modifies output
    ensures Flat3(c, y, x, h, w) + 1 <= output.Length && Filled(output[..], cell, h, w, Flat3(c, y, x, h, w) + 1)
  {
    Flat3InBounds(c, channels, y, x, h, w);
    Flat3Unique(c, y, x, h, w);
    ghost var before := output[..];
    output[Index3(c, y, x, h, w)] := v;
    assert forall k: nat :: k < Flat3(c, y, x, h, w) ==> output[..][k] == before[k];
  }

  lemma RowEnds(c: nat, y: nat, h: nat, w: nat)
    ensures Flat3(c, y, w, h, w) == Flat3(c, y + 1, 0, h, w) && Flat3(c, h, 0, h, w) == Flat3(c + 1, 0, 0, h, w)
  {
    assert (c * h + y) * w + w == (c * h + y + 1) * w;
    assert c * h + h == (c + 1) * h;
  }

  /** Every output cell is the sum, in order of channel, kernel row and kernel column, of the products
      over the part of its window that lies inside the image. */
  method Conv2d<F>(ops: FloatOps<F>, input: seq<F>, filter: seq<F>, g: Shape, channels: nat, outs: nat)
      returns (output: array<F>)
    requires Fits(g) && |input| == channels * g.inH * g.inW && |filter| == outs * channels * g.kh * g.kw
    ensures fresh(output) && output.Length == outs * OutH(g) * OutW(g)
    ensures forall co: nat, oh: nat, ow: nat {:trigger Flat3(co, oh, ow, OutH(g), OutW(g))} ::
      co < outs && oh < OutH(g) && ow < OutW(g) ==>
      Flat3(co, oh, ow, OutH(g), OutW(g)) < output.Length &&
      output[Flat3(co, oh, ow, OutH(g), OutW(g))] == ConvSum(ops, input, filter, g, channels, co, oh, ow, channels)
  {
    var h, w := OutH(g), OutW(g);
    ghost var cell := (co: nat, oh: nat, ow: nat) => ConvSum(ops, input, filter, g, channels, co, oh, ow, channels);
    output := new F[outs * h * w](_ => ops.zero);
    for co := 0 to outs
      invariant Filled(output[..], cell, h, w, Flat3(co, 0, 0, h, w))
    {
      for oh := 0 to h
        invariant Filled(output[..], cell, h, w, Flat3(co, oh, 0, h, w))
      {
        for ow := 0 to w
          invariant Filled(output[..], cell, h, w, Flat3(co, oh, ow, h, w))
        {
          var sum := ConvCell(ops, input, filter, g, channels, outs, co, oh, ow);
          Fill(output, sum, co, oh, ow, outs, h, w, cell);
        }
        RowEnds(co, oh, h, w);
      }
      RowEnds(co, 0, h, w);
    }
    Flat3Is(outs, 0, 0, h, w);
    AllFilled(output[..], cell, outs, h, w);
  }

  // ---- Pooling ----

  /** The image cell behind a kernel cell, if it lies inside the image. */
  method Look<F>(ops: FloatOps<F>, input: seq<F>, g: Shape, channels: nat, c: nat, oh: nat, ow: nat, fh: nat, fw: nat)
      returns (inside: bool, v: F)
    requires |input| == channels * g.inH * g.inW && c < channels
    ensures inside == InImage(g, oh, ow, fh, fw)
    ensures inside ==> |TapAt(g, oh, ow, fh, fw)| == 1 && v == Pixel(ops, input, g, c, TapAt(g, oh, ow, fh, fw)[0])
  {
    var ih, iw := oh * g.strideH + fh, ow * g.strideW + fw;
    InsideTest(g, oh, ow, fh, fw);
    inside, v := false, ops.zero;
    if ih >= g.padH && iw >= g.padW && ih < g.inH + g.padH && iw < g.inW + g.padW {
      var y, x := ih - g.padH, iw - g.padW;
      Flat3InBounds(c, channels, y, x, g.inH, g.inW);
      inside, v := true, input[Index3(c, y, x, g.inH, g.inW)];
    }
  }

  lemma HighestNext<F>(ops: FloatOps<F>, input: seq<F>, g: Shape, c: nat, ts: seq<Tap>, more: seq<Tap>)
    requires |more| <= 1
    ensures Highest(ops, input, g, c, ts + more) ==
      if more == [] then Highest(ops, input, g, c, ts)
      else if ops.greater(Pixel(ops, input, g, c, more[0]), Highest(ops, input, g, c, ts)) then
        Pixel(ops, input, g, c, more[0])
      else Highest(ops, input, g, c, ts)
  {
    NoMoreTaps(ts);
    if more != [] {
      LastTap(ts, more[0]);
      assert more == [more[0]];
    }
  }

  lemma SumNext<F>(ops: FloatOps<F>, input: seq<F>, g: Shape, c: nat, ts: seq<Tap>, more: seq<Tap>)
    requires |more| <= 1
    ensures Sum(ops, input, g, c, ts + more) ==
      if more == [] then Sum(ops, input, g, c, ts)
      else ops.add(Sum(ops, input, g, c, ts), Pixel(ops, input, g, c, more[0]))
  {
    NoMoreTaps(ts);
    if more != [] {
      LastTap(ts, more[0]);
      assert more == [more[0]];
    }
  }

  method MaxCell<F>(ops: FloatOps<F>, input: seq<F>, g: Shape, channels: nat, c: nat, oh: nat, ow: nat)
      returns (high: F)
    requires |input| == channels * g.inH * g.inW && c < channels
    ensures high == Highest(ops, input, g, c, Window(g, oh, ow))
  {
    high := ops.negInf;
    for fh := 0 to g.kh
      invariant high == Highest(ops, input, g, c, Taps(g, oh, ow, fh))
    {
      NoMoreTaps(Taps(g, oh, ow, fh));
      for fw := 0 to g.kw
        invariant high == Highest(ops, input, g, c, Taps(g, oh, ow, fh) + RowTaps(g, oh, ow, fh, fw))
      {
        OneMoreTap(g, oh, ow, fh, fw);
        HighestNext(ops, input, g, c, Taps(g, oh, ow, fh) + RowTaps(g, oh, ow, fh, fw), TapAt(g, oh, ow, fh, fw));
        var inside, v := Look(ops, input, g, channels, c, oh, ow, fh, fw);
        if inside && ops.greater(v, high) { high := v; }
      }
    }
  }

  method AverageCell<F>(ops: FloatOps<F>, input: seq<F>, g: Shape, channels: nat, c: nat, oh: nat, ow: nat)
      returns (mean: F)
    requires |input| == channels * g.inH * g.inW && c < channels
    ensures mean == Average(ops, input, g, c, Window(g, oh, ow))
  {
    var sum, count := ops.zero, 0;
    for fh := 0 to g.kh
      invariant sum == Sum(ops, input, g, c, Taps(g, oh, ow, fh)) && count == |Taps(g, oh, ow, fh)|
    {
      NoMoreTaps(Taps(g, oh, ow, fh));
      for fw := 0 to g.kw
        invariant sum == Sum(ops, input, g, c, Taps(g, oh, ow, fh) + RowTaps(g, oh, ow, fh, fw))
        invariant count == |Taps(g, oh, ow, fh) + RowTaps(g, oh, ow, fh, fw)|
      {
        OneMoreTap(g, oh, ow, fh, fw);
        SumNext(ops, input, g, c, Taps(g, oh, ow, fh) + RowTaps(g, oh, ow, fh, fw), TapAt(g, oh, ow, fh, fw));
        var inside, v := Look(ops, input, g, channels, c, oh, ow, fh, fw);
        if inside { sum, count := ops.add(sum, v), count + 1; }
      }
    }
    mean := if count > 0 then ops.div(sum, ops.ofCount(count)) else ops.zero;
  }

  /** Every output cell is the highest value, earliest first, of the part of its window inside the image. */
  method MaxPool2d<F>(ops: FloatOps<F>, input: seq<F>, g: Shape, channels: nat)
      returns (output: array<F>)
    requires Fits(g) && |input| == channels * g.inH * g.inW
    ensures fresh(output) && output.Length == channels * OutH(g) * OutW(g)
    ensures forall c: nat, oh: nat, ow: nat {:trigger Flat3(c, oh, ow, OutH(g), OutW(g))} ::
      c < channels && oh < OutH(g) && ow < OutW(g) ==>
      Flat3(c, oh, ow, OutH(g), OutW(g)) < output.Length &&
      output[Flat3(c, oh, ow, OutH(g), OutW(g))] == Highest(ops, input, g, c, Window(g, oh, ow))
  {
    var h, w := OutH(g), OutW(g);
    ghost var cell := (c: nat, oh: nat, ow: nat) => Highest(ops, input, g, c, Window(g, oh, ow));
    output := new F[channels * h * w](_ => ops.negInf);
    for c := 0 to channels
      invariant Filled(output[..], cell, h, w, Flat3(c, 0, 0, h, w))
    {
      for oh := 0 to h
        invariant Filled(output[..], cell, h, w, Flat3(c, oh, 0, h, w))
      {
        for ow := 0 to w
          invariant Filled(output[..], cell, h, w, Flat3(c, oh, ow, h, w))
        {
          var high := MaxCell(ops, input, g, channels, c, oh, ow);
          Fill(output, high, c, oh, ow, channels, h, w, cell);
        }
        RowEnds(c, oh, h, w);
      }
      RowEnds(c, 0, h, w);
    }
    Flat3Is(channels, 0, 0, h, w);
    AllFilled(output[..], cell, channels, h, w);
  }

  /** Every output cell is the mean over the part of its window inside the image, zero if there is none. */
  method AvgPool2d<F>(ops: FloatOps<F>, input: seq<F>, g: Shape, channels: nat)
      returns (output: array<F>)
    requires Fits(g) && |input| == channels * g.inH * g.inW
    ensures fresh(output) && output.Length == channels * OutH(g) * OutW(g)
    ensures forall c: nat, oh: nat, ow: nat {:trigger Flat3(c, oh, ow, OutH(g), OutW(g))} ::
      c < channels && oh < OutH(g) && ow < OutW(g) ==>
      Flat3(c, oh, ow, OutH(g), OutW(g)) < output.Length &&
      output[Flat3(c, oh, ow, OutH(g), OutW(g))] == Average(ops, input, g, c, Window(g, oh, ow))
  {
    var h, w := OutH(g), OutW(g);
    ghost var cell := (c: nat, oh: nat, ow: nat) => Average(ops, input, g, c, Window(g, oh, ow));
    output := new F[channels * h * w](_ => ops.zero);
    for c := 0 to channels
      invariant Filled(output[..], cell, h, w, Flat3(c, 0, 0, h, w))
    {
      for oh := 0 to h
        invariant Filled(output[..], cell, h, w, Flat3(c, oh, 0, h, w))
      {
        for ow := 0 to w
          invariant Filled(output[..], cell, h, w, Flat3(c, oh, ow, h, w))
        {
          var mean := AverageCell(ops, input, g, channels, c, oh, ow);
          Fill(output, mean, c, oh, ow, channels, h, w, cell);
        }
        RowEnds(c, oh, h, w);
      }
      RowEnds(c, 0, h, w);
    }
    Flat3Is(channels, 0, 0, h, w);
    AllFilled(output[..], cell, channels, h, w);
  }
}
