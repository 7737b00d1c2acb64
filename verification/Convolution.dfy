/** Over the integers, the window sum of the chain is a multi-channel two-dimensional convolution. */
module Convolution {
  import opened Arithmetic
  import opened DmaEngine
  import opened Systolic

  const INTEGERS: Arith<int> := Arith(0, (a: int, b: int) => a + b, (a: int, b: int) => a * b)

  /** Channels of `rows` x `cols` taps over images stored row by row, `width` words a row. */
  datatype Layer = Layer(channels: nat, rows: nat, cols: nat, width: nat, weights: seq<int>, images: seq<seq<int>>) {
    ghost predicate Fits() {
      rows > 0 && cols > 0 && |weights| == channels * rows * cols && |images| == channels
    }
  }

  /** The group that computes row `row` of channel `ch`. */
  function GroupAt(l: Layer, ch: nat, row: nat): nat {
    ch * l.rows + row
  }

  /** The first register of group g. */
  function First(l: Layer, g: nat): nat {
    g * l.cols
  }

  /** The word a row starts at. */
  function RowStart(l: Layer, row: nat): nat {
    row * l.width
  }

  lemma Steps(l: Layer, ch: nat, row: nat)
    ensures GroupAt(l, ch, row + 1) == GroupAt(l, ch, row) + 1
    ensures GroupAt(l, ch + 1, 0) == GroupAt(l, ch, l.rows)
    ensures GroupAt(l, 0, 0) == 0 && First(l, 0) == 0
    ensures First(l, GroupAt(l, ch, row) + 1) == First(l, GroupAt(l, ch, row)) + l.cols
  {
  }

  lemma GroupInside(l: Layer, ch: nat, row: nat)
    requires l.Fits() && ch < l.channels && row <= l.rows
    ensures GroupAt(l, ch, row) <= l.channels * l.rows
    ensures row < l.rows ==> GroupAt(l, ch, row) < l.channels * l.rows
    ensures First(l, GroupAt(l, ch, row)) <= |l.weights|
    ensures row < l.rows ==> First(l, GroupAt(l, ch, row)) + l.cols <= |l.weights|
  {
    MulMonotone(l.rows, ch + 1, l.channels);
    MulMonotone(l.cols, GroupAt(l, ch, row), l.channels * l.rows);
    if row < l.rows {
      MulMonotone(l.cols, GroupAt(l, ch, row) + 1, l.channels * l.rows);
    }
  }

  function Tap(l: Layer, ch: nat, row: nat, col: nat): int
    requires l.Fits() && ch < l.channels && row < l.rows && col < l.cols
  {
    GroupInside(l, ch, row);
    l.weights[First(l, GroupAt(l, ch, row)) + col]
  }

  /** The pixel of image ch in row y and column x. */
  ghost predicate HasPixel(l: Layer, ch: nat, y: nat, x: nat) {
    ch < |l.images| && x < l.width && RowStart(l, y) + x < |l.images[ch]|
  }

  function PixelOf(l: Layer, ch: nat, y: nat, x: nat): int
    requires HasPixel(l, ch, y, x)
  {
    l.images[ch][RowStart(l, y) + x]
  }

  /** The window with its upper left corner in row y and column x lies inside every image. */
  ghost predicate Inside(l: Layer, y: nat, x: nat) {
    l.Fits() && x + l.cols <= l.width &&
    forall ch, row :: 0 <= ch < l.channels && y <= row < y + l.rows ==>
      RowStart(l, row) + x + l.cols <= |l.images[ch]|
  }

  ghost function SumCols(l: Layer, y: nat, x: nat, ch: nat, row: nat, m: nat): int
    requires Inside(l, y, x) && ch < l.channels && row < l.rows && m <= l.cols
  {
    if m == 0 then 0
    else SumCols(l, y, x, ch, row, m - 1) + Tap(l, ch, row, m - 1) * PixelOf(l, ch, y + row, x + (m - 1))
  }

  ghost function SumRows(l: Layer, y: nat, x: nat, ch: nat, m: nat): int
    requires Inside(l, y, x) && ch < l.channels && m <= l.rows
  {
    if m == 0 then 0 else SumRows(l, y, x, ch, m - 1) + SumCols(l, y, x, ch, m - 1, l.cols)
  }

  /** The first m channels of the convolution at row y, column x. */
  ghost function SumChannels(l: Layer, y: nat, x: nat, m: nat): int
    requires Inside(l, y, x) && m <= l.channels
  {
    if m == 0 then 0 else SumChannels(l, y, x, m - 1) + SumRows(l, y, x, m - 1, l.rows)
  }

  /** The word of an image that the window at row y, column x starts at. */
  function Corner(l: Layer, y: nat, x: nat): nat {
    RowStart(l, y) + x
  }

  lemma RowsAdd(l: Layer, y: nat, row: nat)
    ensures RowStart(l, y + row) == RowStart(l, y) + RowStart(l, row)
  {
  }

  /** The chain is set up for the layer: each group reads its row of its channel's image. */
  ghost predicate Realises(c: Chain<int>, starts: seq<nat>, l: Layer) {
    && l.Fits() && WellFormed(c) && c.arith == INTEGERS
    && c.size == l.cols && c.groups == l.channels * l.rows && c.weights == l.weights
    && |starts| == c.groups
    && forall ch, row :: 0 <= ch < l.channels && 0 <= row < l.rows && GroupAt(l, ch, row) < c.groups ==>
         starts[GroupAt(l, ch, row)] == RowStart(l, row) && c.rams[GroupAt(l, ch, row)] == l.images[ch]
  }

  /** One register adds tap times pixel. */
  lemma TapStep(c: Chain<int>, starts: seq<nat>, l: Layer, y: nat, x: nat, ch: nat, row: nat, col: nat)
    requires Realises(c, starts, l) && Inside(l, y, x) && WindowInside(c, starts, Corner(l, y, x))
    requires ch < l.channels && row < l.rows && col < l.cols
    ensures var (i, n) := (First(l, GroupAt(l, ch, row)) + col, Corner(l, y, x));
            i < |c.weights| &&
            Window(c, starts, n, i + 1) ==
            Window(c, starts, n, i) + Tap(l, ch, row, col) * PixelOf(l, ch, y + row, x + col)
  {
    hide GroupAt, RowStart, First, Window, Group;
    var g := GroupAt(l, ch, row);
    var i, n := First(l, g) + col, Corner(l, y, x);
    GroupInside(l, ch, row);
    RegisterOf(c, l, g, col);
    WindowNext(c, starts, n, i);
    RowsAdd(l, y, row);
    assert Pixel(c, starts, n, i) == PixelOf(l, ch, y + row, x + col);
  }

  lemma RegisterOf(c: Chain<int>, l: Layer, g: nat, col: nat)
    requires WellFormed(c) && c.size == l.cols && col < l.cols && First(l, g) + col < |c.weights|
    ensures Group(c, First(l, g) + col) == g && (First(l, g) + col) % c.size == col
  {
    ModUnique(First(l, g) + col, l.cols, g, col);
  }

  lemma WindowNext(c: Chain<int>, starts: seq<nat>, n: nat, i: nat)
    requires c.arith == INTEGERS && WindowInside(c, starts, n) && i < |c.weights|
    ensures Window(c, starts, n, i + 1) == Window(c, starts, n, i) + c.weights[i] * Pixel(c, starts, n, i)
  {
  }

  lemma {:induction false} Columns(c: Chain<int>, starts: seq<nat>, l: Layer, y: nat, x: nat, ch: nat, row: nat, m: nat)
    requires Realises(c, starts, l) && Inside(l, y, x) && WindowInside(c, starts, Corner(l, y, x))
    requires ch < l.channels && row < l.rows && m <= l.cols
    ensures var i := First(l, GroupAt(l, ch, row));
            i + m <= |c.weights| &&
            Window(c, starts, Corner(l, y, x), i + m) ==
            Window(c, starts, Corner(l, y, x), i) + SumCols(l, y, x, ch, row, m)
  {
    hide GroupAt, First, Corner, Inside, Tap, Window;
    GroupInside(l, ch, row);
    if m > 0 {
      Columns(c, starts, l, y, x, ch, row, m - 1);
      TapStep(c, starts, l, y, x, ch, row, m - 1);
    }
  }

  lemma {:induction false} Rows(c: Chain<int>, starts: seq<nat>, l: Layer, y: nat, x: nat, ch: nat, m: nat)
    requires Realises(c, starts, l) && Inside(l, y, x) && WindowInside(c, starts, Corner(l, y, x))
    requires ch < l.channels && m <= l.rows
    ensures First(l, GroupAt(l, ch, m)) <= |c.weights| && First(l, GroupAt(l, ch, 0)) <= |c.weights|
    ensures Window(c, starts, Corner(l, y, x), First(l, GroupAt(l, ch, m))) ==
            Window(c, starts, Corner(l, y, x), First(l, GroupAt(l, ch, 0))) + SumRows(l, y, x, ch, m)
  {
    hide GroupAt, First, Corner, Inside, SumCols, Window;
    GroupInside(l, ch, m);
    GroupInside(l, ch, 0);
    if m > 0 {
      Rows(c, starts, l, y, x, ch, m - 1);
      Columns(c, starts, l, y, x, ch, m - 1, l.cols);
      Steps(l, ch, m - 1);
    }
  }

  lemma {:induction false} Channels(c: Chain<int>, starts: seq<nat>, l: Layer, y: nat, x: nat, m: nat)
    requires Realises(c, starts, l) && Inside(l, y, x) && WindowInside(c, starts, Corner(l, y, x))
    requires m <= l.channels
    ensures First(l, GroupAt(l, m, 0)) <= |c.weights|
    ensures Window(c, starts, Corner(l, y, x), First(l, GroupAt(l, m, 0))) == SumChannels(l, y, x, m)
  {
    hide GroupAt, First, Corner, Inside, SumRows;
    if m == 0 {
      Steps(l, 0, 0);
    } else {
      Channels(c, starts, l, y, x, m - 1);
      Rows(c, starts, l, y, x, m - 1, l.rows);
      Steps(l, m - 1, 0);
    }
  }

  /** The whole chain: after edge wait + groups * cols + y * width + x the last register holds the
      convolution of all channels at row y, column x, for every window that lies inside the images. */
  lemma ChainConvolves(c: Chain<int>, starts: seq<nat>, l: Layer, wait: nat, count: nat, y: nat, x: nat)
    requires Realises(c, starts, l) && Staggered(c, wait, starts, count) && l.channels > 0
    requires Corner(l, y, x) + l.cols <= count
    requires Inside(l, y, x)
    ensures |c.weights| > 0
    ensures WindowInside(c, starts, Corner(l, y, x))
    ensures Window(c, starts, Corner(l, y, x), |c.weights|) == SumChannels(l, y, x, l.channels)
    ensures Register(c, |c.weights| - 1, wait + c.groups * c.size + Corner(l, y, x) + 1) ==
            SumChannels(l, y, x, l.channels)
  {
    hide Corner, SumChannels;
    var n := Corner(l, y, x);
    MulMonotone(l.rows, 1, l.channels);
    ChainComputesWindow(c, wait, starts, count, n);
    Channels(c, starts, l, y, x, l.channels);
    assert First(l, GroupAt(l, l.channels, 0)) == |c.weights|;
  }

  /** Layers that differ only in words behind the images. */
  ghost predicate Extends(l: Layer, m: Layer) {
    && |m.images| == |l.images| && m.(images := l.images) == l
    && forall ch :: 0 <= ch < |l.images| ==> l.images[ch] <= m.images[ch]
  }

  lemma {:induction false} SameCols(l: Layer, m: Layer, y: nat, x: nat, ch: nat, row: nat, k: nat)
    requires Extends(l, m) && Inside(l, y, x) && Inside(m, y, x) && ch < l.channels && row < l.rows && k <= l.cols
    ensures SumCols(l, y, x, ch, row, k) == SumCols(m, y, x, ch, row, k)
  {
    if k > 0 {
      SameCols(l, m, y, x, ch, row, k - 1);
    }
  }

  lemma {:induction false} SameRows(l: Layer, m: Layer, y: nat, x: nat, ch: nat, k: nat)
    requires Extends(l, m) && Inside(l, y, x) && Inside(m, y, x) && ch < l.channels && k <= l.rows
    ensures SumRows(l, y, x, ch, k) == SumRows(m, y, x, ch, k)
  {
    hide SumCols;
    if k > 0 {
      SameRows(l, m, y, x, ch, k - 1);
      SameCols(l, m, y, x, ch, k - 1, l.cols);
    }
  }

  /** The convolution does not look behind the images. */
  lemma {:induction false} SameChannels(l: Layer, m: Layer, y: nat, x: nat, k: nat)
    requires Extends(l, m) && Inside(l, y, x) && Inside(m, y, x) && k <= l.channels
    ensures SumChannels(l, y, x, k) == SumChannels(m, y, x, k)
  {
    hide SumRows;
    if k > 0 {
      SameChannels(l, m, y, x, k - 1);
      SameRows(l, m, y, x, k - 1, l.rows);
    }
  }

  // ----- the program of descriptors.h

  /** Group `row` of branch `branch`: WAIT 300 + 3 * (3 * branch + row), then TRANSFER 100 words from 10 * row. */
  function ShippedProgram(branch: nat, row: nat): (ds: seq<Descriptor>)
    requires branch < 3 && row < 3
  {
    [Descriptor(1, 0, 3, 300 + 3 * (3 * branch + row), 1),
     Descriptor(2, 10 * row, 1, 100, 1),
     Descriptor(2, 0, 0, 0, 1)]
  }

  function ShippedPrograms(): seq<seq<Descriptor>> {
    seq(9, g requires 0 <= g < 9 => ShippedProgram(g / 3, g % 3))
  }

  /** Nine groups of three registers over three images of ten words a row. */
  function ShippedChain(weights: seq<int>, images: seq<seq<int>>): Chain<int>
    requires |images| == 3
  {
    Chain(INTEGERS, 9, 3, weights, ShippedPrograms(), seq(9, g requires 0 <= g < 9 => images[g / 3]))
  }

  function ShippedStarts(): seq<nat> {
    seq(9, g requires 0 <= g < 9 => 10 * (g % 3))
  }

  function ShippedLayer(weights: seq<int>, images: seq<seq<int>>): Layer {
    Layer(3, 3, 3, 10, weights, images)
  }

  ghost predicate ShippedSizes(weights: seq<int>, images: seq<seq<int>>) {
    |weights| == 27 && |images| == 3 && forall ch :: 0 <= ch < 3 ==> |images[ch]| == 200
  }

  lemma ShippedStaggered(weights: seq<int>, images: seq<seq<int>>)
    requires ShippedSizes(weights, images)
    ensures Staggered(ShippedChain(weights, images), 300, ShippedStarts(), 100)
  {
  }

  lemma ShippedRealises(weights: seq<int>, images: seq<seq<int>>)
    requires ShippedSizes(weights, images)
    ensures Realises(ShippedChain(weights, images), ShippedStarts(), ShippedLayer(weights, images))
  {
    hide IsWaitTransfer, Closed, GroupAt, RowStart;
    ShippedStaggered(weights, images);
    var c, l := ShippedChain(weights, images), ShippedLayer(weights, images);
    forall ch, row | 0 <= ch < 3 && 0 <= row < 3
      ensures GroupAt(l, ch, row) < 9
      ensures ShippedStarts()[GroupAt(l, ch, row)] == RowStart(l, row) && c.rams[GroupAt(l, ch, row)] == images[ch]
    {
      ShippedGroupAt(weights, images, ch, row);
    }
  }

  /** Group `row` of branch `ch` starts at its row of its image. */
  ghost predicate ShippedGroup(weights: seq<int>, images: seq<seq<int>>, ch: nat, row: nat)
    requires ShippedSizes(weights, images) && ch < 3 && row < 3
  {
    var g := GroupAt(ShippedLayer(weights, images), ch, row);
    g < 9 && ShippedStarts()[g] == RowStart(ShippedLayer(weights, images), row) &&
    ShippedChain(weights, images).rams[g] == images[ch]
  }

  lemma ShippedGroupAt(weights: seq<int>, images: seq<seq<int>>, ch: nat, row: nat)
    requires ShippedSizes(weights, images) && ch < 3 && row < 3
    ensures ShippedGroup(weights, images, ch, row)
  {
    hide ShippedProgram;
    var g := GroupAt(ShippedLayer(weights, images), ch, row);
    assert g == 3 * ch + row && g / 3 == ch && g % 3 == row;
  }

  /** With the shipped descriptors the last register holds the 3 x 3 x 3 convolution at row y, column x
      after edge 327 + 10 * y + x, for each of the 64 windows of the 10 x 10 images. */
  lemma ShippedProgramConvolves(weights: seq<int>, images: seq<seq<int>>, y: nat, x: nat)
    requires ShippedSizes(weights, images) && y <= 7 && x <= 7
    ensures var l := ShippedLayer(weights, images);
            Inside(l, y, x) && WellFormed(ShippedChain(weights, images)) &&
            Register(ShippedChain(weights, images), 26, 327 + (10 * y + x) + 1) == SumChannels(l, y, x, 3)
  {
    ShippedStaggered(weights, images);
    ShippedRealises(weights, images);
    ChainConvolves(ShippedChain(weights, images), ShippedStarts(), ShippedLayer(weights, images), 300, 100, y, x);
  }
}
