// PreprocessWeightsForHMXPass.cpp: the in-place reordering of a weight matrix
// from row-major to the HMX weight layout.
module WhLayout {
  import opened Arith
  import opened PackLayout

  // A matrix of rowBlocks x colBlocks blocks, each height x width.
  datatype Blocks = Blocks(rowBlocks: nat, height: nat, colBlocks: nat, width: nat) {
    // Digits of a row-major position, and of its position once blocks are contiguous.
    function RowMajor(): seq<nat> { [rowBlocks, height, colBlocks, width] }
    function Blocked(): seq<nat> { [rowBlocks, colBlocks, height, width] }
    function Total(): nat { rowBlocks * height * colBlocks * width }
  }

  function Swap(d: seq<nat>): (r: seq<nat>)
    requires |d| == 4
    ensures |r| == 4
  {
    [d[0], d[2], d[1], d[3]]
  }

  lemma Linear4(d: seq<nat>, s: seq<nat>)
    requires |d| == |s| == 4
    ensures Linear(d, s) == ((d[0] * s[1] + d[1]) * s[2] + d[2]) * s[3] + d[3]
    ensures Size(s) == s[0] * s[1] * s[2] * s[3]
  {
    assert d[..3][..2] == d[..2] && d[..2][..1] == d[..1] && d[..1][..0] == [];
    assert s[..3][..2] == s[..2] && s[..2][..1] == s[..1] && s[..1][..0] == [];
    assert Linear(d[..1], s[..1]) == d[0] && Size(s[..1]) == s[0];
    assert Linear(d[..2], s[..2]) == d[0] * s[1] + d[1] && Size(s[..2]) == s[0] * s[1];
    assert Linear(d[..3], s[..3]) == (d[0] * s[1] + d[1]) * s[2] + d[2];
    assert Size(s[..3]) == s[0] * s[1] * s[2];
  }

  lemma SizesEqual(b: Blocks)
    ensures Size(b.RowMajor()) == b.Total() && Size(b.Blocked()) == b.Total()
  {
    Linear4([0, 0, 0, 0], b.RowMajor());
    Linear4([0, 0, 0, 0], b.Blocked());
    var r, h, c, w := b.rowBlocks, b.height, b.colBlocks, b.width;
    assert r * h * c == r * c * h;
  }

  // Where block linearization sends a row-major position.
  function Dest(b: Blocks, q: nat): nat
    requires q < b.Total()
  {
    SizesEqual(b);
    NoEmptyDim(b.RowMajor());
    Linear(Swap(MultiDim(q, b.RowMajor())), b.Blocked())
  }

  lemma DestOf(b: Blocks, d: seq<nat>, q: nat)
    requires InBounds(d, b.RowMajor()) && q == Linear(d, b.RowMajor())
    ensures q < b.Total() && Dest(b, q) == Linear(Swap(d), b.Blocked()) < b.Total()
  {
    SizesEqual(b);
    LinearInBounds(d, b.RowMajor());
    assert InBounds(Swap(d), b.Blocked());
    LinearInBounds(Swap(d), b.Blocked());
  }

  lemma DigitsOf(b: Blocks, q: nat) returns (d: seq<nat>)
    requires q < b.Total()
    ensures InBounds(d, b.RowMajor()) && q == Linear(d, b.RowMajor())
  {
    SizesEqual(b);
    NoEmptyDim(b.RowMajor());
    MultiDimInBounds(q, b.RowMajor());
    d := MultiDim(q, b.RowMajor());
  }

  lemma DestInRange(b: Blocks, q: nat)
    requires q < b.Total()
    ensures Dest(b, q) < b.Total()
  {
    var d := DigitsOf(b, q);
    DestOf(b, d, q);
  }

  lemma DestInjective(b: Blocks, q: nat, p: nat)
    requires q < b.Total() && p < b.Total() && q != p
    ensures Dest(b, q) != Dest(b, p)
  {
    hide Linear, Dest;
    var d := DigitsOf(b, q);
    var e := DigitsOf(b, p);
    DestOf(b, d, q);
    DestOf(b, e, p);
    LinearInBounds(Swap(d), b.Blocked());
    LinearInBounds(Swap(e), b.Blocked());
    SwapTwice(d);
    SwapTwice(e);
  }

  lemma SwapTwice(d: seq<nat>)
    requires |d| == 4
    ensures Swap(Swap(d)) == d
  {
    assert Swap(Swap(d)) == [d[0], d[1], d[2], d[3]] == d;
  }

  lemma DestOnto(b: Blocks, p: nat) returns (q: nat)
    requires p < b.Total()
    ensures q < b.Total() && Dest(b, q) == p
  {
    SizesEqual(b);
    NoEmptyDim(b.Blocked());
    MultiDimInBounds(p, b.Blocked());
    var e := MultiDim(p, b.Blocked());
    q := Linear(Swap(e), b.RowMajor());
    SwapTwice(e);
    DestOf(b, Swap(e), q);
  }

  // The two index expressions of the copy loop.
  function OldIndex(i: nat, j: nat, k: nat, colBlocks: nat, width: nat): nat {
    i * (colBlocks * width) + j * width + k
  }

  function NewIndex(newRow: nat, newBlock: nat, j: nat, k: nat, colBlocks: nat, height: nat, width: nat): nat {
    newRow * (colBlocks * height * width) + j * (height * width) + newBlock * width + k
  }

  lemma IndexExpressions(b: Blocks, i: nat, j: nat, k: nat)
    requires i < b.rowBlocks * b.height && j < b.colBlocks && k < b.width && b.height > 0
    ensures OldIndex(i, j, k, b.colBlocks, b.width) < b.Total()
    ensures Dest(b, OldIndex(i, j, k, b.colBlocks, b.width))
            == NewIndex(i / b.height, i % b.height, j, k, b.colBlocks, b.height, b.width) < b.Total()
  {
    hide Dest, Linear;
    var h, c, w := b.height, b.colBlocks, b.width;
    var d := [i / h, i % h, j, k];
    DivBound(i, b.rowBlocks, h);
    assert InBounds(d, b.RowMajor());
    Linear4(d, b.RowMajor());
    Linear4(Swap(d), b.Blocked());
    Recompose(i, h);
    OldExpanded(i, j, k, c, w);
    NewExpanded(i / h, j, i % h, k, c, h, w);
    DestOf(b, d, OldIndex(i, j, k, c, w));
  }

  // The copy loop visits the old indices in order.
  lemma NextIndex(i: nat, j: nat, k: nat, colBlocks: nat, width: nat)
    ensures OldIndex(i, j, k + 1, colBlocks, width) == OldIndex(i, j, k, colBlocks, width) + 1
    ensures OldIndex(i, j, width, colBlocks, width) == OldIndex(i, j + 1, 0, colBlocks, width)
    ensures OldIndex(i, colBlocks, 0, colBlocks, width) == OldIndex(i + 1, 0, 0, colBlocks, width)
    ensures OldIndex(0, 0, 0, colBlocks, width) == 0
  {
    assert (j + 1) * width == j * width + width;
    assert (i + 1) * (colBlocks * width) == i * (colBlocks * width) + colBlocks * width;
  }

  lemma OldExpanded(i: nat, j: nat, k: nat, c: nat, w: nat)
    ensures (i * c + j) * w + k == i * (c * w) + j * w + k
  {
    assert (i * c + j) * w == i * c * w + j * w;
    assert i * c * w == i * (c * w);
  }

  lemma NewExpanded(r: nat, j: nat, m: nat, k: nat, c: nat, h: nat, w: nat)
    ensures ((r * c + j) * h + m) * w + k == r * (c * h * w) + j * (h * w) + m * w + k
  {
    assert (r * c + j) * h == r * c * h + j * h;
    assert (r * c * h + j * h + m) * w == r * c * h * w + j * h * w + m * w;
    assert r * c * h * w == r * (c * h * w);
    assert j * h * w == j * (h * w);
  }

  // ----- one block linearization in place -----

  ghost predicate MovedAt<T>(b: Blocks, src: seq<T>, dst: seq<T>, q: nat)
    requires |src| == |dst| == b.Total() && q < b.Total()
  {
    DestInRange(b, q);
    dst[Dest(b, q)] == src[q]
  }

  // The first n source elements are where block linearization puts them.
  ghost predicate Moved<T>(b: Blocks, src: seq<T>, dst: seq<T>, n: nat) {
    |src| == |dst| == b.Total() && n <= b.Total() && forall q: nat :: q < n ==> MovedAt(b, src, dst, q)
  }

  lemma MoveOne<T>(b: Blocks, src: seq<T>, dst: seq<T>, n: nat, p: nat)
    requires Moved(b, src, dst, n) && n < b.Total() && p == Dest(b, n) && p < b.Total()
    ensures Moved(b, src, dst[p := src[n]], n + 1)
  {
    hide Dest;
    var dst' := dst[p := src[n]];
    forall q: nat | q < n + 1 ensures MovedAt(b, src, dst', q) {
      DestInRange(b, q);
      if q < n {
        assert MovedAt(b, src, dst, q);
        DestInjective(b, q, n);
      }
    }
  }

  function BlocksOf(nRow: nat, nCol: nat, height: nat, width: nat): Blocks
    requires height > 0 && width > 0
  {
    Blocks(nRow / height, height, nCol / width, width)
  }

  lemma BlocksCover(nRow: nat, nCol: nat, height: nat, width: nat)
    requires height > 0 && width > 0 && nRow % height == 0 && nCol % width == 0
    ensures var b := BlocksOf(nRow, nCol, height, width);
            b.rowBlocks * b.height == nRow && b.Total() == nRow * nCol
            && OldIndex(nRow, 0, 0, b.colBlocks, width) == nRow * nCol
  {
    Recompose(nRow, height);
    Recompose(nCol, width);
    var r, c := nRow / height, nCol / width;
    assert r * height * c * width == (r * height) * (c * width);
  }

  method MatrixBlockLinearize<T(0)>(nRow: nat, nCol: nat, height: nat, width: nat, m: array<T>)
    requires height > 0 && width > 0 && m.Length == nRow * nCol
    modifies m
    ensures nCol % width != 0 || nRow % height != 0 ==> m[..] == old(m[..])
    ensures nCol % width == 0 && nRow % height == 0 ==>
              Moved(BlocksOf(nRow, nCol, height, width), old(m[..]), m[..], nRow * nCol)
  {
    if nCol % width != 0 { return; }
    if nRow % height != 0 { return; }
    BlocksCover(nRow, nCol, height, width);
    CopyBlocks(BlocksOf(nRow, nCol, height, width), nRow, m);
  }

  method CopyBlocks<T(0)>(b: Blocks, nRow: nat, m: array<T>)
    requires b.height > 0 && m.Length == b.Total() && b.rowBlocks * b.height == nRow
    requires OldIndex(nRow, 0, 0, b.colBlocks, b.width) == b.Total()
    modifies m
    ensures Moved(b, old(m[..]), m[..], b.Total())
  {
    hide Dest, Moved, OldIndex, NewIndex, Blocks.Total;
    ghost var src := m[..];
    var total := b.Total();
    var t := new T[total];
    NothingMoved(b, src, t[..]);
    NextIndex(0, 0, 0, b.colBlocks, b.width);
    for i := 0 to nRow
      invariant m[..] == src && Moved(b, src, t[..], OldIndex(i, 0, 0, b.colBlocks, b.width))
    {
      for j := 0 to b.colBlocks
        invariant m[..] == src && Moved(b, src, t[..], OldIndex(i, j, 0, b.colBlocks, b.width))
      {
        for k := 0 to b.width
          invariant m[..] == src && Moved(b, src, t[..], OldIndex(i, j, k, b.colBlocks, b.width))
        {
          IndexExpressions(b, i, j, k);
          var oldIndex := OldIndex(i, j, k, b.colBlocks, b.width);
          var newRow, newBlock := i / b.height, i % b.height;
          var newIndex := NewIndex(newRow, newBlock, j, k, b.colBlocks, b.height, b.width);
          ghost var before := t[..];
          MoveOne(b, src, before, oldIndex, newIndex);
          t[newIndex] := m[oldIndex];
          assert t[..] == before[newIndex := src[oldIndex]];
          NextIndex(i, j, k, b.colBlocks, b.width);
        }
        NextIndex(i, j, 0, b.colBlocks, b.width);
      }
      NextIndex(i, 0, 0, b.colBlocks, b.width);
    }
    assert Moved(b, src, t[..], total);
    ghost var placed := t[..];
    forall q | 0 <= q < total { m[q] := t[q]; }
    assert m[..] == placed;
  }

  lemma NothingMoved<T>(b: Blocks, src: seq<T>, dst: seq<T>)
    requires |src| == |dst| == b.Total()
    ensures Moved(b, src, dst, 0)
  {
  }

  // ----- the two-step transformation -----

  // The HMX weight layout, for a column count that is a multiple of 32.
  function WhIndex(rows: nat, i: nat, j: nat): nat {
    j / 32 * (32 * rows) + i / 2 * 64 + 2 * (j % 32) + i % 2
  }

  // The layout after the first step: pairs of rows interleaved.
  function PairIndex(cols: nat, i: nat, j: nat): nat {
    (i / 2 * cols + j) * 2 + i % 2
  }

  lemma RowMajorIndex(rows: nat, cols: nat, i: nat, j: nat)
    requires i < rows && j < cols
    ensures i * cols + j < rows * cols
  {
    MulMono(i + 1, rows, cols);
    assert (i + 1) * cols == i * cols + cols;
  }

  // The two linearizations' index expressions in closed form.
  lemma PairExpressions(rows: nat, cols: nat, i: nat, j: nat)
    ensures OldIndex(i, j, 0, cols, 1) == i * cols + j
    ensures NewIndex(i / 2, i % 2, j, 0, cols, 2, 1) == PairIndex(cols, i, j)
  {
    assert i / 2 * (cols * 2 * 1) == i / 2 * cols * 2;
  }

  lemma WhExpressions(h: nat, c: nat, i: nat, j: nat)
    ensures OldIndex(i / 2, j / 32, 2 * (j % 32) + i % 2, c, 64) == PairIndex(32 * c, i, j)
    ensures NewIndex(0, i / 2, j / 32, 2 * (j % 32) + i % 2, c, h, 64) == WhIndex(2 * h, i, j)
  {
    assert i / 2 * (c * 64) == i / 2 * (32 * c) * 2;
    assert j / 32 * (h * 64) == j / 32 * (32 * (2 * h));
  }

  lemma FirstStep(rows: nat, cols: nat, i: nat, j: nat)
    requires rows % 2 == 0 && i < rows && j < cols
    ensures var b := BlocksOf(rows, cols, 2, 1);
            i * cols + j < b.Total() && Dest(b, i * cols + j) == PairIndex(cols, i, j) < b.Total()
  {
    hide Dest, OldIndex, NewIndex, PairIndex, Blocks.Total;
    var b := BlocksOf(rows, cols, 2, 1);
    PairExpressions(rows, cols, i, j);
    IndexExpressions(b, i, j, 0);
  }

  lemma OneRowOfBlocks(rows: nat, cols: nat)
    requires rows % 2 == 0 && cols % 32 == 0 && rows > 0
    ensures BlocksOf(rows / 2, cols * 2, rows / 2, 64) == Blocks(1, rows / 2, cols / 32, 64)
  {
    DivModUnique(rows / 2, 1, 0, rows / 2);
  }

  lemma SecondStep(rows: nat, cols: nat, i: nat, j: nat)
    requires rows % 2 == 0 && cols % 32 == 0 && i < rows && j < cols
    ensures var b := BlocksOf(rows / 2, cols * 2, rows / 2, 64);
            PairIndex(cols, i, j) < b.Total() && Dest(b, PairIndex(cols, i, j)) == WhIndex(rows, i, j) < b.Total()
  {
    hide Dest, OldIndex, NewIndex, PairIndex, WhIndex, Blocks.Total, BlocksOf;
    OneRowOfBlocks(rows, cols);
    var h, c := rows / 2, cols / 32;
    IndexExpressions(Blocks(1, h, c, 64), i / 2, j / 32, 2 * (j % 32) + i % 2);
    DivModUnique(i / 2, 0, i / 2, h);
    WhExpressions(h, c, i, j);
  }

  method TransformRmToWh<T(0)>(rows: nat, cols: nat, w: array<T>) returns (status: int)
    requires w.Length == rows * cols
    modifies w
    ensures status == if rows % 2 != 0 || cols % 2 != 0 then -1 else 0
    ensures status == -1 ==> w[..] == old(w[..])
    ensures status == 0 ==> LaidOut(rows, cols, old(w[..]), w[..])
  {
    if rows % 2 != 0 || cols % 2 != 0 { return -1; }
    hide Moved, Dest;
    ghost var w0 := w[..];
    MatrixBlockLinearize(rows, cols, 2, 1, w);
    ghost var w1 := w[..];
    if cols >= 64 && rows >= 2 {
      var stepRows, stepCols := rows / 2, cols * 2;
      var blockRows, blockCols := rows / 2, 64;
      assert stepRows * stepCols == rows * cols;
      if stepCols >= blockCols && stepRows >= blockRows {
        MatrixBlockLinearize(stepRows, stepCols, blockRows, blockCols, w);
      }
    }
    Composed(rows, cols, w0, w1, w[..]);
    return 0;
  }

  // Every element in its final place: the weight layout when the column count is a
  // multiple of 32, the first step's layout otherwise.
  ghost predicate LaidOut<T>(rows: nat, cols: nat, src: seq<T>, dst: seq<T>) {
    |src| == |dst| == rows * cols && forall i, j :: 0 <= i < rows && 0 <= j < cols ==>
      Placed(rows, cols, src, dst, i, j)
  }

  ghost predicate Placed<T>(rows: nat, cols: nat, src: seq<T>, dst: seq<T>, i: nat, j: nat)
    requires |src| == |dst| == rows * cols && i < rows && j < cols
  {
    RowMajorIndex(rows, cols, i, j);
    var at := if cols % 32 == 0 then WhIndex(rows, i, j) else PairIndex(cols, i, j);
    at < |dst| && dst[at] == src[i * cols + j]
  }

  lemma Composed<T>(rows: nat, cols: nat, w0: seq<T>, w1: seq<T>, w2: seq<T>)
    requires rows % 2 == 0 && cols % 2 == 0
    requires Moved(BlocksOf(rows, cols, 2, 1), w0, w1, rows * cols)
    requires cols >= 64 && rows >= 2 && cols % 32 == 0 ==>
             Moved(BlocksOf(rows / 2, cols * 2, rows / 2, 64), w1, w2, rows * cols)
    requires !(cols >= 64 && rows >= 2 && cols % 32 == 0) ==> w2 == w1
    ensures LaidOut(rows, cols, w0, w2)
  {
    forall i: nat, j: nat | i < rows && j < cols
      ensures |w0| == |w2| == rows * cols && Placed(rows, cols, w0, w2, i, j)
    {
      ComposedAt(rows, cols, w0, w1, w2, i, j);
    }
    assert |w0| == |w2| == rows * cols by { BlocksCover(rows, cols, 2, 1); }
  }

  // With 32 columns the second step is skipped and not needed.
  lemma OneBlockIndex(rows: nat, i: nat, j: nat)
    requires j < 32
    ensures WhIndex(rows, i, j) == PairIndex(32, i, j)
  {
  }

  lemma ComposedAt<T>(rows: nat, cols: nat, w0: seq<T>, w1: seq<T>, w2: seq<T>, i: nat, j: nat)
    requires rows % 2 == 0 && cols % 2 == 0 && i < rows && j < cols
    requires Moved(BlocksOf(rows, cols, 2, 1), w0, w1, rows * cols)
    requires cols >= 64 && rows >= 2 && cols % 32 == 0 ==>
             Moved(BlocksOf(rows / 2, cols * 2, rows / 2, 64), w1, w2, rows * cols)
    requires !(cols >= 64 && rows >= 2 && cols % 32 == 0) ==> w2 == w1
    ensures |w0| == |w2| == rows * cols && Placed(rows, cols, w0, w2, i, j)
  {
    hide Dest, BlocksOf, WhIndex, PairIndex;
    RowMajorIndex(rows, cols, i, j);
    FirstStep(rows, cols, i, j);
    BlocksCover(rows, cols, 2, 1);
    assert MovedAt(BlocksOf(rows, cols, 2, 1), w0, w1, i * cols + j);
    if cols % 32 == 0 {
      if cols >= 64 {
        SecondStep(rows, cols, i, j);
        assert MovedAt(BlocksOf(rows / 2, cols * 2, rows / 2, 64), w1, w2, PairIndex(cols, i, j));
      } else {
        OneBlockIndex(rows, i, j);
      }
    }
  }

  function WhShape(rows: nat, cols: nat): seq<nat> { [cols / 32, rows / 2, 32, 2] }

  function WhDigits(i: nat, j: nat): seq<nat> { [j / 32, i / 2, j % 32, i % 2] }

  lemma WhShapeSize(rows: nat, cols: nat)
    requires rows % 2 == 0 && cols % 32 == 0
    ensures Size(WhShape(rows, cols)) == rows * cols
  {
    Linear4([0, 0, 0, 0], WhShape(rows, cols));
    var h, c := rows / 2, cols / 32;
    assert c * h * 32 * 2 == (h * 2) * (c * 32);
  }

  lemma WhIsLinear(rows: nat, cols: nat, i: nat, j: nat)
    requires rows % 2 == 0
    ensures WhIndex(rows, i, j) == Linear(WhDigits(i, j), WhShape(rows, cols))
  {
    Linear4(WhDigits(i, j), WhShape(rows, cols));
    var b, h := j / 32, rows / 2;
    assert (b * h) * 64 == b * (32 * (2 * h));
  }

  // The weight layout is a permutation of the matrix: every element has a place inside,
  lemma WhIndexInRange(rows: nat, cols: nat, i: nat, j: nat)
    requires rows % 2 == 0 && cols % 32 == 0 && i < rows && j < cols
    ensures WhIndex(rows, i, j) < rows * cols
    ensures MultiDim(WhIndex(rows, i, j), WhShape(rows, cols)) == WhDigits(i, j)
  {
    hide Linear, MultiDim, WhIndex;
    assert InBounds(WhDigits(i, j), WhShape(rows, cols));
    WhIsLinear(rows, cols, i, j);
    LinearInBounds(WhDigits(i, j), WhShape(rows, cols));
    WhShapeSize(rows, cols);
  }

  // different elements have different places,
  lemma WhIndexInjective(rows: nat, cols: nat, i: nat, j: nat, k: nat, l: nat)
    requires rows % 2 == 0 && cols % 32 == 0 && i < rows && j < cols && k < rows && l < cols
    requires (i, j) != (k, l)
    ensures WhIndex(rows, i, j) != WhIndex(rows, k, l)
  {
    hide WhIndex, MultiDim;
    WhIndexInRange(rows, cols, i, j);
    WhIndexInRange(rows, cols, k, l);
    var d, e := WhDigits(i, j), WhDigits(k, l);
    assert d[0] != e[0] || d[1] != e[1] || d[2] != e[2] || d[3] != e[3];
  }

  // and every place holds an element.
  lemma WhIndexOnto(rows: nat, cols: nat, p: nat) returns (i: nat, j: nat)
    requires rows % 2 == 0 && cols % 32 == 0 && p < rows * cols
    ensures i < rows && j < cols && WhIndex(rows, i, j) == p
  {
    hide WhIndex, Linear, MultiDim;
    WhShapeSize(rows, cols);
    NoEmptyDim(WhShape(rows, cols));
    MultiDimInBounds(p, WhShape(rows, cols));
    var d := MultiDim(p, WhShape(rows, cols));
    assert d[0] < cols / 32 && d[1] < rows / 2 && d[2] < 32 && d[3] < 2;
    i, j := d[1] * 2 + d[3], d[0] * 32 + d[2];
    assert d == [d[0], d[1], d[2], d[3]] == WhDigits(i, j);
    WhIsLinear(rows, cols, i, j);
  }
}
