// DecomposeHexKLMatmulPass.cpp: the tile loop emitted for hexkl.matmul, run on
// an HMX unit whose VTCM block is carved into 4096-byte slots.
module TiledMatmul {

  const TILE := 32
  const SLOT_BYTES := 4096
  // The slots kept for the unit's configuration block at the end of the allocation.
  const CONFIG_SLOTS := 3

  type Matrix = (int, int) -> int

  // What a slot holds, by layout: an operation reads the layout it needs.
  datatype Tile =
    | Junk
    | Flat(at: Matrix)
    | Activation(at: Matrix)
    | Weight(at: Matrix)
    | Config

  ghost function Dot(a: Matrix, b: Matrix, i: int, j: int, n: nat): int {
    if n == 0 then 0 else Dot(a, b, i, j, n - 1) + a(i, n - 1) * b(n - 1, j)
  }

  function TileSum(a: Matrix, b: Matrix, r: int, c: int, n: nat): int {
    if n == 0 then 0 else TileSum(a, b, r, c, n - 1) + a(r, n - 1) * b(n - 1, c)
  }

  // ----- the HMX micro operations, one abstract contract each -----

  class Hmx {
    const slots: array<Tile>
    var acc: Matrix

    constructor (tiles: nat)
      requires tiles >= CONFIG_SLOTS
      ensures slots.Length == tiles && fresh(slots)
    {
      slots := new Tile[tiles](_ => Junk);
      acc := (_, _) => 0;
    }

    // A byte offset that names one whole slot of the allocation.
    ghost predicate InBlock(offset: nat)
    {
      offset % SLOT_BYTES == 0 && offset + SLOT_BYTES <= slots.Length * SLOT_BYTES
    }

    function Slot(offset: nat): (s: nat)
      requires InBlock(offset)
      ensures s < slots.Length && s * SLOT_BYTES == offset
    {
      offset / SLOT_BYTES
    }

    // The configuration block at the end of the allocation is in place.
    ghost predicate Configured()
      reads slots
    {
      slots.Length >= CONFIG_SLOTS && forall s :: slots.Length - CONFIG_SLOTS <= s < slots.Length ==> slots[s] == Config
    }

    method SetupAccRead()
      requires slots.Length >= CONFIG_SLOTS
      modifies slots
      ensures Configured()
    {
      for s := slots.Length - CONFIG_SLOTS to slots.Length
        invariant forall t :: slots.Length - CONFIG_SLOTS <= t < s ==> slots[t] == Config
      {
        slots[s] := Config;
      }
    }

    // A tile of a rows x cols matrix, zero beyond its edges.
    method CopySubmatrixToF16(outOffset: nat, src: Matrix, tileRow: nat, tileCol: nat, rows: nat, cols: nat)
      requires InBlock(outOffset)
      modifies slots
      ensures slots[Slot(outOffset)].Flat?
      ensures Padded(slots[Slot(outOffset)].at, src, tileRow, tileCol, rows, cols)
      ensures forall s :: 0 <= s < slots.Length && s != Slot(outOffset) ==> slots[s] == old(slots[s])
    {
      slots[Slot(outOffset)] := Flat((r, c) => PaddedAt(src, TILE * tileRow + r, TILE * tileCol + c, rows, cols));
    }

    method RmToAh(activationOut: nat, flatIn: nat)
      requires InBlock(activationOut) && InBlock(flatIn) && slots[Slot(flatIn)].Flat?
      modifies slots
      ensures slots[Slot(activationOut)] == Activation(old(slots[Slot(flatIn)].at))
      ensures forall s :: 0 <= s < slots.Length && s != Slot(activationOut) ==> slots[s] == old(slots[s])
    {
      slots[Slot(activationOut)] := Activation(slots[Slot(flatIn)].at);
    }

    // The row count is not passed: what comes from beyond the matrix is arbitrary.
    method RmToWh(weightOffset: nat, src: Matrix, tileRow: nat, tileCol: nat, ghost rows: nat, cols: nat)
      requires InBlock(weightOffset)
      modifies slots
      ensures slots[Slot(weightOffset)].Weight?
      ensures WeightTile(slots[Slot(weightOffset)].at, src, tileRow, tileCol, rows, cols)
      ensures forall s :: 0 <= s < slots.Length && s != Slot(weightOffset) ==> slots[s] == old(slots[s])
    {
      slots[Slot(weightOffset)] := Weight((r, c) => src(TILE * tileRow + r, TILE * tileCol + c));
    }

    method AccClear()
      modifies this`acc
      ensures forall r, c :: acc(r, c) == 0
    {
      acc := (_, _) => 0;
    }

    method Mm(activation: nat, weight: nat)
      requires InBlock(activation) && InBlock(weight)
      requires slots[Slot(activation)].Activation? && slots[Slot(weight)].Weight?
      modifies this`acc
      ensures forall r, c :: acc(r, c) ==
                old(acc)(r, c) + TileSum(slots[Slot(activation)].at, slots[Slot(weight)].at, r, c, TILE)
    {
      var f, a, b := acc, slots[Slot(activation)].at, slots[Slot(weight)].at;
      acc := (r, c) => f(r, c) + TileSum(a, b, r, c, TILE);
    }

    method AccRead(outOffset: nat)
      requires InBlock(outOffset) && Configured()
      modifies slots
      ensures slots[Slot(outOffset)] == Activation(acc)
      ensures forall s :: 0 <= s < slots.Length && s != Slot(outOffset) ==> slots[s] == old(slots[s])
    {
      slots[Slot(outOffset)] := Activation(acc);
    }

    method AhToRm(flatOut: nat, activationIn: nat)
      requires InBlock(flatOut) && InBlock(activationIn) && slots[Slot(activationIn)].Activation?
      modifies slots
      ensures slots[Slot(flatOut)] == Flat(old(slots[Slot(activationIn)].at))
      ensures forall s :: 0 <= s < slots.Length && s != Slot(flatOut) ==> slots[s] == old(slots[s])
    {
      slots[Slot(flatOut)] := Flat(slots[Slot(activationIn)].at);
    }

    // Writes the part of the tile that lies inside the output.
    method CopyF16ToF32Submatrix(inOffset: nat, dst: array2<int>, tileRow: nat, tileCol: nat)
      requires InBlock(inOffset) && slots[Slot(inOffset)].Flat?
      modifies dst
      ensures forall i, j :: 0 <= i < dst.Length0 && 0 <= j < dst.Length1 ==>
                dst[i, j] == (if InTile(i, tileRow) && InTile(j, tileCol)
                              then slots[Slot(inOffset)].at(i - TILE * tileRow, j - TILE * tileCol)
                              else old(dst[i, j]))
    {
      var at := slots[Slot(inOffset)].at;
      forall i, j | 0 <= i < dst.Length0 && 0 <= j < dst.Length1 && InTile(i, tileRow) && InTile(j, tileCol) {
        dst[i, j] := at(i - TILE * tileRow, j - TILE * tileCol);
      }
    }
  }

  predicate InTile(i: int, tile: nat) { TILE * tile <= i < TILE * (tile + 1) }

  function PaddedAt(src: Matrix, i: int, j: int, rows: nat, cols: nat): int {
    if i < rows && j < cols then src(i, j) else 0
  }

  ghost predicate Padded(at: Matrix, src: Matrix, tileRow: nat, tileCol: nat, rows: nat, cols: nat) {
    forall r, c :: 0 <= r < TILE && 0 <= c < TILE ==>
      at(r, c) == PaddedAt(src, TILE * tileRow + r, TILE * tileCol + c, rows, cols)
  }

  // Entries inside the weight matrix; beyond it a weight tile may hold anything.
  ghost predicate WeightTile(at: Matrix, src: Matrix, tileRow: nat, tileCol: nat, rows: nat, cols: nat) {
    forall r, c :: 0 <= r < TILE && 0 <= c < TILE && TILE * tileRow + r < rows && TILE * tileCol + c < cols ==>
      at(r, c) == src(TILE * tileRow + r, TILE * tileCol + c)
  }

  function Min(a: nat, b: nat): nat { if a < b then a else b }

  // One weight tile against one padded activation tile adds that tile's stretch of the
  // inner product: past the end of K the zero padding cancels whatever the weight tile holds.
  lemma {:induction false} TileAddsStretch(a: Matrix, b: Matrix, act: Matrix, wt: Matrix, m: nat, k: nat, n: nat,
                                           rowTile: nat, colTile: nat, t: nat, r: nat, c: nat, x: nat)
    requires x <= TILE && r < TILE && c < TILE && TILE * rowTile + r < m && TILE * colTile + c < n
    requires Padded(act, a, rowTile, t, m, k) && WeightTile(wt, b, t, colTile, k, n)
    ensures TileSum(act, wt, r, c, x) ==
            Dot(a, b, TILE * rowTile + r, TILE * colTile + c, Min(TILE * t + x, k))
            - Dot(a, b, TILE * rowTile + r, TILE * colTile + c, Min(TILE * t, k))
  {
    if x > 0 {
      TileAddsStretch(a, b, act, wt, m, k, n, rowTile, colTile, t, r, c, x - 1);
      assert act(r, x - 1) == PaddedAt(a, TILE * rowTile + r, TILE * t + (x - 1), m, k);
    }
  }

  // ----- the emitted program -----

  // The activation tiles of one row of tiles, each still in its slot.
  ghost predicate RowLoaded(h: Hmx, a: Matrix, rowTile: nat, m: nat, k: nat, upTo: nat)
    requires upTo <= h.slots.Length
    reads h.slots
  {
    forall t :: 0 <= t < upTo ==> h.slots[t].Activation? && Padded(h.slots[t].at, a, rowTile, t, m, k)
  }

  ghost predicate Block(h: Hmx, kTiles: nat)
    reads h.slots
  {
    h.slots.Length == kTiles * 2 + 2 + CONFIG_SLOTS && h.Configured()
  }

  method LoadActivation(h: Hmx, a: Matrix, rowTile: nat, m: nat, k: nat, kTiles: nat)
    requires Block(h, kTiles)
    modifies h.slots
    ensures Block(h, kTiles) && RowLoaded(h, a, rowTile, m, k, kTiles)
  {
    for kt := 0 to kTiles
      invariant Block(h, kTiles) && RowLoaded(h, a, rowTile, m, k, kt)
    {
      var scratch := (kTiles + kt) * SLOT_BYTES;
      h.CopySubmatrixToF16(scratch, a, rowTile, kt, m, k);
      var activation := kt * SLOT_BYTES;
      h.RmToAh(activation, scratch);
    }
  }

  // The accumulator holds the first depth products of every entry inside the output.
  ghost predicate Accumulated(acc: Matrix, a: Matrix, b: Matrix, m: nat, n: nat, rowTile: nat, colTile: nat,
                              depth: nat) {
    forall r, c :: 0 <= r < TILE && 0 <= c < TILE && TILE * rowTile + r < m && TILE * colTile + c < n ==>
      acc(r, c) == Dot(a, b, TILE * rowTile + r, TILE * colTile + c, depth)
  }

  lemma EmptySum(acc: Matrix, a: Matrix, b: Matrix, m: nat, n: nat, rowTile: nat, colTile: nat)
    requires forall r, c :: acc(r, c) == 0
    ensures Accumulated(acc, a, b, m, n, rowTile, colTile, 0)
  {
  }

  lemma OneTileMore(before: Matrix, acc: Matrix, a: Matrix, b: Matrix, act: Matrix, wt: Matrix,
                    m: nat, k: nat, n: nat, rowTile: nat, colTile: nat, t: nat)
    requires Accumulated(before, a, b, m, n, rowTile, colTile, Min(TILE * t, k))
    requires Padded(act, a, rowTile, t, m, k) && WeightTile(wt, b, t, colTile, k, n)
    requires forall r, c :: acc(r, c) == before(r, c) + TileSum(act, wt, r, c, TILE)
    ensures Accumulated(acc, a, b, m, n, rowTile, colTile, Min(TILE * (t + 1), k))
  {
    forall r, c | 0 <= r < TILE && 0 <= c < TILE && TILE * rowTile + r < m && TILE * colTile + c < n
      ensures acc(r, c) == Dot(a, b, TILE * rowTile + r, TILE * colTile + c, Min(TILE * (t + 1), k))
    {
      TileAddsStretch(a, b, act, wt, m, k, n, rowTile, colTile, t, r, c, TILE);
    }
  }

  method AccumulateTile(h: Hmx, a: Matrix, b: Matrix, rowTile: nat, colTile: nat, m: nat, k: nat, n: nat, kTiles: nat)
    requires Block(h, kTiles) && RowLoaded(h, a, rowTile, m, k, kTiles) && kTiles == (k + 31) / 32
    modifies h.slots, h`acc
    ensures Block(h, kTiles) && RowLoaded(h, a, rowTile, m, k, kTiles)
    ensures Accumulated(h.acc, a, b, m, n, rowTile, colTile, k)
  {
    hide Accumulated, Padded, WeightTile, TileSum;
    var weight := kTiles * SLOT_BYTES;
    h.AccClear();
    EmptySum(h.acc, a, b, m, n, rowTile, colTile);
    for kt := 0 to kTiles
      invariant Block(h, kTiles) && RowLoaded(h, a, rowTile, m, k, kTiles)
      invariant Accumulated(h.acc, a, b, m, n, rowTile, colTile, Min(TILE * kt, k))
    {
      h.RmToWh(weight, b, kt, colTile, k, n);
      var activation := kt * SLOT_BYTES;
      ghost var act, wt, before := h.slots[kt].at, h.slots[kTiles].at, h.acc;
      h.Mm(activation, weight);
      OneTileMore(before, h.acc, a, b, act, wt, m, k, n, rowTile, colTile, kt);
    }
  }

  method StoreTile(h: Hmx, a: Matrix, b: Matrix, dst: array2<int>, rowTile: nat, colTile: nat, k: nat, kTiles: nat,
                   m: nat)
    requires Block(h, kTiles) && RowLoaded(h, a, rowTile, m, k, kTiles) && dst.Length0 == m
    requires Accumulated(h.acc, a, b, m, dst.Length1, rowTile, colTile, k)
    modifies h.slots, dst
    ensures Block(h, kTiles) && RowLoaded(h, a, rowTile, m, k, kTiles)
    ensures forall i, j :: 0 <= i < m && 0 <= j < dst.Length1 ==>
              (if InTile(i, rowTile) && InTile(j, colTile) then dst[i, j] == Dot(a, b, i, j, k)
               else dst[i, j] == old(dst[i, j]))
  {
    var accOffset := (kTiles + 1) * SLOT_BYTES;
    var flat := kTiles * SLOT_BYTES;
    h.AccRead(accOffset);
    h.AhToRm(flat, accOffset);
    h.CopyF16ToF32Submatrix(flat, dst, rowTile, colTile);
    forall i, j | 0 <= i < m && 0 <= j < dst.Length1 && InTile(i, rowTile) && InTile(j, colTile)
      ensures dst[i, j] == Dot(a, b, i, j, k)
    {
      var r, c := i - TILE * rowTile, j - TILE * colTile;
      assert dst[i, j] == h.acc(r, c);
    }
  }

  // The whole program computes the product for any M, K and N, overwriting the output.
  method Matmul(a: Matrix, b: Matrix, dst: array2<int>, k: nat)
    modifies dst
    ensures forall i, j :: 0 <= i < dst.Length0 && 0 <= j < dst.Length1 ==> dst[i, j] == Dot(a, b, i, j, k)
  {
    var m, n := dst.Length0, dst.Length1;
    var kTiles := (k + 31) / 32;
    var h := new Hmx(kTiles * 2 + 2 + CONFIG_SLOTS);
    h.SetupAccRead();
    var row := 0;
    while row < m
      invariant row % TILE == 0 && Block(h, kTiles) && fresh(h) && fresh(h.slots)
      invariant forall i, j :: 0 <= i < m && i < row && 0 <= j < n ==> dst[i, j] == Dot(a, b, i, j, k)
    {
      var rowTile := row / TILE;
      LoadActivation(h, a, rowTile, m, k, kTiles);
      var col := 0;
      while col < n
        invariant col % TILE == 0 && Block(h, kTiles) && RowLoaded(h, a, rowTile, m, k, kTiles)
        invariant forall i, j :: 0 <= i < m && i < row && 0 <= j < n ==> dst[i, j] == Dot(a, b, i, j, k)
        invariant forall i, j :: 0 <= i < m && row <= i < row + TILE && 0 <= j < n && j < col ==>
                  dst[i, j] == Dot(a, b, i, j, k)
      {
        var colTile := col / TILE;
        AccumulateTile(h, a, b, rowTile, colTile, m, k, n, kTiles);
        StoreTile(h, a, b, dst, rowTile, colTile, k, kTiles, m);
        col := col + TILE;
      }
      row := row + TILE;
    }
  }
}
