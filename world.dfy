/**
 * The voxel grid of a world (`Level`): a dense array of block ids with fixed
 * dimensions, bounds-checked reads and writes, the player-driven slab-stacking
 * rule, initialisation and generation, the downward column scan and the byte
 * export.
 *
 * Axes: Width is x, Depth is y (vertical), Height is z; the cell (x, y, z) is
 * stored at index (y * Height + z) * Width + x.
 *
 * Calls that leave the grid (tick scheduling, broadcasts to every session, the
 * plugin hook, the correction frame sent to the changing player, the
 * level-loaded hook) are recorded, in order, in the ghost log `Events`.
 */
module World {
  import opened Common

  /** A block id. The width of the block enum is not part of this model, so a
      block is an integer and the `(byte)` cast is written out explicitly. */
  type Block = int

  const AIR: Block := 0

  /** C#'s unchecked `(byte)` conversion: the low 8 bits of the two's-complement value. */
  function ToByte(b: Block): (r: byte)
    ensures (b - r) % 256 == 0
  {
    b % 256
  }

  /** The block catalogue collaborator: which blocks are half slabs and the full
      block that two stacked slabs of a kind become. */
  datatype BlockConfig = BlockConfig(isSlab: Block -> bool, fullSlabType: Block -> Block)

  /** One write a generator strategy makes through `SetBlock`. */
  datatype Placement = Placement(x: int, y: int, z: int, block: Block)

  /** A block position. */
  datatype BlockPos = BlockPos(x: int, y: int, z: int)

  /** Whether `v` is a value `Random.Next(lo, hi)` can return: lo itself when
      the range is empty, otherwise a value in [lo, hi). */
  predicate RandomInRange(v: int, lo: int, hi: int)
  {
    if lo >= hi then v == lo else lo <= v < hi
  }

  /** A call from the level to the rest of the server: the tick queue, the
      broadcast, the plugins, the changing player. */
  datatype LevelEvent =
    | TickScheduled(x: int, y: int, z: int)                       // ScheduleBlockTick
    | ChangeBroadcast(x: int, y: int, z: int, block: Block)       // server.BroadcastBlockChange
    | ChangeHook(x: int, y: int, z: int, block: Block)            // PluginManager.OnLevelBlockChange
    | ChangerReset(x: int, y: int, z: int, block: Block)          // ServerSetBlock frame sent to the changer
    | LevelLoaded                                                 // PluginManager.OnLevelLoaded

  /** A product of a positive factor and a factor of at least one is at least the first. */
  lemma {:induction false} MulAtLeast(k: int, n: int)
    requires k >= 1 && n >= 0
    ensures k * n >= n
    decreases k
  {
    if k > 1 {
      MulAtLeast(k - 1, n);
      assert k * n == (k - 1) * n + n;
    }
  }

  /** Mixed-radix digits are unique: q * n + r determines q and r when 0 <= r < n. */
  lemma DigitsUnique(q: int, r: int, q': int, r': int, n: int)
    requires 0 <= r < n && 0 <= r' < n
    requires q * n + r == q' * n + r'
    ensures q == q' && r == r'
  {
    assert (q - q') * n == r' - r;
    assert (q' - q) * n == r - r';
    if q > q' {
      MulAtLeast(q - q', n);
    } else if q < q' {
      MulAtLeast(q' - q, n);
    }
  }

  /** A positive product of non-negative factors has positive factors. */
  lemma PositiveFactors(a: int, b: int, c: int)
    requires a >= 0 && b >= 0 && c >= 0 && a * b * c > 0
    ensures a > 0 && b > 0 && c > 0
  {
  }

  /** A quotient of a number below m * n by n is below m. */
  lemma QuotientBelow(i: int, n: int, m: int)
    requires n > 0 && 0 <= i < m * n
    ensures 0 <= i / n < m
  {
    var q := i / n;
    assert i == q * n + i % n;
    assert (q - m + 1) * n == q * n - m * n + n;
    if q >= m {
      MulAtLeast(q - m + 1, n);
    }
  }

  /** The mixed-radix number q * n + r with 0 <= q < m and 0 <= r < n lies in [0, m * n). */
  lemma DigitsInRange(q: int, r: int, m: int, n: int)
    requires 0 <= q < m && 0 <= r < n
    ensures 0 <= q * n + r < m * n
  {
    MulAtLeast(m - q, n);
    assert m * n - q * n == (m - q) * n;
    if q > 0 {
      MulAtLeast(q, n);
    }
  }

  class Level {
    const Width: int
    const Depth: int
    const Height: int
    /** Width * Height * Depth, the number of cells. */
    const Size: int

    var Blocks: array<Block>
    var Generated: bool
    var CreationTime: int
    var ModificationTime: int
    var AccessedTime: int
    ghost var Events: seq<LevelEvent>

    /** The dimensions are C# shorts whose product is the length of a .NET array. */
    ghost predicate ValidDimensions()
    {
      && 0 <= Width <= INT16_MAX && 0 <= Depth <= INT16_MAX && 0 <= Height <= INT16_MAX
      && Size == Width * Height * Depth <= INT32_MAX
    }

    ghost predicate Valid()
      reads this
    {
      ValidDimensions() && Blocks.Length == Size
    }

    /** Whether (x, y, z) lies inside the grid: y is bounded by Depth and z by Height. */
    predicate IsValidBlock(x: int, y: int, z: int): (r: bool)
      ensures r <==> 0 <= x < Width && 0 <= y < Depth && 0 <= z < Height
    {
      !(x < 0 || y < 0 || z < 0 || x >= Width || y >= Depth || z >= Height)
    }

    /** The index of (x, y, z) in the block array, y-major then z then x;
        every coordinate inside the grid has its index inside the array. */
    function GetBlockIndex(x: int, y: int, z: int): (r: int)
      ensures IsValidBlock(x, y, z) ==> 0 <= r < Width * Height * Depth
      ensures ValidDimensions() && IsValidBlock(x, y, z) ==> 0 <= r < Size
    {
      var i := (y * Height + z) * Width + x;
      if IsValidBlock(x, y, z) then
        DigitsInRange(y, z, Depth, Height);
        DigitsInRange(y * Height + z, x, Depth * Height, Width);
        assert (Depth * Height) * Width == Width * Height * Depth;
        i
      else i
    }

    /** The coordinate stored at an index: the inverse of GetBlockIndex. */
    function CoordinateOf(i: int): (c: (int, int, int))
      requires ValidDimensions() && 0 <= i < Size
      ensures IsValidBlock(c.0, c.1, c.2) && GetBlockIndex(c.0, c.1, c.2) == i
    {
      PositiveFactors(Width, Height, Depth);
      var x := i % Width;
      var row := i / Width;
      var z := row % Height;
      var y := row / Height;
      assert i == row * Width + x;
      assert row == y * Height + z;
      QuotientBelow(i, Width, Depth * Height);
      QuotientBelow(row, Height, Depth);
      (x, y, z)
    }

    /** Decoding the index of a valid coordinate gives the coordinate back. */
    lemma IndexRoundTrip(x: int, y: int, z: int)
      requires ValidDimensions() && IsValidBlock(x, y, z)
      ensures 0 <= GetBlockIndex(x, y, z) < Size
      ensures CoordinateOf(GetBlockIndex(x, y, z)) == (x, y, z)
    {
      var c := CoordinateOf(GetBlockIndex(x, y, z));
      DigitsUnique(c.1 * Height + c.2, c.0, y * Height + z, x, Width);
      DigitsUnique(c.1, c.2, y, z, Height);
    }

    /** Distinct valid coordinates occupy distinct cells. */
    lemma IndexInjective(x: int, y: int, z: int, x': int, y': int, z': int)
      requires ValidDimensions() && IsValidBlock(x, y, z) && IsValidBlock(x', y', z')
      requires GetBlockIndex(x, y, z) == GetBlockIndex(x', y', z')
      ensures x == x' && y == y' && z == z'
    {
      IndexRoundTrip(x, y, z);
      IndexRoundTrip(x', y', z');
    }

    /** The block a read of (x, y, z) sees in the cell contents `cells`: air outside the grid. */
    function Cell(cells: seq<Block>, x: int, y: int, z: int): (r: Block)
      requires ValidDimensions() && |cells| == Size
      ensures !IsValidBlock(x, y, z) ==> r == AIR
    {
      if IsValidBlock(x, y, z) then cells[GetBlockIndex(x, y, z)] else AIR
    }

    /** The contents after a `SetBlock` of `block` at (x, y, z). */
    function Write(cells: seq<Block>, x: int, y: int, z: int, block: Block): (r: seq<Block>)
      requires ValidDimensions() && |cells| == Size
      ensures |r| == Size
      ensures IsValidBlock(x, y, z) ==> r[GetBlockIndex(x, y, z)] == block
      ensures forall i :: 0 <= i < Size && !(IsValidBlock(x, y, z) && i == GetBlockIndex(x, y, z)) ==> r[i] == cells[i]
    {
      if IsValidBlock(x, y, z) then cells[GetBlockIndex(x, y, z) := block] else cells
    }

    /** Read after write: a write changes what its own coordinate reads and nothing else. */
    lemma {:induction false} ReadAfterWrite(cells: seq<Block>, x: int, y: int, z: int, block: Block, x': int, y': int, z': int)
      requires ValidDimensions() && |cells| == Size
      ensures |Write(cells, x, y, z, block)| == |cells|
      ensures Cell(Write(cells, x, y, z, block), x', y', z') ==
                if IsValidBlock(x, y, z) && (x, y, z) == (x', y', z') then block else Cell(cells, x', y', z')
    {
      if IsValidBlock(x, y, z) && IsValidBlock(x', y', z') {
        var i, j := GetBlockIndex(x, y, z), GetBlockIndex(x', y', z');
        if (x, y, z) != (x', y', z') {
          if i == j {
            IndexInjective(x, y, z, x', y', z');
          }
          assert cells[i := block][j] == cells[j];
        }
      }
    }

    /** The contents after a generator's writes, applied in order. */
    function ApplyAll(cells: seq<Block>, writes: seq<Placement>): (r: seq<Block>)
      requires ValidDimensions() && |cells| == Size
      ensures |r| == |cells|
    {
      if writes == [] then cells
      else
        var p := writes[|writes| - 1];
        Write(ApplyAll(cells, writes[..|writes| - 1]), p.x, p.y, p.z, p.block)
    }

    /** The hook calls a generator's writes make while the level is not yet generated. */
    function GenerationHooks(writes: seq<Placement>): seq<LevelEvent>
    {
      if writes == [] then []
      else
        var p := writes[|writes| - 1];
        GenerationHooks(writes[..|writes| - 1])
          + (if IsValidBlock(p.x, p.y, p.z) then [ChangeHook(p.x, p.y, p.z, p.block)] else [])
    }

    /** During generation no tick is scheduled and nothing is broadcast: only hooks fire. */
    lemma {:induction false} GenerationOnlyHooks(writes: seq<Placement>)
      ensures forall e :: e in GenerationHooks(writes) ==> e.ChangeHook?
      ensures |GenerationHooks(writes)| <= |writes|
    {
      if writes != [] {
        GenerationOnlyHooks(writes[..|writes| - 1]);
      }
    }

    constructor (w: int, d: int, h: int, generator: seq<Placement>, now: int)
      requires 0 <= w <= INT16_MAX && 0 <= d <= INT16_MAX && 0 <= h <= INT16_MAX
      requires w * h * d <= INT32_MAX
      ensures Valid() && fresh(Blocks)
      ensures Width == w && Depth == d && Height == h && Generated
      ensures Blocks[..] == ApplyAll(seq(Size, _ => AIR), generator)
      ensures Events == GenerationHooks(generator) + [LevelLoaded]
      ensures CreationTime == now
    {
      Width, Depth, Height, Size := w, d, h, w * h * d;
      CreationTime := now;
      Blocks := new Block[0];
      Events := [];
      new;
      Init(generator, now);
      Events := Events + [LevelLoaded];
    }

    /** The constructor used when a saved world is loaded: the grid comes in
        already generated. */
    constructor FromSaved(w: int, d: int, h: int, blocks: array<Block>)
      requires 0 <= w <= INT16_MAX && 0 <= d <= INT16_MAX && 0 <= h <= INT16_MAX
      requires w * h * d <= INT32_MAX && blocks.Length == w * h * d
      ensures Valid() && Blocks == blocks && Generated
      ensures Width == w && Depth == d && Height == h
      ensures Events == [LevelLoaded]
    {
      Width, Depth, Height, Size := w, d, h, w * h * d;
      Blocks := blocks;
      Generated := true;
      Events := [LevelLoaded];
    }

    /** Allocates an all-air grid, clears Generated and runs the generator. */
    method Init(generator: seq<Placement>, now: int)
      requires ValidDimensions()
      modifies this
      ensures Valid() && fresh(Blocks) && Generated
      ensures Blocks[..] == ApplyAll(seq(Size, _ => AIR), generator)
      ensures Events == old(Events) + GenerationHooks(generator)
      ensures CreationTime == old(CreationTime) && AccessedTime == old(AccessedTime)
    {
      var cells := new Block[Size];
      for i := 0 to cells.Length
        modifies cells
        invariant forall j :: 0 <= j < i ==> cells[j] == AIR
      {
        cells[i] := AIR;
      }
      assert cells[..] == seq(Size, _ => AIR);
      Blocks := cells;
      Generated := false;
      Generate(generator, now);
    }

    /** Runs the generator's writes, then marks the level generated. */
    method Generate(generator: seq<Placement>, now: int)
      requires Valid() && !Generated
      modifies Blocks, this`Generated, this`ModificationTime, this`Events
      ensures Valid() && Generated
      ensures Blocks[..] == ApplyAll(old(Blocks[..]), generator)
      ensures Events == old(Events) + GenerationHooks(generator)
      ensures ModificationTime == old(ModificationTime) || ModificationTime == now
    {
      for i := 0 to |generator|
        invariant !Generated
        invariant Blocks[..] == ApplyAll(old(Blocks[..]), generator[..i])
        invariant Events == old(Events) + GenerationHooks(generator[..i])
        invariant ModificationTime == old(ModificationTime) || ModificationTime == now
      {
        var p := generator[i];
        assert generator[..i + 1][..i] == generator[..i];
        var _ := SetBlock(p.x, p.y, p.z, p.block, now);
      }
      assert generator[..|generator|] == generator;
      Generated := true;
    }

    /** The calls a successful write makes: a tick and a broadcast once the
        level is generated, and the plugin hook always. */
    ghost function WriteEvents(x: int, y: int, z: int, block: Block): seq<LevelEvent>
      reads this
    {
      if !IsValidBlock(x, y, z) then []
      else (if Generated then [TickScheduled(x, y, z), ChangeBroadcast(x, y, z, block)] else [])
           + [ChangeHook(x, y, z, block)]
    }

    method SetBlock(x: int, y: int, z: int, block: Block, now: int) returns (ok: bool)
      requires Valid()
      modifies Blocks, this`ModificationTime, this`Events
      ensures Valid()
      ensures ok == IsValidBlock(x, y, z)
      ensures Blocks[..] == Write(old(Blocks[..]), x, y, z, block)
      ensures Cell(Blocks[..], x, y, z) == if ok then block else AIR
      ensures ModificationTime == if ok then now else old(ModificationTime)
      ensures Events == old(Events) + WriteEvents(x, y, z, block)
    {
      if !IsValidBlock(x, y, z) {
        return false;
      }
      Blocks[GetBlockIndex(x, y, z)] := block;
      ModificationTime := now;
      if Generated {
        Events := Events + [TickScheduled(x, y, z), ChangeBroadcast(x, y, z, block)];
      }
      Events := Events + [ChangeHook(x, y, z, block)];
      return true;
    }

    /** The slab-stacking rule: a slab placed on a slab. */
    ghost predicate StacksSlab(cfg: BlockConfig, cells: seq<Block>, x: int, y: int, z: int, block: Block)
      requires ValidDimensions() && |cells| == Size
    {
      cfg.isSlab(block) && cfg.isSlab(Cell(cells, x, y - 1, z))
    }

    /** The entry point for player-changed blocks. */
    method ChangeBlock(x: int, y: int, z: int, block: Block, cfg: BlockConfig, now: int) returns (ok: bool)
      requires Valid()
      modifies Blocks, this`ModificationTime, this`AccessedTime, this`Events
      ensures Valid()
      ensures ok == IsValidBlock(x, y, z)
      ensures !ok ==> Blocks[..] == old(Blocks[..]) && Events == old(Events)
                      && ModificationTime == old(ModificationTime) && AccessedTime == old(AccessedTime)
      ensures ok ==> AccessedTime == now
      // a slab on a slab: the changer's view of (x, y, z) is reset and the cell below becomes the full block
      ensures ok && StacksSlab(cfg, old(Blocks[..]), x, y, z, block) ==>
                && Blocks[..] == Write(old(Blocks[..]), x, y - 1, z, cfg.fullSlabType(block))
                && Cell(Blocks[..], x, y, z) == Cell(old(Blocks[..]), x, y, z)
                && ModificationTime == (if IsValidBlock(x, y - 1, z) then now else old(ModificationTime))
                && Events == old(Events) + [ChangerReset(x, y, z, Cell(old(Blocks[..]), x, y, z))]
                                         + WriteEvents(x, y - 1, z, cfg.fullSlabType(block))
      // otherwise SetBlock(x, y, z, block), with the access time set to now by the two reads
      ensures ok && !StacksSlab(cfg, old(Blocks[..]), x, y, z, block) ==>
                && Blocks[..] == Write(old(Blocks[..]), x, y, z, block)
                && Cell(Blocks[..], x, y, z) == block
                && ModificationTime == now
                && Events == old(Events) + WriteEvents(x, y, z, block)
    {
      if !IsValidBlock(x, y, z) {
        return false;
      }
      var former := GetBlock(x, y, z, now);
      var below := GetBlock(x, y - 1, z, now);
      if cfg.isSlab(block) && cfg.isSlab(below) {
        Events := Events + [ChangerReset(x, y, z, former)];
        ghost var before := Blocks[..];
        var _ := SetBlock(x, y - 1, z, cfg.fullSlabType(block), now);
        ReadAfterWrite(before, x, y - 1, z, cfg.fullSlabType(block), x, y, z);
        return true;
      }
      var _ := SetBlock(x, y, z, block, now);
      return true;
    }

    method GetBlock(x: int, y: int, z: int, now: int) returns (b: Block)
      requires Valid()
      modifies this`AccessedTime
      ensures b == Cell(Blocks[..], x, y, z)
      ensures !IsValidBlock(x, y, z) ==> b == AIR
      ensures AccessedTime == if IsValidBlock(x, y, z) then now else old(AccessedTime)
    {
      if !IsValidBlock(x, y, z) {
        return 0;
      }
      AccessedTime := now;
      return Blocks[GetBlockIndex(x, y, z)];
    }

    /** Scans the (x, z) column downwards from y = Depth (which reads as air) for
        the first non-air block. The scan does not end on a column without one,
        so callers must supply a column that has one. */
    method FindTopBlock(x: int, z: int, now: int) returns (y: int)
      requires Valid()
      requires exists y' :: 0 <= y' < Depth && Cell(Blocks[..], x, y', z) != AIR
      modifies this`AccessedTime
      ensures 0 <= y < Depth && Cell(Blocks[..], x, y, z) != AIR
      ensures forall y' :: y < y' <= Depth ==> Cell(Blocks[..], x, y', z) == AIR
      ensures AccessedTime == now
    {
      ghost var floor :| 0 <= floor < Depth && Cell(Blocks[..], x, floor, z) != AIR;
      y := Depth;
      var b := GetBlock(x, y, z, now);
      while b == 0
        invariant floor <= y <= Depth
        invariant b == Cell(Blocks[..], x, y, z)
        invariant forall y' :: y < y' <= Depth ==> Cell(Blocks[..], x, y', z) == AIR
        invariant y < Depth ==> AccessedTime == now
        decreases y
      {
        y := y - 1;
        b := GetBlock(x, y, z, now);
      }
    }

    /** On a world narrower than 18 cells in x (or z), the largest radius lets
        the draw land one or more cells off the grid, where the column holds no
        block: the top-block scan of the spawn point never stops there. */
    lemma NarrowWorldDrawsOffGrid(cells: seq<Block>, x: int, z: int)
      requires ValidDimensions() && |cells| == Size
      ensures Width < 18 ==>
                exists x' :: RandomInRange(x', Width / 2 - 9, Width / 2 + 9) && NoBlockIn(cells, x', z)
      ensures Height < 18 ==>
                exists z' :: RandomInRange(z', Height / 2 - 9, Height / 2 + 9) && NoBlockIn(cells, x, z')
    {
      if Width < 18 {
        var x' := Width / 2 - 9;
        assert RandomInRange(x', Width / 2 - 9, Width / 2 + 9) && NoBlockIn(cells, x', z);
      }
      if Height < 18 {
        var z' := Height / 2 - 9;
        assert RandomInRange(z', Height / 2 - 9, Height / 2 + 9) && NoBlockIn(cells, x, z');
      }
    }

    /** Whether every cell of the column at (x, z) reads air. */
    ghost predicate NoBlockIn(cells: seq<Block>, x: int, z: int)
      reads this
      requires ValidDimensions() && |cells| == Size
    {
      forall y :: Cell(cells, x, y, z) == AIR
    }

    /** A spawn point: a radius below 10 and an (x, z) within that radius of the
        horizontal centre, drawn from the level's random source and passed in
        here, then two cells above the top block of that column. */
    method GetPlayerSpawn(radius: int, x: int, z: int, now: int) returns (spawn: BlockPos)
      requires Valid()
      requires RandomInRange(radius, 0, 10)
      requires RandomInRange(x, Width / 2 - radius, Width / 2 + radius)
      requires RandomInRange(z, Height / 2 - radius, Height / 2 + radius)
      requires exists y' :: 0 <= y' < Depth && Cell(Blocks[..], x, y', z) != AIR
      modifies this`AccessedTime
      ensures spawn.x == x && spawn.z == z
      ensures Width / 2 - 9 <= spawn.x <= Width / 2 + 9 && Height / 2 - 9 <= spawn.z <= Height / 2 + 9
      ensures 2 <= spawn.y < Depth + 2 && Cell(Blocks[..], x, spawn.y - 2, z) != AIR
      ensures forall y' :: spawn.y - 2 < y' <= Depth ==> Cell(Blocks[..], x, y', z) == AIR
      ensures AccessedTime == now
    {
      var top := FindTopBlock(x, z, now);
      spawn := BlockPos(x, top + 2, z);
    }

    method BlocksAsByteArray() returns (output: array<byte>)
      requires Valid()
      ensures fresh(output)
      ensures output.Length == Blocks.Length
      ensures forall i :: 0 <= i < output.Length ==> output[i] == ToByte(Blocks[i])
    {
      output := new byte[Blocks.Length];
      for i := 0 to Blocks.Length
        invariant forall j :: 0 <= j < i ==> output[j] == ToByte(Blocks[j])
      {
        output[i] := ToByte(Blocks[i]);
      }
    }
  }
}
