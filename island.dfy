/** The island generator of `Land15`: the constructor's all-Water board and
    the passes of `InitState` as in-place updates of arrays, each proved equal
    to its specification in module IslandSpec. Random numbers come from a draw
    stream `draw` (one value per `rndd()` call) and a position `k` in it. */
module Island {
  import opened Grid
  import opened IslandSpec

  /** The part of `Land15Config` the modelled passes read. */
  datatype Config = Config(w: int, h: int, rockProb: real, treeProb: real, growCycles: real)

  // ---------------------------------------------------------------------
  // Neighbour scans (the direction-vector loops with their early exits)

  /** Are all four neighbours of interior cell `i` land? Stops at the first
      one that is not. */
  method LandAround(mask: array<bool>, w: int, i: int) returns (all: bool)
    requires Interior(w, mask.Length, i)
    ensures all == AllNbrs(mask[..], w, i)
  {
    all := true;
    var d := 0;
    while d < 4
      invariant 0 <= d <= 4
      invariant all == forall e :: 0 <= e < d ==> mask[Nbr(w, i, e)]
    {
      if !mask[Nbr(w, i, d)] {
        all := false;
        break;
      }
      d := d + 1;
    }
    assert Nbr(w, i, 0) == i - w && Nbr(w, i, 1) == i + 1 && Nbr(w, i, 2) == i + w && Nbr(w, i, 3) == i - 1;
  }

  /** Is one of the four neighbours of interior cell `i` set? Stops at the
      first one that is. */
  method AnyAround(temp: array<bool>, w: int, i: int) returns (found: bool)
    requires Interior(w, temp.Length, i)
    ensures found == AnyNbr(temp[..], w, i)
  {
    found := false;
    var d := 0;
    while d < 4
      invariant 0 <= d <= 4
      invariant found == exists e :: 0 <= e < d && temp[Nbr(w, i, e)]
    {
      if temp[Nbr(w, i, d)] {
        found := true;
        break;
      }
      d := d + 1;
    }
    assert Nbr(w, i, 0) == i - w && Nbr(w, i, 1) == i + 1 && Nbr(w, i, 2) == i + w && Nbr(w, i, 3) == i - 1;
  }

  /** Tree and rock counts over the four neighbours of interior cell `i`. */
  method CountAround(prev: array<Lulc>, w: int, i: int) returns (trees: nat, rocks: nat)
    requires Interior(w, prev.Length, i)
    ensures trees == TreeCount(prev[..], w, i) && rocks == RockCount(prev[..], w, i)
    ensures trees + rocks <= 4
  {
    trees, rocks := 0, 0;
    for d := 0 to 4
      invariant trees == NbrCount(prev[..], w, i, Trees, d)
      invariant rocks == NbrCount(prev[..], w, i, Rock, d)
    {
      var lulc := prev[Nbr(w, i, d)];
      if lulc == Trees {
        trees := trees + 1;
      } else if lulc == Rock {
        rocks := rocks + 1;
      }
    }
    NbrCountsDisjoint(prev[..], w, i, 4);
  }

  // ---------------------------------------------------------------------
  // Land mask and morphological opening

  /** The generation loop's writes: every cell is visited, only interior
      cells receive the land test `raw`, so the border stays false. */
  method BuildMask(raw: seq<bool>, w: int, h: int) returns (mask: array<bool>)
    requires 3 <= w && 3 <= h && |raw| == w * h
    ensures fresh(mask) && mask[..] == LandMask(raw, w)
    ensures BorderFalse(mask[..], w)
  {
    mask := new bool[w * h](_ => false);
    ghost var orig := mask[..];
    DoneStart(mask[..], LandMask(raw, w), w, 0);
    var r := 0;
    for y := 0 to h
      invariant r == y * w
      invariant Done(mask[..], orig, LandMask(raw, w), w, r)
    {
      MaskRow(raw, mask, w, h, y, r, orig);
      CellIndex(w, h, 0, y);
      r := r + w;
    }
    DoneEnd(mask[..], orig, LandMask(raw, w), w, r);
  }

  /** Row `y` of the generation loop, starting at index `r`: the land test
      lands on interior cells only. */
  method MaskRow(raw: seq<bool>, mask: array<bool>, w: int, h: int, y: int, r: int, ghost orig: seq<bool>)
    requires 3 <= w && 0 <= y < h && r == y * w && |raw| == mask.Length == w * h
    requires Done(mask[..], orig, LandMask(raw, w), w, r)
    modifies mask
    ensures Done(mask[..], orig, LandMask(raw, w), w, r + w)
  {
    ghost var spec := LandMask(raw, w);
    for x := 0 to w
      invariant Done(mask[..], orig, spec, w, r + x)
    {
      CellIndex(w, h, x, y);
      var i := r + x;
      if (y > 0) && (y < h - 1) && (x > 0) && (x < w - 1) {
        ghost var before := mask[..];
        mask[i] := raw[i];
        DoneWrite(before, mask[..], orig, spec, w, i);
      } else {
        DoneSkip(mask[..], orig, spec, w, i);
      }
    }
  }

  /** Erosion into a fresh all-false buffer. */
  method Erode(mask: array<bool>, w: int, h: int) returns (temp: array<bool>)
    requires 3 <= w && 3 <= h && mask.Length == w * h
    ensures fresh(temp) && temp[..] == Eroded(mask[..], w)
  {
    temp := new bool[w * h](_ => false);
    ghost var orig := temp[..];
    PassStart(temp[..], Eroded(mask[..], w), w, h);
    var r := w;
    for y := 1 to h - 1
      invariant r == y * w
      invariant Done(temp[..], orig, Eroded(mask[..], w), w, r + 1)
    {
      RowStartAt(w, h, y);
      ErodeRow(mask, temp, w, r, orig);
      r := r + w;
    }
    assert r == (h - 1) * w;
    PassEnd(temp[..], orig, Eroded(mask[..], w), w, h);
  }

  /** One interior row of the erosion, starting at index `r`. */
  method ErodeRow(mask: array<bool>, temp: array<bool>, w: int, r: int, ghost orig: seq<bool>)
    requires mask != temp && mask.Length == temp.Length && RowStart(w, mask.Length, r)
    requires orig == Filled(temp.Length, false)
    requires Done(temp[..], orig, Eroded(mask[..], w), w, r + 1)
    modifies temp
    ensures Done(temp[..], orig, Eroded(mask[..], w), w, r + w + 1)
  {
    ghost var spec := Eroded(mask[..], w);
    for x := 1 to w - 1
      invariant Done(temp[..], orig, spec, w, r + x)
    {
      RowCell(w, mask.Length, r, x);
      var i := r + x;
      ghost var before := temp[..];
      if mask[i] {
        var all := LandAround(mask, w, i);
        if all {
          temp[i] := true;
        }
      }
      DoneWrite(before, temp[..], orig, spec, w, i);
    }
    RowEnd(temp[..], orig, spec, w, r);
  }

  /** Dilation of the eroded buffer back into the mask. */
  method Dilate(mask: array<bool>, temp: array<bool>, w: int, h: int)
    requires 3 <= w && 3 <= h && mask.Length == temp.Length == w * h && mask != temp
    modifies mask
    ensures mask[..] == Dilated(old(mask[..]), temp[..], w)
  {
    ghost var orig := mask[..];
    PassStart(mask[..], Dilated(orig, temp[..], w), w, h);
    var r := w;
    for y := 1 to h - 1
      invariant r == y * w
      invariant Done(mask[..], orig, Dilated(orig, temp[..], w), w, r + 1)
    {
      RowStartAt(w, h, y);
      DilateRow(mask, temp, w, r, orig);
      r := r + w;
    }
    assert r == (h - 1) * w;
    PassEnd(mask[..], orig, Dilated(orig, temp[..], w), w, h);
  }

  /** One interior row of the dilation, starting at index `r`. */
  method DilateRow(mask: array<bool>, temp: array<bool>, w: int, r: int, ghost orig: seq<bool>)
    requires mask != temp && mask.Length == temp.Length == |orig| && RowStart(w, mask.Length, r)
    requires Done(mask[..], orig, Dilated(orig, temp[..], w), w, r + 1)
    modifies mask
    ensures Done(mask[..], orig, Dilated(orig, temp[..], w), w, r + w + 1)
  {
    ghost var spec := Dilated(orig, temp[..], w);
    for x := 1 to w - 1
      invariant Done(mask[..], orig, spec, w, r + x)
    {
      RowCell(w, mask.Length, r, x);
      var i := r + x;
      ghost var before := mask[..];
      if temp[i] {
        mask[i] := true;
      } else {
        var found := AnyAround(temp, w, i);
        mask[i] := found;
      }
      DoneWrite(before, mask[..], orig, spec, w, i);
    }
    RowEnd(mask[..], orig, spec, w, r);
  }

  // ---------------------------------------------------------------------
  // The simulation object

  class Land15 {
    const config: Config
    var board: array<Lulc>

    /** Board of w*h squares, border always Water. */
    ghost predicate Valid()
      reads this, board
    {
      3 <= config.w && 3 <= config.h && board.Length == config.w * config.h &&
      BorderWater(board[..], config.w)
    }

    /** Allocates the w*h board with every square Water. */
    constructor (config: Config)
      requires 3 <= config.w && 3 <= config.h
      ensures this.config == config && Valid() && fresh(board)
      ensures board[..] == Filled(config.w * config.h, Water)
    {
      this.config := config;
      board := new Lulc[config.w * config.h](_ => Water);
    }

    /** Land cells become Grass, or Sand when a neighbour is water. */
    method ClassifyBeach(mask: array<bool>)
      requires Valid() && mask.Length == board.Length
      modifies board
      ensures Valid()
      ensures board[..] == Beached(mask[..], old(board[..]), config.w)
    {
      var w, h := config.w, config.h;
      ghost var orig := board[..];
      PassStart(board[..], Beached(mask[..], orig, w), w, h);
      var r := w;
      for y := 1 to h - 1
        invariant r == y * w
        invariant Done(board[..], orig, Beached(mask[..], orig, w), w, r + 1)
      {
        RowStartAt(w, h, y);
        BeachRow(mask, r, orig);
        r := r + w;
      }
      assert r == (h - 1) * w;
      PassEnd(board[..], orig, Beached(mask[..], orig, w), w, h);
    }

    /** One interior row of the classification, starting at index `r`. */
    method BeachRow(mask: array<bool>, r: int, ghost orig: seq<Lulc>)
      requires mask.Length == board.Length == |orig| && RowStart(config.w, board.Length, r)
      requires Done(board[..], orig, Beached(mask[..], orig, config.w), config.w, r + 1)
      modifies board
      ensures Done(board[..], orig, Beached(mask[..], orig, config.w), config.w, r + config.w + 1)
    {
      var w := config.w;
      ghost var spec := Beached(mask[..], orig, w);
      for x := 1 to w - 1
        invariant Done(board[..], orig, spec, w, r + x)
      {
        RowCell(w, board.Length, r, x);
        var i := r + x;
        ghost var before := board[..];
        if mask[i] {
          var squareState := Grass;
          var all := LandAround(mask, w, i);
          if !all {
            squareState := Sand;
          }
          board[i] := squareState;
        }
        DoneWrite(before, board[..], orig, spec, w, i);
      }
      RowEnd(board[..], orig, spec, w, r);
    }

    /** Scatters Rock and Trees over the non-water squares. */
    method SeedRocksAndTrees(draw: nat -> real, k0: nat) returns (k: nat)
      requires Valid()
      modifies board
      ensures Valid()
      ensures board[..] == Seeded(old(board[..]), config.w, draw, config.rockProb, config.treeProb, k0)
      ensures k == SeedCursor(old(board[..]), config.w, draw, config.rockProb, k0, board.Length)
    {
      var w, h := config.w, config.h;
      ghost var orig := board[..];
      SeedPassStart(orig, w, h, draw, config.rockProb, config.treeProb, k0);
      k := k0;
      var r := w;
      for y := 1 to h - 1
        invariant r == y * w
        invariant Done(board[..], orig, Seeded(orig, w, draw, config.rockProb, config.treeProb, k0), w, r + 1)
        invariant 0 <= r && r + 1 <= |orig| && k == SeedCursor(orig, w, draw, config.rockProb, k0, r + 1)
      {
        RowStartAt(w, h, y);
        k := SeedRow(r, draw, k0, k, orig, Seeded(orig, w, draw, config.rockProb, config.treeProb, k0));
        r := r + w;
      }
      assert r == (h - 1) * w;
      SeedPassEnd(board[..], orig, w, h, draw, config.rockProb, config.treeProb, k0);
    }

    /** One interior row of the seeding pass, starting at index `r`, left
        to right. */
    method SeedRow(r: int, draw: nat -> real, ghost k0: nat, k: nat, ghost orig: seq<Lulc>, ghost spec: seq<Lulc>) returns (k': nat)
      requires RowStart(config.w, board.Length, r) && |orig| == board.Length
      requires spec == Seeded(orig, config.w, draw, config.rockProb, config.treeProb, k0)
      requires Done(board[..], orig, spec, config.w, r + 1)
      requires k == SeedCursor(orig, config.w, draw, config.rockProb, k0, r + 1)
      modifies board
      ensures Done(board[..], orig, spec, config.w, r + config.w + 1)
      ensures k' == SeedCursor(orig, config.w, draw, config.rockProb, k0, r + config.w + 1)
    {
      var w := config.w;
      k' := k;
      for x := 1 to w - 1
        invariant Done(board[..], orig, spec, w, r + x)
        invariant k' == SeedCursor(orig, w, draw, config.rockProb, k0, r + x)
      {
        RowCell(w, board.Length, r, x);
        k' := SeedStep(r + x, draw, k0, k', orig);
      }
      SeedRowEnd(board[..], orig, spec, w, r, draw, config.rockProb, k0);
    }

    /** Seeds square `offset`, the next one of the pass, and advances the
        pass invariant past it. */
    method SeedStep(offset: int, draw: nat -> real, ghost k0: nat, k: nat, ghost orig: seq<Lulc>) returns (k': nat)
      requires 0 <= offset < board.Length == |orig| && Interior(config.w, board.Length, offset)
      requires Done(board[..], orig, Seeded(orig, config.w, draw, config.rockProb, config.treeProb, k0), config.w, offset)
      requires k == SeedCursor(orig, config.w, draw, config.rockProb, k0, offset)
      modifies board
      ensures Done(board[..], orig, Seeded(orig, config.w, draw, config.rockProb, config.treeProb, k0), config.w, offset + 1)
      ensures k' == SeedCursor(orig, config.w, draw, config.rockProb, k0, offset + 1)
    {
      ghost var before := board[..];
      SeededAt(orig, config.w, draw, config.rockProb, config.treeProb, k0, offset);
      k' := SeedSquare(offset, draw, k);
      DoneWrite(before, board[..], orig, Seeded(orig, config.w, draw, config.rockProb, config.treeProb, k0), config.w, offset);
    }

    /** The seeding of one non-border square: Rock when the first draw is
        below the rock probability, else Trees (unless Sand) when the second
        draw is below the tree probability. */
    method SeedSquare(offset: int, draw: nat -> real, k: nat) returns (k': nat)
      requires 0 <= offset < board.Length
      modifies board
      ensures k' == k + SeedDraws(old(board[offset]), draw(k), config.rockProb)
      ensures board[offset] == SeedCell(old(board[offset]), draw(k), draw(k + 1), config.rockProb, config.treeProb)
      ensures forall j :: 0 <= j < board.Length && j != offset ==> board[j] == old(board[j])
    {
      k' := k;
      if board[offset] != Water {
        var d1 := draw(k');
        k' := k' + 1;
        if d1 < config.rockProb {
          board[offset] := Rock;
        } else {
          var d2 := draw(k');
          k' := k' + 1;
          if d2 < config.treeProb {
            if board[offset] != Sand {
              board[offset] := Trees;
            }
          }
        }
      }
    }

    /** Grows the rock and tree patches for `growCycles` cycles with a
        second all-Water buffer, then copies into `board` the buffer the
        source's final `board = cur_board` reads. */
    method GrowRocksAndTrees(draw: nat -> real, k0: nat) returns (k: nat)
      requires Valid()
      modifies board
      ensures Valid()
      ensures Gen(board[..], k) == AfterGrowth(old(board[..]), config.w, draw, k0, config.growCycles)
    {
      var tempState := new Lulc[board.Length](_ => Water);
      var last;
      k, last := GrowCycles(board, tempState, config.w, config.h, draw, k0, config.growCycles);
      AfterGrowthBorder(old(board[..]), config.w, draw, k0, config.growCycles);
      ghost var result := last[..];
      forall j | 0 <= j < board.Length {
        board[j] := last[j];
      }
      assert board[..] == result;
    }

    /** The island generation after the land test: build and open the land
        mask, classify beach and grass, seed rocks and trees, grow them. The
        raw land test of each cell is the parameter `raw`; `k0` is the draw
        position after the island's own random parameters. */
    method InitState(raw: seq<bool>, draw: nat -> real, k0: nat) returns (k: nat)
      requires Valid() && |raw| == board.Length
      modifies board
      ensures Valid()
      ensures Gen(board[..], k) == InitStateResult(raw, old(board[..]), config.w, config.rockProb,
                                                   config.treeProb, config.growCycles, draw, k0)
    {
      var w, h := config.w, config.h;
      var landMask := BuildMask(raw, w, h);
      var landMaskTemp := Erode(landMask, w, h);
      Dilate(landMask, landMaskTemp, w, h);
      ClassifyBeach(landMask);
      k := SeedRocksAndTrees(draw, k0);
      k := GrowRocksAndTrees(draw, k);
    }
  }

  /** Before the first interior square the seeding pass has done nothing
      and taken no draw. */
  lemma SeedPassStart(orig: seq<Lulc>, w: int, h: int, draw: nat -> real, rockProb: real, treeProb: real, k0: nat)
    requires 3 <= w && 3 <= h && |orig| == w * h
    ensures Done(orig, orig, Seeded(orig, w, draw, rockProb, treeProb, k0), w, 1 * w + 1)
    ensures 1 * w + 1 <= |orig| && SeedCursor(orig, w, draw, rockProb, k0, 1 * w + 1) == k0
  {
    PassStart(orig, Seeded(orig, w, draw, rockProb, treeProb, k0), w, h);
    FirstRowBorder(w, |orig|);
    SeedCursorSkip(orig, w, draw, rockProb, k0, 0, w + 1);
  }

  /** The end of an interior row of the seeding pass: the two border cells
      before the next row change nothing and take no draw. */
  lemma SeedRowEnd(a: seq<Lulc>, orig: seq<Lulc>, spec: seq<Lulc>, w: int, r: int, draw: nat -> real, rockProb: real, k0: nat)
    requires RowStart(w, |a|, r) && |orig| == |a|
    requires Done(a, orig, spec, w, r + (w - 1))
    ensures Done(a, orig, spec, w, r + w + 1)
    ensures r + w + 1 <= |orig|
    ensures SeedCursor(orig, w, draw, rockProb, k0, r + w + 1) == SeedCursor(orig, w, draw, rockProb, k0, r + (w - 1))
  {
    RowEnd(a, orig, spec, w, r);
    RowGap(w, |a|, r);
    SeedCursorSkip(orig, w, draw, rockProb, k0, r + (w - 1), r + w + 1);
  }

  /** After the last interior row the board is the seeded board, it keeps its
      Water border, and the cursor takes no more draws. */
  lemma SeedPassEnd(a: seq<Lulc>, orig: seq<Lulc>, w: int, h: int, draw: nat -> real, rockProb: real, treeProb: real, k0: nat)
    requires 3 <= w && 3 <= h && |a| == |orig| == w * h && BorderWater(orig, w)
    requires Done(a, orig, Seeded(orig, w, draw, rockProb, treeProb, k0), w, (h - 1) * w + 1)
    ensures a == Seeded(orig, w, draw, rockProb, treeProb, k0) && BorderWater(a, w)
    ensures SeedCursor(orig, w, draw, rockProb, k0, |orig|) == SeedCursor(orig, w, draw, rockProb, k0, (h - 1) * w + 1)
  {
    PassEnd(a, orig, Seeded(orig, w, draw, rockProb, treeProb, k0), w, h);
    LastRowBorder(w, h);
    SeedCursorSkip(orig, w, draw, rockProb, k0, (h - 1) * w + 1, |orig|);
  }

  /** The cycle loop of the growth pass. The two buffers trade places after
      every cycle (the source swaps the contents of `board` and the
      temporary vector, which leaves the same contents in each); `last` is
      the buffer in the role of `cur_board` when the loop ends. */
  method GrowCycles(board: array<Lulc>, tempState: array<Lulc>, w: int, h: int, draw: nat -> real, k0: nat, cycles: real)
    returns (k: nat, last: array<Lulc>)
    requires 3 <= w && 3 <= h && board.Length == tempState.Length == w * h && board != tempState
    requires BorderWater(board[..], w) && tempState[..] == Filled(w * h, Water)
    modifies board, tempState
    ensures last == board || last == tempState
    ensures Gen(last[..], k) == AfterGrowth(old(board[..]), w, draw, k0, cycles)
  {
    ghost var s := board[..];
    ghost var n := Cycles(cycles);
    var prev, cur := board, tempState;
    k := k0;
    var i := 0;
    while (i as real) < cycles
      invariant 0 <= i <= n
      invariant {prev, cur} == {board, tempState} && prev != cur
      invariant Gen(prev[..], k) == Grown(s, w, draw, k0, i)
      invariant cur[..] == if i == 0 then Filled(|s|, Water) else Grown(s, w, draw, k0, i - 1).cells
      decreases n - i
    {
      k := GrowNext(prev, cur, w, h, draw, k, s, k0, i);
      prev, cur := cur, prev;
      i := i + 1;
    }
    assert i == n;
    last := cur;
  }

  /** One cycle of the loop: `cur` receives generation `i + 1` from `prev`,
      which holds generation `i`; both keep the Water border of `s`. */
  method GrowNext(prev: array<Lulc>, cur: array<Lulc>, w: int, h: int, draw: nat -> real, k: nat,
                  ghost s: seq<Lulc>, ghost k0: nat, ghost i: nat) returns (k': nat)
    requires 3 <= w && 3 <= h && |s| == w * h && BorderWater(s, w) && prev != cur
    requires Gen(prev[..], k) == Grown(s, w, draw, k0, i)
    requires cur[..] == if i == 0 then Filled(|s|, Water) else Grown(s, w, draw, k0, i - 1).cells
    modifies cur
    ensures Gen(cur[..], k') == Grown(s, w, draw, k0, i + 1)
  {
    GrownBorder(s, w, draw, k0, i);
    if i > 0 {
      GrownBorder(s, w, draw, k0, i - 1);
    }
    GrowCycleCells(prev[..], w, draw, k);
    k' := GrowCycleInto(prev, cur, w, h, draw, k);
  }

  /** One square of a growth cycle: copy the previous state, then, unless it
      is Water or Sand facing a tree majority, adopt the majority neighbour
      type when the draw falls below count/4. */
  method GrowSquare(prev: array<Lulc>, cur: array<Lulc>, w: int, offset: int, draw: nat -> real, k: nat)
    returns (k': nat)
    requires prev != cur && prev.Length == cur.Length && 0 <= offset < prev.Length
    requires Interior(w, prev.Length, offset)
    modifies cur
    ensures k' == k + GrowDraws(prev[..], w, offset)
    ensures cur[offset] == GrowCell(prev[..], w, offset, draw(k))
    ensures forall j :: 0 <= j < cur.Length && j != offset ==> cur[j] == old(cur[j])
  {
    k' := k;
    cur[offset] := prev[offset];
    if prev[offset] != Water {
      var treeCount, rockCount := CountAround(prev, w, offset);
      var skip := false;
      var lulc, count := Rock, rockCount;
      if treeCount > rockCount {
        skip := prev[offset] == Sand;
        lulc, count := Trees, treeCount;
      }
      if !skip {
        var p := count as real / 4.0;
        var dr := draw(k');
        k' := k' + 1;
        if !(dr >= p) {
          cur[offset] := lulc;
        }
      }
    }
  }

  /** One interior row of a growth cycle, starting at index `r`, left to
      right. */
  method GrowRow(prev: array<Lulc>, cur: array<Lulc>, w: int, r: int, draw: nat -> real,
                 ghost k0: nat, k: nat, ghost orig: seq<Lulc>) returns (k': nat)
    requires prev != cur && prev.Length == cur.Length && RowStart(w, prev.Length, r)
    requires Done(cur[..], orig, GrowCycle(prev[..], w, draw, k0), w, r + 1)
    requires k == GrowCursor(prev[..], w, k0, r + 1)
    modifies cur
    ensures Done(cur[..], orig, GrowCycle(prev[..], w, draw, k0), w, r + w + 1)
    ensures k' == GrowCursor(prev[..], w, k0, r + w + 1)
  {
    ghost var spec := GrowCycle(prev[..], w, draw, k0);
    k' := k;
    for x := 1 to w - 1
      invariant Done(cur[..], orig, spec, w, r + x)
      invariant k' == GrowCursor(prev[..], w, k0, r + x)
    {
      RowCell(w, prev.Length, r, x);
      var offset := r + x;
      ghost var before := cur[..];
      GrowCycleAt(prev[..], w, draw, k0, offset);
      k' := GrowSquare(prev, cur, w, offset, draw, k');
      DoneWrite(before, cur[..], orig, spec, w, offset);
    }
    RowEnd(cur[..], orig, spec, w, r);
    RowGap(w, prev.Length, r);
    GrowCursorSkip(prev[..], w, k0, r + (w - 1), r + w + 1);
  }

  /** One growth cycle: every interior cell of `cur` is decided from `prev`
      (copy, then maybe adopt the neighbour majority with probability
      count/4). Returns the draw position after the cycle. */
  method GrowCycleInto(prev: array<Lulc>, cur: array<Lulc>, w: int, h: int, draw: nat -> real, k0: nat)
    returns (k: nat)
    requires 3 <= w && 3 <= h && prev.Length == cur.Length == w * h && prev != cur
    requires BorderWater(prev[..], w) && BorderWater(cur[..], w)
    modifies cur
    ensures cur[..] == GrowCycle(prev[..], w, draw, k0)
    ensures k == GrowCursor(prev[..], w, k0, prev.Length)
  {
    ghost var orig := cur[..];
    GrowPassStart(prev[..], orig, w, h, draw, k0);
    k := k0;
    var r := w;
    for y := 1 to h - 1
      invariant r == y * w
      invariant Done(cur[..], orig, GrowCycle(prev[..], w, draw, k0), w, r + 1)
      invariant 0 <= r && r + 1 <= prev.Length && k == GrowCursor(prev[..], w, k0, r + 1)
    {
      RowStartAt(w, h, y);
      k := GrowRow(prev, cur, w, r, draw, k0, k, orig);
      r := r + w;
    }
    assert r == (h - 1) * w;
    GrowPassEnd(cur[..], prev[..], orig, w, h, draw, k0);
  }

  /** Every generation keeps the Water border of the first. */
  lemma GrownBorder(s: seq<Lulc>, w: int, draw: nat -> real, k0: nat, c: nat)
    requires BorderWater(s, w)
    ensures BorderWater(Grown(s, w, draw, k0, c).cells, w)
  {
    GrownCells(s, w, draw, k0, c);
  }

  /** What the growth loop leaves keeps the Water border. */
  lemma AfterGrowthBorder(s: seq<Lulc>, w: int, draw: nat -> real, k0: nat, cycles: real)
    requires BorderWater(s, w)
    ensures BorderWater(AfterGrowth(s, w, draw, k0, cycles).cells, w)
  {
    if Cycles(cycles) > 0 {
      GrownBorder(s, w, draw, k0, Cycles(cycles) - 1);
    }
  }

  /** Before the first interior cell a growth cycle has done nothing and
      taken no draw. */
  lemma GrowPassStart(prev: seq<Lulc>, orig: seq<Lulc>, w: int, h: int, draw: nat -> real, k0: nat)
    requires 3 <= w && 3 <= h && |prev| == |orig| == w * h
    ensures Done(orig, orig, GrowCycle(prev, w, draw, k0), w, 1 * w + 1)
    ensures 1 * w + 1 <= |prev| && GrowCursor(prev, w, k0, 1 * w + 1) == k0
  {
    PassStart(orig, GrowCycle(prev, w, draw, k0), w, h);
    FirstRowBorder(w, |prev|);
    GrowCursorSkip(prev, w, k0, 0, w + 1);
  }

  /** After the last interior row the buffer is the whole cycle: on the
      border both buffers are Water. */
  lemma GrowPassEnd(a: seq<Lulc>, prev: seq<Lulc>, orig: seq<Lulc>, w: int, h: int, draw: nat -> real, k0: nat)
    requires 3 <= w && 3 <= h && |a| == |prev| == |orig| == w * h
    requires BorderWater(prev, w) && BorderWater(orig, w)
    requires Done(a, orig, GrowCycle(prev, w, draw, k0), w, (h - 1) * w + 1)
    ensures a == GrowCycle(prev, w, draw, k0)
    ensures GrowCursor(prev, w, k0, |prev|) == GrowCursor(prev, w, k0, (h - 1) * w + 1)
  {
    var spec := GrowCycle(prev, w, draw, k0);
    PassEnd(a, orig, spec, w, h);
    LastRowBorder(w, h);
    GrowCursorSkip(prev, w, k0, (h - 1) * w + 1, |prev|);
    forall j | 0 <= j < |a| ensures a[j] == spec[j] {
      if !Interior(w, |a|, j) {
        assert orig[j] == Water && prev[j] == Water;
      }
    }
  }
}
