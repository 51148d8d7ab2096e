/** What `Land15::InitState` computes, pass by pass, as functions of the
    previous board: the land mask, the morphological opening, the beach
    classification, the rock/tree seeding, the growth automaton and the final
    buffer copy. The imperative passes in module Island are proved equal to
    these functions; the lemmas here state what the passes guarantee. */
module IslandSpec {
  import opened Wrappers
  import opened Grid

  /** Land use / land cover of one square, with the source's numbering. */
  datatype Lulc =
    | Unknown | Sand | Water | Trees | LowBuilt | HighBuilt
    | Grass | Rock | Agriculture | Wasteland | Bare

  /** The enum's underlying integer. */
  function LulcValue(c: Lulc): (v: int)
    ensures 0 <= v <= 10
  {
    match c
    case Unknown => 0
    case Sand => 1
    case Water => 2
    case Trees => 3
    case LowBuilt => 4
    case HighBuilt => 5
    case Grass => 6
    case Rock => 7
    case Agriculture => 8
    case Wasteland => 9
    case Bare => 10
  }

  /** The enumerator with integer value `v`, if there is one. */
  function LulcOf(v: int): (r: Option<Lulc>)
    ensures r.Some? <==> 0 <= v <= 10
    ensures r.Some? ==> LulcValue(r.value) == v
  {
    if v == 0 then Some(Unknown) else if v == 1 then Some(Sand)
    else if v == 2 then Some(Water) else if v == 3 then Some(Trees)
    else if v == 4 then Some(LowBuilt) else if v == 5 then Some(HighBuilt)
    else if v == 6 then Some(Grass) else if v == 7 then Some(Rock)
    else if v == 8 then Some(Agriculture) else if v == 9 then Some(Wasteland)
    else if v == 10 then Some(Bare) else None
  }

  lemma LulcValueRoundTrip(c: Lulc)
    ensures LulcOf(LulcValue(c)) == Some(c)
  {
  }

  function Filled<T>(n: nat, v: T): (s: seq<T>)
    ensures |s| == n && forall i :: 0 <= i < n ==> s[i] == v
  {
    seq(n, _ => v)
  }

  ghost predicate BorderFalse(m: seq<bool>, w: int)
  {
    forall i :: 0 <= i < |m| && !Interior(w, |m|, i) ==> !m[i]
  }

  ghost predicate BorderWater(s: seq<Lulc>, w: int)
  {
    forall i :: 0 <= i < |s| && !Interior(w, |s|, i) ==> s[i] == Water
  }

  // ---------------------------------------------------------------------
  // Land mask and morphological opening

  /** The mask left by the generation loop: the (floating-point) land test
      `raw` at interior cells; border cells are never written and stay false. */
  function LandMask(raw: seq<bool>, w: int): seq<bool>
  {
    seq(|raw|, i requires 0 <= i < |raw| => Interior(w, |raw|, i) && raw[i])
  }

  predicate AllNbrs(m: seq<bool>, w: int, i: int)
    requires Interior(w, |m|, i)
  {
    m[i - w] && m[i + 1] && m[i + w] && m[i - 1]
  }

  predicate AnyNbr(m: seq<bool>, w: int, i: int)
    requires Interior(w, |m|, i)
  {
    m[i - w] || m[i + 1] || m[i + w] || m[i - 1]
  }

  /** Erosion into a fresh all-false mask: an interior cell survives when it
      and its four neighbours are land. */
  function Eroded(m: seq<bool>, w: int): seq<bool>
  {
    seq(|m|, i requires 0 <= i < |m| => Interior(w, |m|, i) && m[i] && AllNbrs(m, w, i))
  }

  /** Dilation written back into `m`: an interior cell is land when the eroded
      mask `t` holds it or one of its neighbours; border cells keep `m`. */
  function Dilated(m: seq<bool>, t: seq<bool>, w: int): seq<bool>
    requires |t| == |m|
  {
    seq(|m|, i requires 0 <= i < |m| => if Interior(w, |m|, i) then t[i] || AnyNbr(t, w, i) else m[i])
  }

  function Opened(m: seq<bool>, w: int): seq<bool>
  {
    Dilated(m, Eroded(m, w), w)
  }

  /** Opening never adds land, and border cells keep their value. */
  lemma OpenedShrinks(m: seq<bool>, w: int)
    ensures |Opened(m, w)| == |m|
    ensures forall i :: 0 <= i < |m| && Opened(m, w)[i] ==> m[i]
    ensures forall i :: 0 <= i < |m| && !Interior(w, |m|, i) ==> Opened(m, w)[i] == m[i]
    ensures BorderFalse(m, w) ==> BorderFalse(Opened(m, w), w)
  {
    forall i | 0 <= i < |m|
      ensures Opened(m, w)[i] ==> m[i]
    {
      OpenedCellShrinks(m, w, i);
    }
  }

  /** One cell of the opening is land only where the mask was: an eroded
      neighbour had the cell among its own land neighbours. */
  lemma OpenedCellShrinks(m: seq<bool>, w: int, i: int)
    requires 0 <= i < |m|
    ensures Opened(m, w)[i] ==> m[i]
  {
    var e := Eroded(m, w);
    if Interior(w, |m|, i) && !e[i] {
      if e[i - w] { assert m[(i - w) + w]; }
      if e[i + 1] { assert m[(i + 1) - 1]; }
      if e[i + w] { assert m[(i + w) - w]; }
      if e[i - 1] { assert m[(i - 1) + 1]; }
    }
  }

  /** A land cell whose whole plus-shaped neighbourhood is land survives, with
      that neighbourhood. */
  lemma OpenedKeepsCore(m: seq<bool>, w: int, i: int)
    requires 0 <= i < |m| && Interior(w, |m|, i) && m[i] && AllNbrs(m, w, i)
    ensures Opened(m, w)[i] && AllNbrs(Opened(m, w), w, i)
  {
    var e := Eroded(m, w);
    assert e[i];
    NbrSees(m, w, i);
  }

  /** The neighbours of an interior cell that are themselves interior have it as a neighbour. */
  lemma NbrSees(m: seq<bool>, w: int, i: int)
    requires Interior(w, |m|, i)
    ensures Interior(w, |m|, i - w) ==> i == (i - w) + w
    ensures Interior(w, |m|, i + w) ==> i == (i + w) - w
  {
  }

  /** An isolated land speck (no land neighbour) is removed. */
  lemma OpenedRemovesSpeck(m: seq<bool>, w: int, i: int)
    requires 0 <= i < |m| && Interior(w, |m|, i) && !AnyNbr(m, w, i)
    ensures !Opened(m, w)[i]
  {
    var e := Eroded(m, w);
    assert !e[i];
    assert !e[i - w] && !e[i + 1] && !e[i + w] && !e[i - 1];
  }

  /** Opening twice is opening once. */
  lemma {:induction false} OpenIdempotent(m: seq<bool>, w: int)
    ensures Opened(Opened(m, w), w) == Opened(m, w)
  {
    var e, o := Eroded(m, w), Opened(m, w);
    OpenedShrinks(m, w);
    assert Eroded(o, w) == e by {
      forall i | 0 <= i < |m| ensures Eroded(o, w)[i] == e[i] {
        if Interior(w, |m|, i) && e[i] {
          ErodedSeedSurvives(m, w, i);
        }
      }
    }
  }

  lemma ErodedSeedSurvives(m: seq<bool>, w: int, i: int)
    requires 0 <= i < |m| && Interior(w, |m|, i) && Eroded(m, w)[i]
    ensures Eroded(Opened(m, w), w)[i]
  {
    var e, o := Eroded(m, w), Opened(m, w);
    assert o[i];
    assert o[i - w] by { if Interior(w, |m|, i - w) { assert e[(i - w) + w]; } }
    assert o[i + w] by { if Interior(w, |m|, i + w) { assert e[(i + w) - w]; } }
    assert o[i + 1] by { if Interior(w, |m|, i + 1) { assert e[(i + 1) - 1]; } }
    assert o[i - 1] by { if Interior(w, |m|, i - 1) { assert e[(i - 1) + 1]; } }
  }

  // ---------------------------------------------------------------------
  // Beach / grass classification

  /** Every interior land cell becomes Grass, or Sand when one of its four
      neighbours is not land; every other cell keeps its state. */
  function Beached(m: seq<bool>, s: seq<Lulc>, w: int): seq<Lulc>
    requires |m| == |s|
  {
    seq(|s|, i requires 0 <= i < |s| =>
      if Interior(w, |s|, i) && m[i] then (if AllNbrs(m, w, i) then Grass else Sand) else s[i])
  }

  /** On the all-Water board the constructor allocates, with a mask whose border
      is false, classification makes Water exactly the non-land cells, uses only
      Water, Sand and Grass, and no Grass cell touches Water. */
  lemma BeachRing(m: seq<bool>, w: int)
    requires BorderFalse(m, w)
    ensures var b := Beached(m, Filled(|m|, Water), w);
      && (forall i :: 0 <= i < |b| ==> (b[i] == Water <==> !m[i]))
      && (forall i :: 0 <= i < |b| ==> b[i] in {Water, Sand, Grass})
      && (forall i :: 0 <= i < |b| && b[i] == Grass ==>
            Interior(w, |b|, i) && b[i - w] != Water && b[i + 1] != Water && b[i + w] != Water && b[i - 1] != Water)
      && (forall i :: 0 <= i < |b| && b[i] == Sand ==> Interior(w, |b|, i) && !AllNbrs(m, w, i))
  {
    var b := Beached(m, Filled(|m|, Water), w);
    forall i | 0 <= i < |b| ensures (b[i] == Water <==> !m[i]) && b[i] in {Water, Sand, Grass} {
      if Interior(w, |b|, i) && m[i] {
        assert b[i] == (if AllNbrs(m, w, i) then Grass else Sand);
      } else {
        assert b[i] == Water;
      }
    }
    forall i | 0 <= i < |b| && b[i] == Grass
      ensures Interior(w, |b|, i) && b[i - w] != Water && b[i + 1] != Water && b[i + w] != Water && b[i - 1] != Water
    {
      assert Interior(w, |b|, i) && m[i] && AllNbrs(m, w, i);
    }
  }

  // ---------------------------------------------------------------------
  // Rock and tree seeding

  /** One cell of the seeding pass, given its first draw `d1` and, used only
      when `d1` is not below the rock probability, its second draw `d2`. */
  function SeedCell(c: Lulc, d1: real, d2: real, rockProb: real, treeProb: real): (r: Lulc)
    ensures (r == Water) <==> (c == Water)
    ensures r != c ==> r == Rock || r == Trees
    ensures c != Water && d1 < rockProb ==> r == Rock
    ensures r == Trees && c != Trees ==> c != Sand && d1 >= rockProb && d2 < treeProb
    ensures c != Water && c != Sand && d1 >= rockProb && d2 < treeProb ==> r == Trees
    ensures r == Rock && c != Rock ==> d1 < rockProb
    ensures c != Water && d1 >= rockProb ==> r == c || r == Trees
  {
    if c == Water then Water
    else if d1 < rockProb then Rock
    else if d2 < treeProb && c != Sand then Trees
    else c
  }

  /** How many draws the cell takes: none for Water, one when the first draw
      makes it Rock, two otherwise. */
  function SeedDraws(c: Lulc, d1: real, rockProb: real): (k: nat)
    ensures k <= 2 && (k == 0 <==> c == Water)
    ensures c != Water ==> (k == 2 <==> d1 >= rockProb)
  {
    if c == Water then 0 else if d1 < rockProb then 1 else 2
  }

  /** Position in the draw stream when the seeding pass reaches index `n`. */
  function SeedCursor(s: seq<Lulc>, w: int, draw: nat -> real, rockProb: real, k0: nat, n: nat): (k: nat)
    requires n <= |s|
    ensures k0 <= k <= k0 + 2 * n
  {
    if n == 0 then k0
    else
      var k := SeedCursor(s, w, draw, rockProb, k0, n - 1);
      k + (if Interior(w, |s|, n - 1) then SeedDraws(s[n - 1], draw(k), rockProb) else 0)
  }

  /** Border indices take no draw: the seeding cursor does not move over them. */
  lemma {:induction false} SeedCursorSkip(s: seq<Lulc>, w: int, draw: nat -> real, rockProb: real, k0: nat, n: nat, m: nat)
    requires n <= m <= |s|
    requires forall j :: n <= j < m ==> !Interior(w, |s|, j)
    ensures SeedCursor(s, w, draw, rockProb, k0, m) == SeedCursor(s, w, draw, rockProb, k0, n)
    decreases m
  {
    if m > n { SeedCursorSkip(s, w, draw, rockProb, k0, n, m - 1); }
  }

  function Seeded(s: seq<Lulc>, w: int, draw: nat -> real, rockProb: real, treeProb: real, k0: nat): seq<Lulc>
  {
    seq(|s|, i requires 0 <= i < |s| =>
      if Interior(w, |s|, i) then
        var k := SeedCursor(s, w, draw, rockProb, k0, i);
        SeedCell(s[i], draw(k), draw(k + 1), rockProb, treeProb)
      else s[i])
  }

  /** What the seeding pass does at interior index `i`, and how far it moves
      the draw position. */
  lemma SeededAt(s: seq<Lulc>, w: int, draw: nat -> real, rockProb: real, treeProb: real, k0: nat, i: int)
    requires 0 <= i < |s| && Interior(w, |s|, i)
    ensures var k := SeedCursor(s, w, draw, rockProb, k0, i);
      && Seeded(s, w, draw, rockProb, treeProb, k0)[i] == SeedCell(s[i], draw(k), draw(k + 1), rockProb, treeProb)
      && SeedCursor(s, w, draw, rockProb, k0, i + 1) == k + SeedDraws(s[i], draw(k), rockProb)
  {
  }

  /** Seeding keeps Water exactly where it was, writes only Rock and Trees,
      never turns Sand into Trees, and leaves the border alone. */
  lemma SeededCells(s: seq<Lulc>, w: int, draw: nat -> real, rockProb: real, treeProb: real, k0: nat)
    ensures var r := Seeded(s, w, draw, rockProb, treeProb, k0);
      && |r| == |s|
      && (forall i :: 0 <= i < |s| ==> (r[i] == Water <==> s[i] == Water))
      && (forall i :: 0 <= i < |s| && r[i] != s[i] ==> Interior(w, |s|, i) && r[i] in {Rock, Trees})
      && (forall i :: 0 <= i < |s| && s[i] == Sand ==> r[i] != Trees)
  {
    var r := Seeded(s, w, draw, rockProb, treeProb, k0);
    forall i | 0 <= i < |s|
      ensures (r[i] == Water <==> s[i] == Water)
      ensures r[i] != s[i] ==> Interior(w, |s|, i) && r[i] in {Rock, Trees}
      ensures s[i] == Sand ==> r[i] != Trees
    {
      if Interior(w, |s|, i) {
        var k := SeedCursor(s, w, draw, rockProb, k0, i);
        assert r[i] == SeedCell(s[i], draw(k), draw(k + 1), rockProb, treeProb);
      }
    }
  }

  /** When every draw is below the rock probability, every non-water interior
      cell becomes Rock. */
  lemma SeededAllRock(s: seq<Lulc>, w: int, draw: nat -> real, rockProb: real, treeProb: real, k0: nat)
    requires forall k: nat :: draw(k) < rockProb
    ensures forall i :: 0 <= i < |s| && Interior(w, |s|, i) && s[i] != Water ==>
              Seeded(s, w, draw, rockProb, treeProb, k0)[i] == Rock
  {
    var r := Seeded(s, w, draw, rockProb, treeProb, k0);
    forall i | 0 <= i < |s| && Interior(w, |s|, i) && s[i] != Water ensures r[i] == Rock {
      var k := SeedCursor(s, w, draw, rockProb, k0, i);
      assert r[i] == SeedCell(s[i], draw(k), draw(k + 1), rockProb, treeProb);
    }
  }

  // ---------------------------------------------------------------------
  // Growth automaton

  /** Number of the first `d` neighbours (in N, E, S, W order) in state `t`. */
  function NbrCount(s: seq<Lulc>, w: int, i: int, t: Lulc, d: nat): (c: nat)
    requires Interior(w, |s|, i) && d <= 4
    ensures c <= d
  {
    if d == 0 then 0
    else NbrCount(s, w, i, t, d - 1) + (if s[Nbr(w, i, d - 1)] == t then 1 else 0)
  }

  /** A neighbour is never counted both as Trees and as Rock. */
  lemma {:induction false} NbrCountsDisjoint(s: seq<Lulc>, w: int, i: int, d: nat)
    requires Interior(w, |s|, i) && d <= 4
    ensures NbrCount(s, w, i, Trees, d) + NbrCount(s, w, i, Rock, d) <= d
  {
    if d > 0 { NbrCountsDisjoint(s, w, i, d - 1); }
  }

  /** The count is zero exactly when no neighbour is in state `t`. */
  lemma {:induction false} NbrCountZero(s: seq<Lulc>, w: int, i: int, t: Lulc, d: nat)
    requires Interior(w, |s|, i) && d <= 4
    ensures NbrCount(s, w, i, t, d) == 0 <==> forall e :: 0 <= e < d ==> s[Nbr(w, i, e)] != t
  {
    if d > 0 { NbrCountZero(s, w, i, t, d - 1); }
  }

  function TreeCount(s: seq<Lulc>, w: int, i: int): nat
    requires Interior(w, |s|, i)
  {
    NbrCount(s, w, i, Trees, 4)
  }

  function RockCount(s: seq<Lulc>, w: int, i: int): nat
    requires Interior(w, |s|, i)
  {
    NbrCount(s, w, i, Rock, 4)
  }

  /** One interior cell of a growth cycle, read from the previous generation
      `prev`, given the draw `dr` it takes (if it takes one). */
  function GrowCell(prev: seq<Lulc>, w: int, i: int, dr: real): (r: Lulc)
    requires Interior(w, |prev|, i)
    ensures (r == Water) <==> (prev[i] == Water)
    ensures r == prev[i] || r == Trees || r == Rock
    ensures r == Trees && prev[i] != Trees ==> prev[i] != Sand && TreeCount(prev, w, i) > RockCount(prev, w, i)
    ensures r == Rock && prev[i] != Rock ==> TreeCount(prev, w, i) <= RockCount(prev, w, i)
    ensures r != prev[i] ==> dr < (if r == Trees then TreeCount(prev, w, i) else RockCount(prev, w, i)) as real / 4.0
    ensures prev[i] != Water && prev[i] != Sand && TreeCount(prev, w, i) > RockCount(prev, w, i)
      && dr < TreeCount(prev, w, i) as real / 4.0
      ==> r == Trees
    ensures prev[i] != Water && TreeCount(prev, w, i) <= RockCount(prev, w, i)
      && dr < RockCount(prev, w, i) as real / 4.0
      ==> r == Rock
  {
    var c := prev[i];
    if c == Water then c
    else
      var trees, rocks := TreeCount(prev, w, i), RockCount(prev, w, i);
      if trees > rocks then
        if c == Sand then c
        else if dr < trees as real / 4.0 then Trees else c
      else if dr < rocks as real / 4.0 then Rock else c
  }

  /** Draws a cell takes in a growth cycle: none for Water and for Sand facing
      a tree majority, one otherwise. */
  function GrowDraws(prev: seq<Lulc>, w: int, i: int): (k: nat)
    requires Interior(w, |prev|, i)
    ensures k <= 1 && (prev[i] == Water ==> k == 0)
    ensures k == 1 <==> prev[i] != Water && !(prev[i] == Sand && TreeCount(prev, w, i) > RockCount(prev, w, i))
  {
    if prev[i] == Water then 0
    else if TreeCount(prev, w, i) > RockCount(prev, w, i) && prev[i] == Sand then 0
    else 1
  }

  /** Position in the draw stream when a growth cycle reaches index `n`. */
  function GrowCursor(prev: seq<Lulc>, w: int, k0: nat, n: nat): (k: nat)
    requires n <= |prev|
    ensures k0 <= k <= k0 + n
  {
    if n == 0 then k0
    else GrowCursor(prev, w, k0, n - 1) + (if Interior(w, |prev|, n - 1) then GrowDraws(prev, w, n - 1) else 0)
  }

  /** Border indices take no draw: the growth cursor does not move over them. */
  lemma {:induction false} GrowCursorSkip(prev: seq<Lulc>, w: int, k0: nat, n: nat, m: nat)
    requires n <= m <= |prev|
    requires forall j :: n <= j < m ==> !Interior(w, |prev|, j)
    ensures GrowCursor(prev, w, k0, m) == GrowCursor(prev, w, k0, n)
    decreases m
  {
    if m > n { GrowCursorSkip(prev, w, k0, n, m - 1); }
  }

  /** One full growth cycle: every interior cell is decided from `prev` alone.
      Non-interior cells keep their state (both buffers have a Water border). */
  function GrowCycle(prev: seq<Lulc>, w: int, draw: nat -> real, k0: nat): seq<Lulc>
  {
    seq(|prev|, i requires 0 <= i < |prev| =>
      if Interior(w, |prev|, i) then GrowCell(prev, w, i, draw(GrowCursor(prev, w, k0, i))) else prev[i])
  }

  /** What a growth cycle does at interior index `i`, and how far it moves
      the draw position. */
  lemma GrowCycleAt(prev: seq<Lulc>, w: int, draw: nat -> real, k0: nat, i: int)
    requires 0 <= i < |prev| && Interior(w, |prev|, i)
    ensures var k := GrowCursor(prev, w, k0, i);
      && GrowCycle(prev, w, draw, k0)[i] == GrowCell(prev, w, i, draw(k))
      && GrowCursor(prev, w, k0, i + 1) == k + GrowDraws(prev, w, i)
  {
  }

  /** Per cell, a growth cycle keeps Water exactly where it was, leaves the
      border alone and otherwise only writes Trees or Rock; Sand never becomes
      Trees. */
  lemma GrowCycleCells(prev: seq<Lulc>, w: int, draw: nat -> real, k0: nat)
    ensures var r := GrowCycle(prev, w, draw, k0);
      && |r| == |prev|
      && (forall i :: 0 <= i < |r| ==> (r[i] == Water <==> prev[i] == Water))
      && (forall i :: 0 <= i < |r| && r[i] != prev[i] ==> Interior(w, |r|, i) && r[i] in {Trees, Rock})
      && (forall i :: 0 <= i < |r| && prev[i] == Sand ==> r[i] != Trees)
  {
    var r := GrowCycle(prev, w, draw, k0);
    forall i | 0 <= i < |r|
      ensures (r[i] == Water <==> prev[i] == Water)
      ensures r[i] != prev[i] ==> Interior(w, |r|, i) && r[i] in {Trees, Rock}
      ensures prev[i] == Sand ==> r[i] != Trees
    {
      if Interior(w, |r|, i) {
        assert r[i] == GrowCell(prev, w, i, draw(GrowCursor(prev, w, k0, i)));
      }
    }
  }

  /** With draws that are never negative, a cell none of whose four neighbours
      is Trees or Rock keeps its state: its adoption probability is 0. */
  lemma GrowCycleQuietCell(prev: seq<Lulc>, w: int, draw: nat -> real, k0: nat, i: int)
    requires forall k: nat :: draw(k) >= 0.0
    requires 0 <= i < |prev| && Interior(w, |prev|, i)
    requires forall d :: 0 <= d < 4 ==> prev[Nbr(w, i, d)] != Trees && prev[Nbr(w, i, d)] != Rock
    ensures GrowCycle(prev, w, draw, k0)[i] == prev[i]
  {
    NbrCountZero(prev, w, i, Trees, 4);
    NbrCountZero(prev, w, i, Rock, 4);
    var dr := draw(GrowCursor(prev, w, k0, i));
    assert GrowCycle(prev, w, draw, k0)[i] == GrowCell(prev, w, i, dr);
  }

  /** A board together with the draw-stream position after producing it. */
  datatype Gen = Gen(cells: seq<Lulc>, next: nat)

  /** The generation after `c` growth cycles started at draw position `k0`. */
  function Grown(s: seq<Lulc>, w: int, draw: nat -> real, k0: nat, c: nat): (g: Gen)
    ensures |g.cells| == |s| && g.next >= k0
  {
    if c == 0 then Gen(s, k0)
    else
      var g := Grown(s, w, draw, k0, c - 1);
      Gen(GrowCycle(g.cells, w, draw, g.next), GrowCursor(g.cells, w, g.next, |g.cells|))
  }

  /** Iterations of `for (int i = 0; i < cycles; ++i)` for a floating-point
      bound: the least natural number not below `cycles`. */
  function Cycles(cycles: real): (n: nat)
    ensures n as real >= cycles
    ensures n > 0 ==> ((n - 1) as real) < cycles
  {
    if cycles <= 0.0 then 0
    else if cycles.Floor as real == cycles then cycles.Floor
    else cycles.Floor + 1
  }

  /** What the growth loop leaves in `board`: the final `board = cur_board`
      copies the buffer holding the generation BEFORE the last cycle, and the
      all-Water temporary buffer when no cycle runs. The stream position is the
      one after the last cycle, whose draws were taken all the same. */
  function AfterGrowth(s: seq<Lulc>, w: int, draw: nat -> real, k0: nat, cycles: real): Gen
  {
    var c := Cycles(cycles);
    Gen(if c == 0 then Filled(|s|, Water) else Grown(s, w, draw, k0, c - 1).cells,
        Grown(s, w, draw, k0, c).next)
  }

  /** The whole of InitState after the land mask is generated. */
  function InitStateResult(raw: seq<bool>, s: seq<Lulc>, w: int, rockProb: real, treeProb: real,
                           cycles: real, draw: nat -> real, k0: nat): Gen
    requires |raw| == |s|
  {
    var m := Opened(LandMask(raw, w), w);
    var b := Beached(m, s, w);
    var k1 := SeedCursor(b, w, draw, rockProb, k0, |b|);
    AfterGrowth(Seeded(b, w, draw, rockProb, treeProb, k0), w, draw, k1, cycles)
  }

  /** Over any number of cycles: Water stays exactly where it was, the border
      is untouched, and a cell that differs from the seeded board is Trees or
      Rock (so Grass and Sand are never created). */
  lemma {:induction false} GrownCells(s: seq<Lulc>, w: int, draw: nat -> real, k0: nat, c: nat)
    ensures var g := Grown(s, w, draw, k0, c).cells;
      && (forall i :: 0 <= i < |s| ==> (g[i] == Water <==> s[i] == Water))
      && (forall i :: 0 <= i < |s| && !Interior(w, |s|, i) ==> g[i] == s[i])
      && (forall i :: 0 <= i < |s| && g[i] != s[i] ==> g[i] in {Trees, Rock})
  {
    if c > 0 {
      var p := Grown(s, w, draw, k0, c - 1);
      var g := Grown(s, w, draw, k0, c).cells;
      GrownCells(s, w, draw, k0, c - 1);
      GrowCycleCells(p.cells, w, draw, p.next);
      assert g == GrowCycle(p.cells, w, draw, p.next);
      forall i | 0 <= i < |s|
        ensures (g[i] == Water <==> s[i] == Water)
        ensures !Interior(w, |s|, i) ==> g[i] == s[i]
        ensures g[i] != s[i] ==> g[i] in {Trees, Rock}
      {
      }
    }
  }

  /** The final copy with no growth cycle replaces the whole board by the
      all-Water temporary buffer: the island disappears. */
  lemma ZeroCyclesErasesIsland(s: seq<Lulc>, w: int, draw: nat -> real, k0: nat, cycles: real, i: int)
    requires cycles <= 0.0 && 0 <= i < |s| && s[i] != Water
    ensures AfterGrowth(s, w, draw, k0, cycles).cells == Filled(|s|, Water)
    ensures AfterGrowth(s, w, draw, k0, cycles).cells != s
  {
    assert AfterGrowth(s, w, draw, k0, cycles).cells[i] == Water;
  }

  /** With exactly one cycle the copy brings back the seeded board unchanged:
      the cycle's draws are consumed but its result is discarded. */
  lemma OneCycleIsDiscarded(s: seq<Lulc>, w: int, draw: nat -> real, k0: nat, cycles: real)
    requires 0.0 < cycles <= 1.0
    ensures AfterGrowth(s, w, draw, k0, cycles).cells == s
    ensures AfterGrowth(s, w, draw, k0, cycles).next == GrowCursor(s, w, k0, |s|)
  {
    assert Cycles(cycles) == 1;
  }

  /** The intended end of the growth loop: the last generation computed. */
  function IntendedAfterGrowth(s: seq<Lulc>, w: int, draw: nat -> real, k0: nat, cycles: real): Gen
  {
    Grown(s, w, draw, k0, Cycles(cycles))
  }

  /** The intended result keeps every land cell land and every water cell
      water, whatever the number of cycles (zero included). */
  lemma IntendedGrowthKeepsIsland(s: seq<Lulc>, w: int, draw: nat -> real, k0: nat, cycles: real)
    ensures var g := IntendedAfterGrowth(s, w, draw, k0, cycles).cells;
      |g| == |s| && forall i :: 0 <= i < |s| ==> (g[i] == Water <==> s[i] == Water)
  {
    GrownCells(s, w, draw, k0, Cycles(cycles));
  }

  /** The shape of a finished island over the opened mask `m`: Water is
      exactly the complement of `m`, the border is Water, only Water, Sand,
      Grass, Rock and Trees occur, and no Grass cell touches Water. */
  ghost predicate IslandShape(f: seq<Lulc>, m: seq<bool>, w: int)
  {
    && |f| == |m|
    && (forall i :: 0 <= i < |f| ==> (f[i] == Water <==> !m[i]))
    && BorderWater(f, w)
    && (forall i :: 0 <= i < |f| ==> f[i] in {Water, Sand, Grass, Rock, Trees})
    && (forall i :: 0 <= i < |f| && f[i] == Grass ==>
          Interior(w, |f|, i) && f[i - w] != Water && f[i + 1] != Water && f[i + w] != Water && f[i - 1] != Water)
  }

  /** The board before growth, from the constructor's all-Water board: the
      opened mask classified into beach and grass, then seeded. */
  function SeededIsland(raw: seq<bool>, w: int, rockProb: real, treeProb: real, draw: nat -> real, k0: nat): seq<Lulc>
  {
    var b := Beached(Opened(LandMask(raw, w), w), Filled(|raw|, Water), w);
    Seeded(b, w, draw, rockProb, treeProb, k0)
  }

  /** Classification and seeding give the island its shape. */
  lemma SeededIslandShape(raw: seq<bool>, w: int, rockProb: real, treeProb: real, draw: nat -> real, k0: nat)
    ensures IslandShape(SeededIsland(raw, w, rockProb, treeProb, draw, k0), Opened(LandMask(raw, w), w), w)
  {
    var m0 := LandMask(raw, w);
    var m := Opened(m0, w);
    assert BorderFalse(m0, w);
    OpenedShrinks(m0, w);
    var b := Beached(m, Filled(|raw|, Water), w);
    BeachRing(m, w);
    var sd := Seeded(b, w, draw, rockProb, treeProb, k0);
    SeededCells(b, w, draw, rockProb, treeProb, k0);
    forall i | 0 <= i < |sd| && sd[i] == Grass
      ensures Interior(w, |sd|, i) && sd[i - w] != Water && sd[i + 1] != Water && sd[i + w] != Water && sd[i - 1] != Water
    {
      assert b[i] == Grass;
    }
  }

  /** A board that keeps Water, keeps the border and changes cells only to
      Trees or Rock keeps the shape. */
  lemma ShapeKept(s: seq<Lulc>, f: seq<Lulc>, m: seq<bool>, w: int)
    requires IslandShape(s, m, w) && |f| == |s|
    requires forall i :: 0 <= i < |s| ==> (f[i] == Water <==> s[i] == Water)
    requires forall i :: 0 <= i < |s| && !Interior(w, |s|, i) ==> f[i] == s[i]
    requires forall i :: 0 <= i < |s| && f[i] != s[i] ==> f[i] in {Trees, Rock}
    ensures IslandShape(f, m, w)
  {
    forall i | 0 <= i < |f| && f[i] == Grass
      ensures Interior(w, |f|, i) && f[i - w] != Water && f[i + 1] != Water && f[i + w] != Water && f[i - 1] != Water
    {
      assert s[i] == Grass;
    }
  }

  /** Growth keeps the shape: it changes no Water cell and no border cell and
      writes only Trees and Rock. */
  lemma GrowthKeepsShape(s: seq<Lulc>, m: seq<bool>, w: int, draw: nat -> real, k0: nat, c: nat)
    requires IslandShape(s, m, w)
    ensures IslandShape(Grown(s, w, draw, k0, c).cells, m, w)
  {
    GrownCells(s, w, draw, k0, c);
    ShapeKept(s, Grown(s, w, draw, k0, c).cells, m, w);
  }

  /** End to end, from the all-Water board the constructor allocates and with
      at least one growth cycle, the board `InitState` leaves has the island
      shape over the opened land mask. */
  lemma InitStateCover(raw: seq<bool>, w: int, rockProb: real, treeProb: real,
                       cycles: real, draw: nat -> real, k0: nat)
    requires cycles > 0.0
    ensures IslandShape(InitStateResult(raw, Filled(|raw|, Water), w, rockProb, treeProb, cycles, draw, k0).cells,
                        Opened(LandMask(raw, w), w), w)
  {
    var b := Beached(Opened(LandMask(raw, w), w), Filled(|raw|, Water), w);
    var k1 := SeedCursor(b, w, draw, rockProb, k0, |b|);
    var sd := SeededIsland(raw, w, rockProb, treeProb, draw, k0);
    SeededIslandShape(raw, w, rockProb, treeProb, draw, k0);
    GrowthKeepsShape(sd, Opened(LandMask(raw, w), w), w, draw, k1, Cycles(cycles) - 1);
  }
}
