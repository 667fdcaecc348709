/**
 * The initial population: one organism per cell of the field, in row-major
 * order, its kind decided by up to two threshold tests on the random
 * generator (first the fox test; the rabbit test only when that fails).
 */
module Seeding {
  import opened World

  /** The kind chosen for one cell and the draw position after it. */
  datatype CellDraw = CellDraw(kind: Kind, next: nat)

  /** The fox test at `pos`; only when it fails, the rabbit test at `pos + 1`. */
  function DrawKind(hits: nat -> bool, pos: nat): CellDraw
  {
    if hits(pos) then CellDraw(Fox, pos + 1)
    else if hits(pos + 1) then CellDraw(Rabbit, pos + 2)
    else CellDraw(Plant, pos + 2)
  }

  /**
   * The k-th cell in row-major order of a field `width` columns wide: the
   * first `width` cells make up row 0, the next `width` row 1, and so on.
   */
  function CellAt(k: nat, width: nat): Location
    requires width > 0
    decreases k
  {
    if k < width then Location(0, k)
    else
      var l := CellAt(k - width, width);
      Location(l.row + 1, l.col)
  }

  /** Counted out row by row, cell k is at row k / width and column k % width. */
  lemma {:induction false} CellAtDivMod(k: nat, width: nat)
    requires width > 0
    ensures CellAt(k, width) == Location(k / width, k % width)
    decreases k
  {
    if k >= width {
      CellAtDivMod(k - width, width);
      DivModStep(k, width);
    }
  }

  lemma DivModStep(k: nat, width: nat)
    requires 0 < width <= k
    ensures (k - width) / width + 1 == k / width && (k - width) % width == k % width
  {
    var q, r := (k - width) / width, (k - width) % width;
    assert k - width == q * width + r && 0 <= r < width;
    assert k == (q + 1) * width + r;
    DivUnique(k, q + 1, r, width);
  }

  /** A cell numbered below depth * width lies in one of the first `depth` rows. */
  lemma RowInField(k: nat, depth: nat, width: nat)
    requires 0 < width && k < depth * width
    ensures k / width < depth
  {
    assert k == (k / width) * width + k % width;
    if k / width >= depth {
      Scale(depth, k / width, width);
      assert false;
    }
  }

  /** The quotient and remainder of Euclidean division are the only such pair. */
  lemma DivUnique(k: nat, q: nat, r: nat, width: nat)
    requires 0 <= r < width && k == q * width + r
    ensures k / width == q && k % width == r
  {
    assert k == (k / width) * width + k % width && 0 <= k % width < width;
    if k / width < q {
      Scale(k / width + 1, q, width);
      assert false;
    } else if k / width > q {
      Scale(q + 1, k / width, width);
      assert false;
    }
  }

  lemma Scale(a: nat, b: nat, c: nat)
    requires a <= b
    ensures a * c <= b * c
  {
  }

  /** The organisms seeded so far and the draw position reached. */
  datatype SeedState = SeedState(organisms: seq<Organism>, next: nat)

  /**
   * Seeding the first `cells` cells of `field`, starting at draw position
   * `start`: one organism per cell, and between one and two draws per cell.
   */
  function Seed(field: Field, hits: nat -> bool, start: nat, cells: nat): (r: SeedState)
    requires cells == 0 || field.width > 0
    ensures |r.organisms| == cells
    ensures start + cells <= r.next <= start + 2 * cells
    decreases cells
  {
    if cells == 0 then SeedState([], start)
    else
      var prev := Seed(field, hits, start, cells - 1);
      var d := DrawKind(hits, prev.next);
      SeedState(prev.organisms + [Born(d.kind, field, CellAt(cells - 1, field.width))], d.next)
  }

  /** Seeding more cells only extends what fewer cells produced. */
  lemma {:induction false} SeedPrefix(field: Field, hits: nat -> bool, start: nat, k: nat, cells: nat)
    requires k <= cells && (cells == 0 || field.width > 0)
    ensures Seed(field, hits, start, cells).organisms[..k] == Seed(field, hits, start, k).organisms
    decreases cells
  {
    if k < cells {
      SeedPrefix(field, hits, start, k, cells - 1);
      var prev := Seed(field, hits, start, cells - 1).organisms;
      assert Seed(field, hits, start, cells).organisms[..cells - 1] == prev;
      assert Seed(field, hits, start, cells).organisms[..k] == prev[..k];
    }
  }

  /**
   * The k-th seeded organism is born alive, in `field`, at row k / width
   * and column k % width.
   */
  lemma SeededCell(field: Field, hits: nat -> bool, start: nat, cells: nat, k: nat)
    requires 0 < field.width && k < cells
    ensures var o := Seed(field, hits, start, cells).organisms[k];
            && o.alive && o.field == field
            && o.location == Location(k / field.width, k % field.width)
  {
    SeedPrefix(field, hits, start, k + 1, cells);
    CellAtDivMod(k, field.width);
    var all := Seed(field, hits, start, cells).organisms;
    assert all[k] == all[..k + 1][k];
  }

  /**
   * The kind of the k-th seeded organism. Writing p for the draw position at
   * which its cell starts: it is a fox exactly when draw p hits, a rabbit
   * exactly when draw p misses and draw p + 1 hits, and a plant otherwise;
   * its cell takes one draw after a fox and two otherwise.
   */
  lemma SeededKind(field: Field, hits: nat -> bool, start: nat, cells: nat, k: nat)
    requires 0 < field.width && k < cells
    ensures var o := Seed(field, hits, start, cells).organisms[k];
            var p := Seed(field, hits, start, k).next;
            && (o.kind == Fox <==> hits(p))
            && (o.kind == Rabbit <==> !hits(p) && hits(p + 1))
            && (o.kind == Plant <==> !hits(p) && !hits(p + 1))
            && Seed(field, hits, start, k + 1).next == p + (if hits(p) then 1 else 2)
  {
    SeedPrefix(field, hits, start, k + 1, cells);
    var all := Seed(field, hits, start, cells).organisms;
    assert all[k] == all[..k + 1][k];
  }

  /** Seeding the whole field places every organism on one of its cells. */
  lemma SeededInField(field: Field, hits: nat -> bool, start: nat, k: nat)
    requires k < field.depth * field.width
    ensures var o := Seed(field, hits, start, field.depth * field.width).organisms[k];
            o.location.row < field.depth && o.location.col < field.width
  {
    RowInField(k, field.depth, field.width);
    SeededCell(field, hits, start, field.depth * field.width, k);
  }
}
