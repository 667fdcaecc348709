/**
 * The stepping engine: the master organism list, the field, and the tick
 * counter, with the one-tick pass, reset and the initial seeding.
 */
module Simulation {
  import opened World
  import opened Seeding
  import opened Stepping

  /** The tick counter has the width of a 32-bit signed integer. */
  newtype int32 = x: int | -0x8000_0000 <= x < 0x8000_0000

  const Int32Max: int32 := 0x7fff_ffff
  const Int32Min: int32 := -0x8000_0000

  class Simulator {
    var animals: seq<Organism>
    const field: Field
    var step: int32

    /** A simulator over a fresh depth-by-width field, reset and seeded from `rand`. */
    constructor (depth: nat, width: nat, rand: DrawSource)
      requires depth > 0 && width > 0
      modifies rand
      ensures field.depth == depth && field.width == width
      ensures step == 0
      ensures animals == Seed(field, rand.hits, old(rand.taken), depth * width).organisms
      ensures rand.taken == Seed(field, rand.hits, old(rand.taken), depth * width).next
    {
      animals := [];
      field := new Field(depth, width);
      step := 0;
      new;
      Reset(rand);
    }

    /**
     * One tick. `outcomes[j]` is what the act of the j-th entry of the list
     * reported. The counter goes up by one (wrapping at the 32-bit bound);
     * the list becomes the next generation. `acted` is the sequence of
     * organisms whose act was called, in order: exactly the entries the list
     * had when the tick began, so no newborn acts in the tick of its birth.
     */
    method SimulateOneStep(outcomes: seq<ActOutcome>) returns (ghost acted: seq<Organism>)
      requires |outcomes| == |animals|
      modifies this
      ensures old(step) < Int32Max ==> step == old(step) + 1
      ensures old(step) == Int32Max ==> step == Int32Min
      ensures animals == NextGeneration(old(animals), outcomes)
      ensures acted == old(animals)
    {
      step := if step == Int32Max then Int32Min else step + 1;
      var newAnimals: seq<Organism> := [];
      ghost var before := animals;
      acted := [];
      var list := animals;  // the list object the iterator runs over
      var i := 0;           // the iterator's cursor
      var j := 0;           // how many acts have been called
      ghost var done: seq<Organism> := [];  // the entries behind the cursor
      ghost var rest := list;               // the cursor and the entries after it
      while i < |list|
        invariant 0 <= j <= |before|
        invariant rest == before[j..] && acted == before[..j]
        invariant done == Pass(before, outcomes, j)
        invariant i == |done|
        invariant list == done + rest
        invariant newAnimals == NewbornsOf(outcomes, j)
        modifies {}
        decreases |rest|
      {
        CursorAt(before, j, done, rest);
        acted := acted + [list[i]];
        // The act: the organism at the cursor reports its post-act state and
        // its newborns go to the side list.
        var animal := AfterAct(list[i], outcomes[j]);
        CursorAct(before[j], outcomes[j]);
        newAnimals := newAnimals + outcomes[j].newborns;
        if !animal.alive {
          if animal.kind == Plant {
            CursorSet(before, outcomes, j, done, rest, Seedling(animal));
            list := list[i := Seedling(animal)];
            i := i + 1;
            done := done + [Seedling(animal)];
          } else {
            CursorRemove(before, outcomes, j, done, rest);
            list := list[..i] + list[i + 1..];
          }
        } else {
          CursorSet(before, outcomes, j, done, rest, animal);
          list := list[i := animal];
          i := i + 1;
          done := done + [animal];
        }
        rest := rest[1..];
        j := j + 1;
      }
      CursorEnd(before, outcomes, j, done, rest, newAnimals);
      animals := list + newAnimals;
    }

    /** The counter back to 0 and the list emptied, then seeded afresh. */
    method Reset(rand: DrawSource)
      modifies this, rand
      ensures step == 0
      ensures animals == Seed(field, rand.hits, old(rand.taken), field.depth * field.width).organisms
      ensures rand.taken == Seed(field, rand.hits, old(rand.taken), field.depth * field.width).next
    {
      step := 0;
      animals := [];
      Populate(rand);
    }

    /**
     * Visits every cell in row-major order and appends one organism for
     * it, of the kind the draws decide.
     */
    method Populate(rand: DrawSource)
      modifies this, rand
      ensures step == old(step)
      ensures animals == old(animals) + Seed(field, rand.hits, old(rand.taken), field.depth * field.width).organisms
      ensures rand.taken == Seed(field, rand.hits, old(rand.taken), field.depth * field.width).next
    {
      ghost var start := rand.taken;
      var list := animals;    // the list object the organisms are added to
      ghost var k: nat := 0;  // cells visited so far
      var row := 0;
      while row < field.depth
        invariant 0 <= row <= field.depth
        invariant k == RowStart(row, field.width) && (k == 0 || field.width > 0)
        invariant list == old(animals) + Seed(field, rand.hits, start, k).organisms
        invariant rand.taken == Seed(field, rand.hits, start, k).next
        modifies rand
      {
        var col := 0;
        while col < field.width
          invariant 0 <= col <= field.width
          invariant k == RowStart(row, field.width) + col && (k == 0 || field.width > 0)
          invariant list == old(animals) + Seed(field, rand.hits, start, k).organisms
          invariant rand.taken == Seed(field, rand.hits, start, k).next
          modifies rand
        {
          var location := Location(row, col);
          CellStep(field, rand.hits, start, k, row, col, old(animals));
          var kind := DrawCell(rand);
          list := list + [Born(kind, field, location)];
          col := col + 1;
          k := k + 1;
        }
        row := row + 1;
      }
      RowStartProduct(row, field.width);
      animals := list;
    }

    /** The field the organisms live in. */
    method GetField() returns (f: Field)
      ensures f == field
    {
      f := field;
    }

    /** The number of ticks since the last reset. */
    method GetStep() returns (s: int32)
      ensures s == step
    {
      s := step;
    }
  }

  /**
   * The draws for one cell: a fox when the fox test hits; otherwise, on a
   * second draw, a rabbit when the rabbit test hits, and a plant when it
   * does not.
   */
  method DrawCell(rand: DrawSource) returns (kind: Kind)
    modifies rand
    ensures kind == DrawKind(rand.hits, old(rand.taken)).kind
    ensures rand.taken == DrawKind(rand.hits, old(rand.taken)).next
  {
    var fox := rand.Next();
    if fox {
      kind := Fox;
    } else {
      var rabbit := rand.Next();
      if rabbit {
        kind := Rabbit;
      } else {
        kind := Plant;
      }
    }
  }

  /**
   * Seeding the cell at (row, col), numbered k in row-major order, appends
   * one organism placed there whose kind the draws at the current position
   * decide.
   */
  lemma CellStep(field: Field, hits: nat -> bool, start: nat, k: nat, row: nat, col: nat,
                 prefix: seq<Organism>)
    requires col < field.width
    requires k == RowStart(row, field.width) + col
    ensures var d := DrawKind(hits, Seed(field, hits, start, k).next);
            && Seed(field, hits, start, k + 1).next == d.next
            && prefix + Seed(field, hits, start, k + 1).organisms
               == (prefix + Seed(field, hits, start, k).organisms) + [Born(d.kind, field, Location(row, col))]
  {
    RowMajor(row, col, field.width);
  }

  /** The row-major number of the first cell of `row`, counted row by row. */
  function RowStart(row: nat, width: nat): nat
  {
    if row == 0 then 0 else RowStart(row - 1, width) + width
  }

  /** Counting row by row gives the product. */
  lemma {:induction false} RowStartProduct(row: nat, width: nat)
    ensures RowStart(row, width) == row * width
  {
    if row > 0 {
      RowStartProduct(row - 1, width);
    }
  }

  /** Cell (row, col) is the cell numbered RowStart(row, width) + col in row-major order. */
  lemma {:induction false} RowMajor(row: nat, col: nat, width: nat)
    requires col < width
    ensures CellAt(RowStart(row, width) + col, width) == Location(row, col)
  {
    if row > 0 {
      RowMajor(row - 1, col, width);
    }
  }

  /**
   * During the pass the list is `done + rest`: the reconciled images of the
   * entries visited so far, then the entries not yet visited. The cursor
   * stands on the first of `rest`, which is the next entry of the list the
   * tick began with.
   */
  lemma CursorAt(before: seq<Organism>, j: nat, done: seq<Organism>, rest: seq<Organism>)
    requires j < |before| && rest == before[j..]
    ensures |rest| > 0 && (done + rest)[|done|] == before[j]
    ensures before[..j] + [before[j]] == before[..j + 1]
    ensures rest[1..] == before[j + 1..]
  {
  }

  /** What the entry at the cursor reconciles to, by the three branches of the pass. */
  lemma CursorAct(x: Organism, o: ActOutcome)
    ensures o.alive ==> Reconciled(x, o) == [AfterAct(x, o)]
    ensures !o.alive && x.kind == Plant ==> Reconciled(x, o) == [Seedling(AfterAct(x, o))]
    ensures !o.alive && x.kind != Plant ==> Reconciled(x, o) == []
  {
  }

  /**
   * Overwriting the entry at the cursor with what it reconciles to, a
   * survivor or a seedling, and moving on past it.
   */
  lemma CursorSet(before: seq<Organism>, outcomes: seq<ActOutcome>, j: nat,
                  done: seq<Organism>, rest: seq<Organism>, y: Organism)
    requires j < |before| == |outcomes| && rest == before[j..]
    requires done == Pass(before, outcomes, j)
    requires Reconciled(before[j], outcomes[j]) == [y]
    ensures (done + rest)[|done| := y] == (done + [y]) + rest[1..]
    ensures done + [y] == Pass(before, outcomes, j + 1)
  {
    assert (done + rest)[|done| + 1..] == rest[1..];
  }

  /** Removing the entry at the cursor, which then stands on the next one. */
  lemma CursorRemove(before: seq<Organism>, outcomes: seq<ActOutcome>, j: nat,
                     done: seq<Organism>, rest: seq<Organism>)
    requires j < |before| == |outcomes| && rest == before[j..]
    requires done == Pass(before, outcomes, j)
    requires Reconciled(before[j], outcomes[j]) == []
    ensures (done + rest)[..|done|] + (done + rest)[|done| + 1..] == done + rest[1..]
    ensures done == Pass(before, outcomes, j + 1)
  {
    assert (done + rest)[..|done|] == done;
    assert (done + rest)[|done| + 1..] == rest[1..];
  }

  /**
   * When the cursor runs off the end, every entry has been visited: the
   * list is the reconciled pass and the side list holds all the newborns.
   */
  lemma CursorEnd(before: seq<Organism>, outcomes: seq<ActOutcome>, j: nat,
                  done: seq<Organism>, rest: seq<Organism>, newborns: seq<Organism>)
    requires j <= |before| == |outcomes| && rest == before[j..] && |rest| == 0
    requires done == Pass(before, outcomes, j) && newborns == NewbornsOf(outcomes, j)
    ensures j == |before| && before[..j] == before
    ensures done + rest + newborns == NextGeneration(before, outcomes)
  {
  }
}
