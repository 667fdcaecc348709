/**
 * The collaborators of the stepping engine, reduced to what the engine
 * itself reads: the kind tag of an organism, its alive flag, the field it
 * lives in and its location, the field's dimensions, and the outcomes of
 * the shared random generator's threshold tests.
 */
module World {

  /** The fixed set of species; the engine switches on this tag. */
  datatype Kind = Fox | Rabbit | Plant

  /** A grid coordinate. */
  datatype Location = Location(row: nat, col: nat)

  /**
   * The rectangular field. Only its dimensions are read by the engine;
   * its occupancy mapping belongs to the organisms' own rules.
   */
  class Field {
    const depth: nat
    const width: nat

    constructor (depth: nat, width: nat)
      ensures this.depth == depth && this.width == width
    {
      this.depth := depth;
      this.width := width;
    }
  }

  /** An organism as the engine sees it. */
  datatype Organism = Organism(kind: Kind, alive: bool, field: Field, location: Location)

  /** A freshly constructed organism of the given kind: it starts out alive. */
  function Born(kind: Kind, field: Field, location: Location): Organism
  {
    Organism(kind, true, field, location)
  }

  /**
   * The random generator as the seeding sees it, through its threshold
   * comparisons: hits(k) is whether the seeding's k-th draw is at most the
   * probability it is compared against. `taken` counts the seeding's draws.
   */
  class DrawSource {
    const hits: nat -> bool
    var taken: nat

    constructor (hits: nat -> bool)
      ensures this.hits == hits && taken == 0
    {
      this.hits := hits;
      taken := 0;
    }

    /** One `nextDouble() <= p` test: the next outcome, and one more draw taken. */
    method Next() returns (hit: bool)
      modifies this
      ensures hit == hits(old(taken))
      ensures taken == old(taken) + 1
    {
      hit := hits(taken);
      taken := taken + 1;
    }
  }
}
