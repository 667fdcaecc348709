/**
 * What one tick does to the organism list, as a function of what each
 * organism's act reported: a survivor keeps its place (in its post-act
 * state), a dead plant is replaced at its place by a seedling, a dead fox
 * or rabbit is dropped, and the newborns of all acts follow, in the order
 * the acts produced them.
 */
module Stepping {
  import opened World

  /**
   * What one call of an organism's act leaves for the engine to see: whether
   * the organism is still alive, the field and location it now reports, and
   * the newborns it added to the side list.
   */
  datatype ActOutcome = ActOutcome(alive: bool, field: Field, location: Location, newborns: seq<Organism>)

  /** The organism `x` as act left it. */
  function AfterAct(x: Organism, o: ActOutcome): Organism
  {
    x.(alive := o.alive, field := o.field, location := o.location)
  }

  /** A new plant in the field and at the location `x` reports. */
  function Seedling(x: Organism): Organism
  {
    Born(Plant, x.field, x.location)
  }

  /** Whether reconciliation leaves an entry in the list: survivors and dead plants. */
  predicate Kept(x: Organism, o: ActOutcome)
  {
    o.alive || x.kind == Plant
  }

  /** What one entry becomes once it has acted: itself, a seedling, or nothing. */
  function Reconciled(x: Organism, o: ActOutcome): seq<Organism>
  {
    var y := AfterAct(x, o);
    if y.alive then [y]
    else if y.kind == Plant then [Seedling(y)]
    else []
  }

  /** The reconciled images of the first n entries, in list order. */
  function Pass(animals: seq<Organism>, outcomes: seq<ActOutcome>, n: nat): seq<Organism>
    requires n <= |animals| == |outcomes|
  {
    if n == 0 then []
    else Pass(animals, outcomes, n - 1) + Reconciled(animals[n - 1], outcomes[n - 1])
  }

  /** The list after the pass over `animals`, before the newborns are appended. */
  function Reconcile(animals: seq<Organism>, outcomes: seq<ActOutcome>): seq<Organism>
    requires |animals| == |outcomes|
  {
    Pass(animals, outcomes, |animals|)
  }

  /** The newborns of the first n acts, in the order of the acts. */
  function NewbornsOf(outcomes: seq<ActOutcome>, n: nat): seq<Organism>
    requires n <= |outcomes|
  {
    if n == 0 then []
    else NewbornsOf(outcomes, n - 1) + outcomes[n - 1].newborns
  }

  /** The side list at the end of the pass. */
  function Newborns(outcomes: seq<ActOutcome>): seq<Organism>
  {
    NewbornsOf(outcomes, |outcomes|)
  }

  /** The list at the end of a tick. */
  function NextGeneration(animals: seq<Organism>, outcomes: seq<ActOutcome>): seq<Organism>
    requires |animals| == |outcomes|
  {
    Reconcile(animals, outcomes) + Newborns(outcomes)
  }

  /** How many of the first n entries the pass removes: the foxes and rabbits found dead. */
  function RemovedOf(animals: seq<Organism>, outcomes: seq<ActOutcome>, n: nat): nat
    requires n <= |animals| == |outcomes|
  {
    if n == 0 then 0
    else RemovedOf(animals, outcomes, n - 1) + (if Kept(animals[n - 1], outcomes[n - 1]) then 0 else 1)
  }

  /** How many entries the pass removes. */
  function Removed(animals: seq<Organism>, outcomes: seq<ActOutcome>): nat
    requires |animals| == |outcomes|
  {
    RemovedOf(animals, outcomes, |animals|)
  }

  /** The index in the reconciled list taken by entry i, if it is kept. */
  function Position(animals: seq<Organism>, outcomes: seq<ActOutcome>, i: nat): nat
    requires i <= |animals| == |outcomes|
  {
    |Pass(animals, outcomes, i)|
  }

  /** The pass over fewer entries is a prefix of the pass over more. */
  lemma {:induction false} PassPrefix(animals: seq<Organism>, outcomes: seq<ActOutcome>, m: nat, n: nat)
    requires m <= n <= |animals| == |outcomes|
    ensures |Pass(animals, outcomes, m)| <= |Pass(animals, outcomes, n)|
    ensures Pass(animals, outcomes, n)[..|Pass(animals, outcomes, m)|] == Pass(animals, outcomes, m)
    decreases n
  {
    if m < n {
      PassPrefix(animals, outcomes, m, n - 1);
      var p := Pass(animals, outcomes, n - 1);
      assert Pass(animals, outcomes, n)[..|p|] == p;
    }
  }

  /**
   * The length of the list at the end of a tick: the old length, less the
   * dead foxes and rabbits, plus all newborns; a dead plant changes nothing.
   */
  lemma NextGenerationLength(animals: seq<Organism>, outcomes: seq<ActOutcome>)
    requires |animals| == |outcomes|
    ensures |Reconcile(animals, outcomes)| == |animals| - Removed(animals, outcomes)
    ensures |NextGeneration(animals, outcomes)|
         == |animals| - Removed(animals, outcomes) + |Newborns(outcomes)|
  {
    PassLength(animals, outcomes, |animals|);
  }

  /** The pass over n entries keeps all but the removed ones. */
  lemma {:induction false} PassLength(animals: seq<Organism>, outcomes: seq<ActOutcome>, n: nat)
    requires n <= |animals| == |outcomes|
    ensures |Pass(animals, outcomes, n)| == n - RemovedOf(animals, outcomes, n)
    ensures RemovedOf(animals, outcomes, n) <= n
    decreases n
  {
    if n > 0 {
      PassLength(animals, outcomes, n - 1);
    }
  }

  /** Every entry the pass leaves in the list is alive: no dead fox, rabbit or plant remains. */
  lemma ReconcileAllAlive(animals: seq<Organism>, outcomes: seq<ActOutcome>)
    requires |animals| == |outcomes|
    ensures forall x :: x in Reconcile(animals, outcomes) ==> x.alive
  {
    PassAllAlive(animals, outcomes, |animals|);
  }

  lemma {:induction false} PassAllAlive(animals: seq<Organism>, outcomes: seq<ActOutcome>, n: nat)
    requires n <= |animals| == |outcomes|
    ensures forall x :: x in Pass(animals, outcomes, n) ==> x.alive
    decreases n
  {
    if n > 0 {
      PassAllAlive(animals, outcomes, n - 1);
    }
  }

  /**
   * When every act adds only live newborns, every entry of the list at the
   * end of the tick is alive: no dead fox or rabbit is left in it.
   */
  lemma NextGenerationAllAlive(animals: seq<Organism>, outcomes: seq<ActOutcome>)
    requires |animals| == |outcomes|
    requires forall j, x :: 0 <= j < |outcomes| && x in outcomes[j].newborns ==> x.alive
    ensures forall x :: x in NextGeneration(animals, outcomes) ==> x.alive
  {
    ReconcileAllAlive(animals, outcomes);
    NewbornsAllAlive(outcomes, |outcomes|);
  }

  lemma {:induction false} NewbornsAllAlive(outcomes: seq<ActOutcome>, n: nat)
    requires n <= |outcomes|
    requires forall j, x :: 0 <= j < |outcomes| && x in outcomes[j].newborns ==> x.alive
    ensures forall x :: x in NewbornsOf(outcomes, n) ==> x.alive
    decreases n
  {
    if n > 0 {
      NewbornsAllAlive(outcomes, n - 1);
    }
  }

  /**
   * A kept entry i lands at Position(i): a survivor is there exactly as its
   * act left it, and a dead plant is replaced there by a live plant with the
   * field and the location the dead plant reported after its act.
   */
  lemma ReconcileAt(animals: seq<Organism>, outcomes: seq<ActOutcome>, i: nat)
    requires i < |animals| == |outcomes|
    requires Kept(animals[i], outcomes[i])
    ensures Position(animals, outcomes, i) < |Reconcile(animals, outcomes)|
    ensures outcomes[i].alive ==>
      Reconcile(animals, outcomes)[Position(animals, outcomes, i)] == AfterAct(animals[i], outcomes[i])
    ensures !outcomes[i].alive ==>
      Reconcile(animals, outcomes)[Position(animals, outcomes, i)]
        == Organism(Plant, true, outcomes[i].field, outcomes[i].location)
  {
    var p := Pass(animals, outcomes, i + 1);
    PassPrefix(animals, outcomes, i + 1, |animals|);
    var r := Reconcile(animals, outcomes);
    assert r[Position(animals, outcomes, i)] == r[..|p|][Position(animals, outcomes, i)];
  }

  /** Positions advance by one for each kept entry and stay put for each removed one. */
  lemma PositionStep(animals: seq<Organism>, outcomes: seq<ActOutcome>, i: nat)
    requires i < |animals| == |outcomes|
    ensures Position(animals, outcomes, i + 1)
         == Position(animals, outcomes, i) + (if Kept(animals[i], outcomes[i]) then 1 else 0)
  {
  }

  /**
   * The pass keeps the relative order of the entries it keeps: an entry
   * before k that is kept lands strictly before k's position.
   */
  lemma {:induction false} PositionOrder(animals: seq<Organism>, outcomes: seq<ActOutcome>, i: nat, k: nat)
    requires i < k <= |animals| == |outcomes|
    ensures Position(animals, outcomes, i) + (if Kept(animals[i], outcomes[i]) then 1 else 0)
         <= Position(animals, outcomes, k)
    decreases k
  {
    PositionStep(animals, outcomes, k - 1);
    if i < k - 1 {
      PositionOrder(animals, outcomes, i, k - 1);
    }
  }

  /** Every entry of the reconciled list is the image of some kept entry. */
  lemma ReconcileCovered(animals: seq<Organism>, outcomes: seq<ActOutcome>, m: nat)
    requires |animals| == |outcomes|
    requires m < |Reconcile(animals, outcomes)|
    ensures exists i :: 0 <= i < |animals| && Kept(animals[i], outcomes[i]) && Position(animals, outcomes, i) == m
  {
    PassCovered(animals, outcomes, |animals|, m);
  }

  lemma {:induction false} PassCovered(animals: seq<Organism>, outcomes: seq<ActOutcome>, n: nat, m: nat)
    requires n <= |animals| == |outcomes|
    requires m < |Pass(animals, outcomes, n)|
    ensures exists i :: 0 <= i < n && Kept(animals[i], outcomes[i]) && Position(animals, outcomes, i) == m
    decreases n
  {
    if m < |Pass(animals, outcomes, n - 1)| {
      PassCovered(animals, outcomes, n - 1, m);
    } else {
      assert Kept(animals[n - 1], outcomes[n - 1]) && Position(animals, outcomes, n - 1) == m;
    }
  }

  /**
   * The position of entry i is i less the entries removed before it; in
   * particular an entry with no removal before it keeps its own index.
   */
  lemma PositionIndex(animals: seq<Organism>, outcomes: seq<ActOutcome>, i: nat)
    requires i <= |animals| == |outcomes|
    ensures Position(animals, outcomes, i) == i - RemovedOf(animals, outcomes, i)
  {
    PassLength(animals, outcomes, i);
  }

  /**
   * The newborns of the i-th act sit in the list at the end of the tick
   * right after every reconciled entry and the newborns of earlier acts.
   */
  lemma NewbornsPlaced(animals: seq<Organism>, outcomes: seq<ActOutcome>, i: nat)
    requires i < |animals| == |outcomes|
    ensures var s := |Reconcile(animals, outcomes)| + |NewbornsOf(outcomes, i)|;
            && s + |outcomes[i].newborns| <= |NextGeneration(animals, outcomes)|
            && NextGeneration(animals, outcomes)[s .. s + |outcomes[i].newborns|] == outcomes[i].newborns
  {
    var r, nb := Reconcile(animals, outcomes), NewbornsOf(outcomes, |outcomes|);
    assert NextGeneration(animals, outcomes) == r + nb;
    NewbornsChunk(outcomes, i, |outcomes|);
    var s, e := |NewbornsOf(outcomes, i)|, |NewbornsOf(outcomes, i)| + |outcomes[i].newborns|;
    SliceOfSuffix(r, nb, s, e);
    assert (r + nb)[|r| + s .. |r| + e] == outcomes[i].newborns;
  }

  /** A slice lying in the second part of a concatenation is a slice of that part. */
  lemma SliceOfSuffix(a: seq<Organism>, b: seq<Organism>, s: nat, e: nat)
    requires s <= e <= |b|
    ensures (a + b)[|a| + s .. |a| + e] == b[s..e]
  {
  }

  /**
   * Among the newborns of the first n acts, the i-th act's newborns form one
   * contiguous run, right after those of earlier acts.
   */
  lemma {:induction false} NewbornsChunk(outcomes: seq<ActOutcome>, i: nat, n: nat)
    requires i < n <= |outcomes|
    ensures var s := |NewbornsOf(outcomes, i)|;
            && s + |outcomes[i].newborns| <= |NewbornsOf(outcomes, n)|
            && NewbornsOf(outcomes, n)[s .. s + |outcomes[i].newborns|] == outcomes[i].newborns
    decreases n
  {
    var s := |NewbornsOf(outcomes, i)|;
    var e := s + |outcomes[i].newborns|;
    if i < n - 1 {
      NewbornsChunk(outcomes, i, n - 1);
      var prev := NewbornsOf(outcomes, n - 1);
      assert NewbornsOf(outcomes, n)[s .. e] == prev[s .. e];
    }
  }

  /** Acts that add no newborns leave the side list empty. */
  lemma {:induction false} NoNewborns(outcomes: seq<ActOutcome>, n: nat)
    requires n <= |outcomes|
    requires forall j :: 0 <= j < |outcomes| ==> outcomes[j].newborns == []
    ensures NewbornsOf(outcomes, n) == []
    decreases n
  {
    if n > 0 {
      NoNewborns(outcomes, n - 1);
    }
  }

  /**
   * A list of plants only stays a list of plants of the same length when no
   * act has newborns: plants are replaced, never removed. On a field of one
   * plant, the one entry is a plant after every tick.
   */
  lemma PlantsOnlyStable(animals: seq<Organism>, outcomes: seq<ActOutcome>)
    requires |animals| == |outcomes|
    requires forall j :: 0 <= j < |animals| ==> animals[j].kind == Plant
    requires forall j :: 0 <= j < |outcomes| ==> outcomes[j].newborns == []
    ensures |NextGeneration(animals, outcomes)| == |animals|
    ensures forall j :: 0 <= j < |animals| ==>
      NextGeneration(animals, outcomes)[j] == Organism(Plant, true, outcomes[j].field, outcomes[j].location)
  {
    NoNewborns(outcomes, |outcomes|);
    PlantsReconciled(animals, outcomes, |animals|);
  }

  /** Reconciling plants only gives, index for index, live plants in the fields and at the locations their acts left them. */
  lemma {:induction false} PlantsReconciled(animals: seq<Organism>, outcomes: seq<ActOutcome>, n: nat)
    requires n <= |animals| == |outcomes|
    requires forall j :: 0 <= j < |animals| ==> animals[j].kind == Plant
    ensures |Pass(animals, outcomes, n)| == n
    ensures forall j :: 0 <= j < n ==>
      Pass(animals, outcomes, n)[j] == Organism(Plant, true, outcomes[j].field, outcomes[j].location)
    decreases n
  {
    if n > 0 {
      PlantsReconciled(animals, outcomes, n - 1);
    }
  }
}
