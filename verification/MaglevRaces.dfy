/** The runs of `TableRaces` for the Maglev table of three backends of equal weight. */
module MaglevRaces {
  import opened Net
  import opened LookupTable
  import opened TableProtocol
  import opened TableRaces
  import opened Maglev
  import Fnv
  import MaglevDisruption

  /** The balancer of 10.0.14.132:53, 10.0.0.5:53 and 10.0.4.137:53. */
  function ThreeBackends(): (pool: Pool)
    ensures |pool.backends| == 3
  {
    MaglevDisruption.ContendedPool(3)
  }

  lemma ThreeBackendsFit()
    ensures ThreeBackends().Valid() && ThreeBackends().PositiveWeights()
    ensures Sound(EngineOf(ThreeBackends())) && Serves(EngineOf(ThreeBackends()))
  {
    assert ThreeBackends().Valid() && ThreeBackends().PositiveWeights();
    hide ThreeBackends, Sound, Serves, EngineOf;
    EngineIsSound(ThreeBackends());
  }

  lemma ClientIndices()
    ensures EngineOf(ThreeBackends()).index(Fnv.ClientOfFirst()) == 18647
    ensures EngineOf(ThreeBackends()).index(Fnv.ClientOfThird()) == 477
  {
    hide Fnv.Fnv1a, Fnv.Mixed, Fnv.ClientOfFirst, Fnv.ClientOfThird, TableFor;
    Fnv.ClientOfFirstHash();
    Fnv.ClientOfThirdHash();
  }

  lemma EngineBuilds(pool: Pool, flags: seq<bool>)
    requires |flags| == |pool.backends|
    ensures EngineOf(pool).count == |flags| && EngineOf(pool).build(flags) == TableFor(pool, flags)
  {
    hide TableFor;
  }

  lemma ThreeContended()
    ensures Contended(EngineOf(ThreeBackends()), Fnv.ClientOfFirst(), Fnv.ClientOfThird())
    ensures |EngineOf(ThreeBackends()).build([true, true, true])| == TABLE_SIZE
    ensures EngineOf(ThreeBackends()).build([true, true, true])[18647] == 0
  {
    hide EngineOf, TableFor, MaglevDisruption.ContendedPool, Fnv.ClientOfFirst, Fnv.ClientOfThird;
    ClientIndices();
    assert MaglevDisruption.UpFrom(0, 3) == [true, true, true];
    assert MaglevDisruption.UpFrom(1, 3) == [false, true, true];
    EngineBuilds(ThreeBackends(), [true, true, true]);
    EngineBuilds(ThreeBackends(), [false, true, true]);
    MaglevDisruption.ContendedFirstSlot(3);
    MaglevDisruption.ContendedSlot(0, 3);
    MaglevDisruption.ContendedSlot(1, 3);
  }

  /**
    Keyed by source address, client 10.2.48.226 moves from 10.0.0.5:53 to 10.0.4.137:53 although 10.0.0.5:53 stays up
    and, after the first answer, no first look finds an owner down: the look that did came before.
   */
  lemma ClientMovesLate() returns (first: seq<Action>, rest: seq<Action>, mid: System, end: System)
    ensures Sound(EngineOf(ThreeBackends()))
    ensures Sane(EngineOf(ThreeBackends()), Begin(EngineOf(ThreeBackends()), [true, true, true]))
    ensures first + rest == LateRebuild(Fnv.ClientOfFirst(), Fnv.ClientOfThird())
    ensures |first| == 5 && first[3] == Ask(1, Fnv.ClientOfThird()) && rest[4] == Ask(2, Fnv.ClientOfThird())
    ensures mid == Execute(EngineOf(ThreeBackends()), Begin(EngineOf(ThreeBackends()), [true, true, true]), first)
    ensures end == Execute(EngineOf(ThreeBackends()), mid, rest)
    ensures 1 in mid.tasks && mid.tasks[1] == Answered(Some(1)) && 2 in end.tasks && end.tasks[2] == Answered(Some(2))
    ensures Begun(EngineOf(ThreeBackends()), mid, rest) == 0
    ensures forall k :: 0 <= k < |end.past| ==> |end.past[k]| == 3 && end.past[k][1]
  {
    hide *;
    ThreeBackendsFit();
    ThreeContended();
    first, rest, mid, end := KeyMovesLate(EngineOf(ThreeBackends()), Fnv.ClientOfFirst(), Fnv.ClientOfThird());
  }
}
