/** The attribution ladder: person above key or project, above account (src/contracts/attribution.ts). */
module Attribution {
  import opened Wrappers

  datatype Level = Person | KeyProject | Account

  function Order(level: Level): nat {
    match level
    case Person => 2
    case KeyProject => 1
    case Account => 0
  }

  /** The lowest level among the inputs; the source throws on no input. */
  function LowestAttribution(levels: seq<Level>): (lowest: Option<Level>)
    ensures lowest.None? <==> levels == []
    ensures lowest.Some? ==> lowest.value in levels && forall l | l in levels :: Order(lowest.value) <= Order(l)
  {
    if levels == [] then None
    else
      var last := levels[|levels|-1];
      match LowestAttribution(levels[..|levels|-1])
      case None => Some(last)
      case Some(lowest) => if Order(last) < Order(lowest) then Some(last) else Some(lowest)
  }

  lemma LowestIs(levels: seq<Level>, x: Level)
    requires x in levels && forall l | l in levels :: Order(x) <= Order(l)
    ensures LowestAttribution(levels) == Some(x)
  {
    var lowest := LowestAttribution(levels).value;
    assert Order(lowest) == Order(x);
  }

  /** Propagation composes: the lowest of two groups is the lowest of their lowest levels, whatever the order. */
  lemma LowestComposes(a: seq<Level>, b: seq<Level>)
    requires a != [] && b != []
    ensures var lowest := LowestAttribution([LowestAttribution(a).value, LowestAttribution(b).value]);
            LowestAttribution(a + b) == LowestAttribution(b + a) == lowest
  {
    var x, y := LowestAttribution(a).value, LowestAttribution(b).value;
    var z := if Order(x) <= Order(y) then x else y;
    LowestIs(a + b, z);
    LowestIs(b + a, z);
    LowestIs([x, y], z);
  }
}
