/** The conversion of the language detector's answer into statistics. The
    detector itself is an input: its answer is one of the three shapes below. */
module Linguist {
  import opened Dicts
  import opened Catalog

  /** What the detector call produced: a list of (language, percentage)
      pairs, a mapping, or an exception. */
  datatype Detection =
    | Pairs(pairs: seq<(Language, real)>)
    | Mapping(stats: Stats)
    | Failed

  /** A mapping answer is a well-formed dictionary. */
  predicate WellFormed(det: Detection) {
    det.Mapping? ==> det.stats.Valid()
  }

  /** The statistics the analysis step returns for one repository: a pair
      list becomes a dictionary (the last pair of a language wins), a mapping
      is returned as it is, and a failure yields no statistics at all. */
  function Analyze(det: Detection): (s: Stats)
    ensures WellFormed(det) ==> s.Valid()
    ensures det.Failed? ==> s.keys == [] && s.entries == map[]
    ensures det.Mapping? ==> s == det.stats
    ensures det.Pairs? ==> s == FromPairs(det.pairs)
    ensures det.Pairs? ==>
      && (forall i | 0 <= i < |det.pairs| :: det.pairs[i].0 in s.entries)
      && (forall l | l in s.entries :: exists i | 0 <= i < |det.pairs| :: det.pairs[i] == (l, s.entries[l]))
  {
    match det
    case Pairs(pairs) => FromPairsKeys(pairs); FromPairs(pairs)
    case Mapping(stats) => stats
    case Failed => Empty()
  }

  /** A language listed twice keeps its later percentage; the two are not added. */
  lemma RepeatedLanguage(l: Language, a: real, b: real)
    requires a != 0.0
    ensures Analyze(Pairs([(l, a), (l, b)])).entries == map[l := b]
    ensures Analyze(Pairs([(l, a), (l, b)])).entries[l] != a + b
  {
    var first := [(l, a)];
    var pairs := [(l, a), (l, b)];
    assert pairs[..1] == first;
    var none: seq<(Language, real)> := [];
    assert first[..0] == none;
    var once := FromPairs(first);
    assert once == Put(FromPairs(none), l, a);
    assert FromPairs(pairs) == Put(once, l, b);
  }
}
