/** The rescaling of the overall dictionary so that its values are shares of
    100 (lines 151-155): the values are summed, then every value is
    replaced by `value / total * 100`. Nothing guards the division, so a
    non-empty dictionary whose values sum to zero ends the run with a
    division by zero; an empty dictionary performs no division at all. */
module Normalization {
  import opened Dicts
  import opened Catalog

  /** The sum of the values of `ks`, in order (a key without value counts zero). */
  function SumOver(ks: seq<Language>, e: map<Language, real>): real
    decreases |ks|
  {
    if ks == [] then 0.0
    else SumOver(ks[..|ks| - 1], e) + (if ks[|ks| - 1] in e then e[ks[|ks| - 1]] else 0.0)
  }

  /** `sum(overall.values())` */
  function Total(d: Stats): real {
    SumOver(d.keys, d.entries)
  }

  /** Every value of `d` replaced by `value / total * 100`, keys and order unchanged. */
  function Scaled(d: Stats, total: real): Stats
    requires total != 0.0
  {
    Dict(d.keys, map l | l in d.entries :: d.entries[l] / total * 100.0)
  }

  /** What the normalisation step ends with. */
  datatype Rescale = Rescaled(stats: Stats) | DivisionByZero

  /** The normalisation step: an empty dictionary is left alone, a dictionary
      with a zero total fails on its first division, any other is scaled. */
  function Normalized(d: Stats): Rescale {
    if d.keys == [] then Rescaled(d)
    else if Total(d) == 0.0 then DivisionByZero
    else Rescaled(Scaled(d, Total(d)))
  }

  /** Lines 151-153: the values summed in iteration order. */
  method SumValues(overall: Stats) returns (total: real)
    requires overall.Valid()
    ensures total == Total(overall)
  {
    var keys := overall.keys;
    total := 0.0;
    for i := 0 to |keys|
      invariant total == SumOver(keys[..i], overall.entries)
    {
      assert keys[..i + 1][..i] == keys[..i];
      total := total + overall.entries[keys[i]];
    }
    assert keys[..|keys|] == keys;
  }

  /** Lines 154-155, in place: every entry divided by `total` and multiplied
      by 100; the first division fails when `total` is zero. */
  method RescaleAll(overall: Stats, total: real) returns (r: Rescale)
    requires overall.Valid()
    ensures overall.keys == [] ==> r == Rescaled(overall)
    ensures overall.keys != [] && total == 0.0 ==> r == DivisionByZero
    ensures overall.keys != [] && total != 0.0 ==> r == Rescaled(Scaled(overall, total))
  {
    var keys := overall.keys;
    var d := overall;
    for i := 0 to |keys|
      invariant d.keys == keys && d.entries.Keys == overall.entries.Keys
      invariant i > 0 ==> total != 0.0
      invariant forall j | 0 <= j < |keys| ::
        d.entries[keys[j]] == if j < i then overall.entries[keys[j]] / total * 100.0 else overall.entries[keys[j]]
    {
      var language := keys[i];
      if total == 0.0 {
        return DivisionByZero;
      }
      d := Put(d, language, d.entries[language] / total * 100.0);
    }
    if keys != [] {
      forall l | l in overall.entries ensures d.entries[l] == Scaled(overall, total).entries[l] {
        var j :| 0 <= j < |keys| && keys[j] == l;
      }
      assert d.entries == Scaled(overall, total).entries;
    }
    r := Rescaled(d);
  }

  /** Lines 151-155: sum the values, then rewrite every entry. */
  method Normalize(overall: Stats) returns (r: Rescale)
    requires overall.Valid()
    ensures r == Normalized(overall)
    ensures r.DivisionByZero? <==> overall.keys != [] && Total(overall) == 0.0
    ensures r.Rescaled? ==> r.stats.keys == overall.keys && r.stats.entries.Keys == overall.entries.Keys
  {
    var total := SumValues(overall);
    r := RescaleAll(overall, total);
  }

  // ---------------------------------------------------------------------
  // What the rescaled dictionary satisfies

  /** Normalising keeps every key, in its place, so a well-formed dictionary stays well formed. */
  lemma NormalizedValid(d: Stats)
    requires d.Valid()
    ensures Normalized(d).Rescaled? ==>
      && Normalized(d).stats.Valid()
      && Normalized(d).stats.keys == d.keys
      && Normalized(d).stats.entries.Keys == d.entries.Keys
  {
  }

  /** Rescaling every value by `t` scales the sum the same way. */
  lemma {:induction false} SumOverScaled(ks: seq<Language>, e: map<Language, real>, e2: map<Language, real>, t: real)
    requires t != 0.0 && e2.Keys == e.Keys
    requires forall l | l in e :: e2[l] == e[l] / t * 100.0
    ensures SumOver(ks, e2) == SumOver(ks, e) / t * 100.0
    decreases |ks|
  {
    if ks != [] {
      SumOverScaled(ks[..|ks| - 1], e, e2, t);
    }
  }

  /** When the total is not zero, the rescaled values sum to exactly 100. */
  lemma NormalizedSumsTo100(d: Stats)
    requires Total(d) != 0.0
    ensures Normalized(d).Rescaled? && Total(Normalized(d).stats) == 100.0
  {
    assert d.keys != [];
    var t := Total(d);
    SumOverScaled(d.keys, d.entries, Scaled(d, t).entries, t);
    SelfShare(t);
  }

  /** The whole is 100 percent of itself. */
  lemma SelfShare(t: real)
    requires t != 0.0
    ensures t / t * 100.0 == 100.0
  {
  }

  /** `x / t * 100` keeps the order of values when `t` is positive. */
  lemma ScaleMonotone(x: real, y: real, t: real)
    requires t > 0.0
    ensures x <= y <==> x / t * 100.0 <= y / t * 100.0
    ensures x < y <==> x / t * 100.0 < y / t * 100.0
  {
    assert x / t * 100.0 == x * (100.0 / t);
    assert y / t * 100.0 == y * (100.0 / t);
    assert 100.0 / t > 0.0;
  }

  /** With a positive total, rescaling preserves the order between any two
      languages and the proportion of one to the other. */
  lemma NormalizedPreservesOrder(d: Stats, a: Language, b: Language)
    requires Total(d) > 0.0
    requires a in d.entries && b in d.entries
    ensures var n := Normalized(d).stats;
      && (d.entries[a] <= d.entries[b] <==> n.entries[a] <= n.entries[b])
      && (d.entries[a] < d.entries[b] <==> n.entries[a] < n.entries[b])
      && n.entries[a] * d.entries[b] == n.entries[b] * d.entries[a]
  {
    assert d.keys != [];
    var t := Total(d);
    ScaleMonotone(d.entries[a], d.entries[b], t);
    var c := 100.0 / t;
    assert d.entries[a] / t * 100.0 == d.entries[a] * c;
    assert d.entries[b] / t * 100.0 == d.entries[b] * c;
  }

  /** A value of non-negative entries is at most their sum. */
  lemma {:induction false} ValueAtMostSum(ks: seq<Language>, e: map<Language, real>, l: Language)
    requires forall k | k in e :: e[k] >= 0.0
    ensures SumOver(ks, e) >= 0.0
    ensures l in ks && l in e ==> e[l] <= SumOver(ks, e)
    decreases |ks|
  {
    if ks != [] {
      var init := ks[..|ks| - 1];
      ValueAtMostSum(init, e, l);
      if l in ks && l !in init {
        assert ks == init + [ks[|ks| - 1]];
      }
    }
  }

  /** A part of a positive whole is a share between 0 and 100 of it. */
  lemma ShareBounds(v: real, t: real)
    requires 0.0 <= v <= t && t > 0.0
    ensures 0.0 <= v / t * 100.0 <= 100.0
  {
    var q := v / t;
    assert q * t == v;
  }

  /** With non-negative percentages and a positive total, every rescaled
      value is a percentage between 0 and 100. */
  lemma NormalizedWithinBounds(d: Stats, l: Language)
    requires d.Valid() && Total(d) > 0.0
    requires forall k | k in d.entries :: d.entries[k] >= 0.0
    requires l in d.entries
    ensures 0.0 <= Normalized(d).stats.entries[l] <= 100.0
  {
    var t := Total(d);
    ValueAtMostSum(d.keys, d.entries, l);
    ShareBounds(d.entries[l], t);
  }

  /** With exact arithmetic a second normalisation is harmless: the
      rescaled values already sum to 100, so they are left as they are. */
  lemma NormalizeTwice(d: Stats)
    requires Total(d) != 0.0
    ensures Normalized(d).Rescaled?
    ensures Normalized(Normalized(d).stats) == Normalized(d)
  {
    NormalizedSumsTo100(d);
    assert d.keys != [];
    var n := Normalized(d).stats;
    assert Scaled(n, 100.0).entries == n.entries;
  }
}
