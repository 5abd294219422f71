/**
  Two worked queries over a cities table and a countries table, stated on the
  specification functions: the mean temperature of the Italian cities, and the
  join of cities with countries on the country name.
 */
module Scenarios {
  import opened TableSpec

  /** The value of a string of decimal digits; the numeric reading that the
      aggregate in these queries applies to each temperature. Only plain decimal
      integers are read correctly: any other character counts as the digit 0, so
      "2.5" reads as 205. */
  function DigitsValue(s: string): real
  {
    if s == [] then 0.0
    else
      var d := s[|s| - 1];
      DigitsValue(s[..|s| - 1]) * 10.0 + (if '0' <= d <= '9' then (d as int - '0' as int) as real else 0.0)
  }

  function Sum(xs: seq<real>): real
  {
    if xs == [] then 0.0 else Sum(xs[..|xs| - 1]) + xs[|xs| - 1]
  }

  /** The arithmetic mean, as the reducer `sum(xs) / len(xs)`. */
  function Mean(xs: seq<real>): real
  {
    if xs == [] then 0.0 else Sum(xs) / (|xs| as real)
  }

  const Cities: seq<Record> := [
    map["city" := "Rome", "country" := "Italy", "temperature" := "25"],
    map["city" := "Turin", "country" := "Italy", "temperature" := "15"],
    map["city" := "Oslo", "country" := "Norway", "temperature" := "3"]
  ]

  const Countries: seq<Record> := [
    map["country" := "Italy", "EU" := "yes", "coastline" := "yes"]
  ]

  predicate InItaly(r: Record)
  {
    "country" in r && r["country"] == "Italy"
  }

  /** Filtering on country Italy keeps Rome and Turin, whose mean temperature is 20. */
  lemma ItalyMeanTemperature()
    ensures var italy := FilterRows(Cities, InItaly);
      (forall m :: 0 <= m < |italy| ==> "temperature" in italy[m]) &&
      Mean(Column(italy, "temperature", DigitsValue)) == 20.0
  {
    ItalianCities();
    var italy := Cities[..2];
    assert italy[0]["temperature"] == "25" && italy[1]["temperature"] == "15";
    TemperatureValues();
    var temps := Column(italy, "temperature", DigitsValue);
    assert temps == [25.0, 15.0];
    SumOfTwo(25.0, 15.0);
  }

  lemma SumOfTwo(x: real, y: real)
    ensures Sum([x, y]) == x + y
  {
    assert [x, y][..1] == [x] && [x][..0] == [];
    assert Sum([x]) == Sum([]) + x;
  }

  /** The Italian cities are the first two. */
  lemma ItalianCities()
    ensures FilterRows(Cities, InItaly) == Cities[..2]
  {
    assert Cities[..2][..1] == Cities[..1] && Cities[..1][..0] == [];
    assert FilterRows(Cities[..1], InItaly) == Cities[..1];
    assert FilterRows(Cities[..2], InItaly) == Cities[..2];
    assert Cities[..3] == Cities;
  }

  lemma TemperatureValues()
    ensures DigitsValue("25") == 25.0 && DigitsValue("15") == 15.0
  {
  }

  /** Joining on country gives one row per city whose country is listed, with the
      fields of both tables; Oslo, whose country is not listed, gives no row. */
  lemma CitiesJoinCountries()
    ensures JoinRows(Cities, Countries, "country") ==
      [Merge(Cities[0], Countries[0]), Merge(Cities[1], Countries[0])]
    ensures forall n :: 0 <= n < 2 ==>
      JoinRows(Cities, Countries, "country")[n].Keys ==
        {"city", "country", "temperature", "EU", "coastline"}
  {
    assert Cities == [Cities[0], Cities[1], Cities[2]] && Countries == [Countries[0]];
    assert Matches(Cities[0], Countries[0], "country") && Matches(Cities[1], Countries[0], "country");
    assert !Matches(Cities[2], Countries[0], "country");
    JoinOfThree(Cities[0], Cities[1], Cities[2], Countries[0], "country");
    MergedKeys(0);
    MergedKeys(1);
  }

  /** Three left rows against one right row that only the first two match. */
  lemma JoinOfThree(r0: Record, r1: Record, r2: Record, s: Record, key: string)
    requires Matches(r0, s, key) && Matches(r1, s, key) && !Matches(r2, s, key)
    ensures JoinRows([r0, r1, r2], [s], key) == [Merge(r0, s), Merge(r1, s)]
  {
    var rows := [r0, r1, r2];
    assert [s][..0] == [];
    assert rows[..2] == [r0, r1] && [r0, r1][..1] == [r0] && [r0][..0] == [];
    assert RowJoin(r0, [s], key) == [Merge(r0, s)];
    assert RowJoin(r1, [s], key) == [Merge(r1, s)];
    assert RowJoin(r2, [s], key) == [];
    assert JoinRows([r0], [s], key) == [Merge(r0, s)];
    assert JoinRows([r0, r1], [s], key) == [Merge(r0, s), Merge(r1, s)];
  }

  /** An Italian city merged with Italy has the five fields of both tables. */
  lemma MergedKeys(c: nat)
    requires c < 2
    ensures Merge(Cities[c], Countries[0]).Keys ==
      {"city", "country", "temperature", "EU", "coastline"}
  {
  }
}
