/** The stacked-area chart of section 2.1: the effect that fetches the
    multi-year records of the chosen location and collects their animal keys
    before drawing. */
module Section21 {
  import opened Common
  import opened Database
  import opened MultiYear

  /** The animal keys of the records, gathered by adding every key other
      than `year` of every record to a `Set` (kept here as its list of
      members in insertion order). */
  method AnimalKeys(data: seq<ChartData>) returns (animals: seq<string>)
    ensures animals == AnimalUnion(data)
  {
    animals := [];
    var i := 0;
    while i < |data|
      invariant 0 <= i <= |data|
      invariant animals == Dedup(AllAnimalKeys(data[..i]))
    {
      var keys := ObjectKeys(data[i]);
      var j := 0;
      assert AllAnimalKeys(data[..i]) + NonYear(keys[..0]) == AllAnimalKeys(data[..i]);
      while j < |keys|
        invariant 0 <= j <= |keys|
        invariant animals == Dedup(AllAnimalKeys(data[..i]) + NonYear(keys[..j]))
      {
        KeyStep(AllAnimalKeys(data[..i]), keys, j);
        if keys[j] != "year" {
          DedupSnoc(AllAnimalKeys(data[..i]) + NonYear(keys[..j]), keys[j]);
          if keys[j] !in animals {
            animals := animals + [keys[j]];
          }
        }
        j := j + 1;
      }
      assert keys[..j] == keys;
      RecordStep(data, i);
      i := i + 1;
    }
    assert data[..i] == data;
  }

  /** One more key of the current record. */
  lemma KeyStep(before: seq<string>, keys: seq<string>, j: nat)
    requires j < |keys|
    ensures keys[j] != "year" ==> before + NonYear(keys[..j + 1]) == (before + NonYear(keys[..j])) + [keys[j]]
    ensures keys[j] == "year" ==> before + NonYear(keys[..j + 1]) == before + NonYear(keys[..j])
  {
    TakeSnoc(keys, j);
    if keys[j] == "year" {
      assert NonYear(keys[..j + 1]) == NonYear(keys[..j]);
    }
  }

  /** One more record. */
  lemma RecordStep(data: seq<ChartData>, i: nat)
    requires i < |data|
    ensures AllAnimalKeys(data[..i + 1]) == AllAnimalKeys(data[..i]) + NonYear(ObjectKeys(data[i]))
  {
    TakeSnoc(data, i);
  }

  /** The effect: nothing is drawn when no location is chosen or the
      location has no rows; otherwise the chart gets the location's records
      and their animal keys. */
  method Effect(store: Store, year: string, location: string) returns (r: Option<Render>)
    ensures r.None? <==> location == "" || forall x :: x in store.GetRawData() ==> x.geographyName != location
    ensures r.Some? ==> r.value.data == MultiYearData(store.GetRawData(), location)
    ensures r.Some? ==> r.value.animals == AnimalUnion(r.value.data) && r.value.selectedYear == year
  {
    if location == "" {
      return None;
    }
    var data := GetMultiYearData(store, location);
    MultiYearDataEmpty(store.GetRawData(), location);
    if |data| == 0 {
      return None;
    }
    var animals := AnimalKeys(data);
    return Some(Render(data, animals, year));
  }
}
