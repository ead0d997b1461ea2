// The autocomplete index: one "City, Country" display string per stored location.
module AutocompleteIndex {
  import opened Strings
  import opened LocationStore

  /** fmt.Sprintf("%s, %s", City, Country). */
  function Display(l: Location): (r: string)
    ensures ',' in r
  {
    assert (l.city + ", " + l.country)[|l.city|] == ',';
    l.city + ", " + l.country
  }

  /** For a city without a comma, the text before the option's first comma is the city. */
  lemma DisplayCityName(l: Location)
    requires ',' !in l.city
    ensures CityName(Display(l)) == l.city
  {
    assert Display(l) == l.city + [','] + (" " + l.country);
    CityNameOfJoin(l.city, " " + l.country);
  }

  /** The display strings of the store's records, in the order the iteration visited the keys. */
  function Displays(store: map<string, Location>, order: seq<string>): (r: seq<string>)
    requires KeysOf(order, store)
    ensures |r| == |order|
    ensures AllHaveComma(r)
  {
    seq(|order|, i requires 0 <= i < |order| => Display(store[order[i]]))
  }

  /**
   * buildAutoCompleteOptionsList: one option per map entry, in the (unspecified)
   * order of the `range`, which is returned as the ghost `order`.
   */
  method BuildAutoCompleteOptionsList(store: map<string, Location>) returns (options: seq<string>, ghost order: seq<string>)
    ensures Enumerates(order, store)
    ensures options == Displays(store, order)
    ensures |options| == |store|
    ensures forall k :: k in store ==> Display(store[k]) in options
  {
    options := [];
    order := [];
    var remaining := store.Keys;
    while remaining != {}
      invariant remaining <= store.Keys
      invariant KeysOf(order, store) && Distinct(order)
      invariant forall j :: 0 <= j < |order| ==> order[j] !in remaining
      invariant forall k :: k in store ==> k in remaining || k in order
      invariant options == Displays(store, order)
      decreases remaining
    {
      var key :| key in remaining;
      var location := store[key];
      options := options + [Display(location)];
      order := order + [key];
      remaining := remaining - {key};
    }
    EnumerationLength(order, store);
    forall k | k in store ensures Display(store[k]) in options {
      var i :| 0 <= i < |order| && order[i] == k;
      assert options[i] == Display(store[k]);
    }
  }

  /**
   * The index has exactly one option per stored location: as many options as
   * entries, and each key's record shows up at exactly one position.
   */
  lemma OptionsOnePerEntry(store: map<string, Location>, order: seq<string>, k: string)
    requires Enumerates(order, store)
    requires k in store
    ensures |Displays(store, order)| == |store|
    ensures exists i :: 0 <= i < |order| && order[i] == k && Displays(store, order)[i] == Display(store[k])
    ensures forall i, j :: 0 <= i < j < |order| && order[i] == k ==> order[j] != k
  {
    EnumerationLength(order, store);
    var i :| 0 <= i < |order| && order[i] == k;
    assert Displays(store, order)[i] == Display(store[k]);
  }
}
