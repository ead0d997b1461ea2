// The location store: the Location record, the row loop of loadData that fills
// the city-keyed map, and what an iteration over that map visits.
module LocationStore {

  /**
   * One city. The coordinates are carried as opaque numbers: whatever value the
   * float parser produced for the cell.
   */
  datatype Location = Location(city: string, country: string, longitude: real, latitude: real)

  /** The record a spreadsheet row [_, city, latitude, longitude, country, ...] becomes. */
  function RowLocation(row: seq<string>, parseFloat: string -> real): (l: Location)
    requires |row| >= 5
    ensures l.city == row[1] && l.country == row[4]
    ensures l.latitude == parseFloat(row[2]) && l.longitude == parseFloat(row[3])
  {
    Location(row[1], row[4], parseFloat(row[3]), parseFloat(row[2]))
  }

  /** Every record is stored under its own city name. */
  predicate WellKeyed(store: map<string, Location>)
  {
    forall k :: k in store ==> store[k].city == k
  }

  /** Row i is the last data row that names its city. */
  predicate LastRowFor(rows: seq<seq<string>>, i: nat)
    requires 1 <= i < |rows| && forall j :: 1 <= j < |rows| ==> |rows[j]| >= 5
  {
    forall j :: i < j < |rows| ==> rows[j][1] != rows[i][1]
  }

  /**
   * The row loop of loadData. Row 0 is the header and is skipped; each later row
   * writes its record under its city, so the last row naming a city wins. A failed
   * float parse is only logged, so the row is stored with whatever value
   * `parseFloat` gives for the cell. Reading row[1..4] of a shorter row panics,
   * hence the requirement on the data rows.
   */
  method LoadData(rows: seq<seq<string>>, parseFloat: string -> real) returns (store: map<string, Location>)
    requires forall i :: 1 <= i < |rows| ==> |rows[i]| >= 5
    ensures forall k :: k in store <==> exists i :: 1 <= i < |rows| && rows[i][1] == k
    ensures forall i :: 1 <= i < |rows| && LastRowFor(rows, i) ==>
              store[rows[i][1]] == RowLocation(rows[i], parseFloat)
    ensures WellKeyed(store)
  {
    store := map[];
    var i := 1;
    while i < |rows|
      invariant 1 <= i && (i <= |rows| || rows == [])
      invariant forall k :: k in store <==> exists j :: 1 <= j < i && j < |rows| && rows[j][1] == k
      invariant forall j :: 1 <= j < i && j < |rows| && (forall l :: j < l < i ==> rows[l][1] != rows[j][1]) ==>
                  store[rows[j][1]] == RowLocation(rows[j], parseFloat)
      invariant WellKeyed(store)
    {
      var row := rows[i];
      var city := row[1];
      var lat := parseFloat(row[2]);
      var lng := parseFloat(row[3]);
      var country := row[4];
      store := store[city := Location(city, country, lng, lat)];
      i := i + 1;
    }
  }

  /** Every element of `order` is a key of the store. */
  predicate KeysOf(order: seq<string>, store: map<string, Location>)
  {
    forall j :: 0 <= j < |order| ==> order[j] in store
  }

  /** No element occurs twice. */
  predicate Distinct<T(==)>(s: seq<T>)
  {
    forall i, j :: 0 <= i < j < |s| ==> s[i] != s[j]
  }

  /**
   * `order` is one possible visiting order of a `range` over the store: every key
   * exactly once. Go leaves the order unspecified, so the model quantifies over it.
   */
  predicate Enumerates(order: seq<string>, store: map<string, Location>)
  {
    KeysOf(order, store) && Distinct(order) && forall k :: k in store ==> k in order
  }

  /** Each of `orders` is an iteration of the store (one per `range` statement executed). */
  predicate EnumeratesEach(orders: seq<seq<string>>, store: map<string, Location>)
  {
    forall i :: 0 <= i < |orders| ==> Enumerates(orders[i], store)
  }

  /** A key-distinct sequence has as many elements as its set of elements. */
  lemma {:induction false} DistinctCardinality<T>(s: seq<T>)
    requires Distinct(s)
    ensures |set x | x in s| == |s|
  {
    if s != [] {
      var init := s[..|s| - 1];
      var last := s[|s| - 1];
      assert Distinct(init);
      DistinctCardinality(init);
      assert (set x | x in s) == (set x | x in init) + {last};
      assert last !in (set x | x in init);
    }
  }

  /** In a key-distinct sequence each element occurs once or not at all. */
  lemma {:induction false} DistinctCount<T>(s: seq<T>, x: T)
    requires Distinct(s)
    ensures multiset(s)[x] == if x in s then 1 else 0
  {
    if s != [] {
      var init := s[..|s| - 1];
      assert s == init + [s[|s| - 1]];
      assert Distinct(init);
      DistinctCount(init, x);
    }
  }

  /** An iteration visits as many keys as the store has. */
  lemma EnumerationLength(order: seq<string>, store: map<string, Location>)
    requires Enumerates(order, store)
    ensures |order| == |store|
  {
    DistinctCardinality(order);
    assert (set x | x in order) == store.Keys;
  }

  /** Two iterations of the same store visit the same keys, only in another order. */
  lemma EnumerationsPermute(o1: seq<string>, o2: seq<string>, store: map<string, Location>)
    requires Enumerates(o1, store) && Enumerates(o2, store)
    ensures multiset(o1) == multiset(o2)
  {
    forall x
      ensures multiset(o1)[x] == multiset(o2)[x]
    {
      DistinctCount(o1, x);
      DistinctCount(o2, x);
    }
  }
}
