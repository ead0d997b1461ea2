// The query path of the /api/locations/auto handler: prefix filtering of the
// index (filterOptions) and resolving each surviving option back to the stored
// records (buildFilteredLocationsList).
module QueryService {
  import opened Strings
  import opened LocationStore
  import opened AutocompleteIndex

  // ---------------------------------------------------------------- filterOptions

  /** The options, lowercased, that start with the lowercased term, in input order. */
  function Filtered(options: seq<string>, term: string): (r: seq<string>)
    ensures |r| <= |options|
    ensures forall j :: 0 <= j < |r| ==> HasPrefix(r[j], Lower(term))
  {
    if options == [] then []
    else
      var option := Lower(options[0]);
      (if HasPrefix(option, Lower(term)) then [option] else []) + Filtered(options[1..], term)
  }

  /** filterOptions: one pass over the options, appending each lowercased match. */
  method FilterOptions(options: seq<string>, term: string) returns (filteredOptions: seq<string>)
    ensures filteredOptions == Filtered(options, term)
  {
    filteredOptions := [];
    var lowerTerm := Lower(term);
    var i := 0;
    while i < |options|
      invariant 0 <= i <= |options|
      invariant filteredOptions + Filtered(options[i..], term) == Filtered(options, term)
    {
      var option := Lower(options[i]);
      assert options[i..][1..] == options[i + 1..];
      if HasPrefix(option, lowerTerm) {
        filteredOptions := filteredOptions + [option];
      }
      i := i + 1;
    }
    assert options[|options|..] == [];
  }

  /** A string is kept exactly when it is the lowercase of some option and starts with the lowercased term. */
  lemma {:induction false} FilteredMembership(options: seq<string>, term: string, s: string)
    ensures s in Filtered(options, term) <==>
            exists i :: 0 <= i < |options| && s == Lower(options[i]) && HasPrefix(s, Lower(term))
  {
    if options != [] {
      FilteredMembership(options[1..], term, s);
      if s in Filtered(options[1..], term) {
        var i :| 0 <= i < |options[1..]| && s == Lower(options[1..][i]) && HasPrefix(s, Lower(term));
        assert s == Lower(options[i + 1]);
      }
      if exists i :: 0 <= i < |options| && s == Lower(options[i]) && HasPrefix(s, Lower(term)) {
        var i :| 0 <= i < |options| && s == Lower(options[i]) && HasPrefix(s, Lower(term));
        if i > 0 {
          assert options[1..][i - 1] == options[i];
        }
      }
    }
  }

  /** Every kept string is already in lower case. */
  lemma {:induction false} FilteredIsLowercase(options: seq<string>, term: string)
    ensures forall j :: 0 <= j < |Filtered(options, term)| ==> Lower(Filtered(options, term)[j]) == Filtered(options, term)[j]
  {
    if options != [] {
      FilteredIsLowercase(options[1..], term);
      LowerIdempotent(options[0]);
    }
  }

  /** The lowercase of each option, in order. */
  function LowerAll(options: seq<string>): (r: seq<string>)
    ensures |r| == |options|
  {
    seq(|options|, i requires 0 <= i < |options| => Lower(options[i]))
  }

  /** `a` is `b` with some elements dropped and the rest kept in order. */
  predicate IsSubsequence<T(==)>(a: seq<T>, b: seq<T>)
  {
    if a == [] then true
    else if b == [] then false
    else if a[0] == b[0] then IsSubsequence(a[1..], b[1..])
    else IsSubsequence(a, b[1..])
  }

  /** filterOptions keeps the order of the options: its result is a subsequence of the lowercased options. */
  lemma {:induction false} FilteredIsSubsequence(options: seq<string>, term: string)
    ensures IsSubsequence(Filtered(options, term), LowerAll(options))
  {
    if options != [] {
      FilteredIsSubsequence(options[1..], term);
      assert LowerAll(options) == [Lower(options[0])] + LowerAll(options[1..]);
      var rest := Filtered(options[1..], term);
      var x := Lower(options[0]);
      if HasPrefix(x, Lower(term)) {
        assert Filtered(options, term) == [x] + rest;
        assert ([x] + rest)[1..] == rest;
      } else {
        assert Filtered(options, term) == rest;
        SubsequenceOfLonger(rest, LowerAll(options[1..]), x);
      }
    }
  }

  /** Prepending to the longer sequence keeps a subsequence a subsequence. */
  lemma {:induction false} SubsequenceOfLonger<T>(a: seq<T>, b: seq<T>, x: T)
    requires IsSubsequence(a, b)
    ensures IsSubsequence(a, [x] + b)
    decreases |b|, 1
  {
    if a != [] && a[0] == x {
      assert ([x] + b)[1..] == b;
      SubsequenceDropFirst(a, b);
    } else if a != [] {
      assert ([x] + b)[1..] == b;
    }
  }

  /** Dropping the first element of a subsequence keeps it a subsequence. */
  lemma {:induction false} SubsequenceDropFirst<T>(a: seq<T>, b: seq<T>)
    requires a != [] && IsSubsequence(a, b)
    ensures IsSubsequence(a[1..], b)
    decreases |b|, 0
  {
    assert b != [];
    if a[0] == b[0] {
      if a[1..] != [] {
        SubsequenceOfLonger(a[1..], b[1..], b[0]);
        assert [b[0]] + b[1..] == b;
      }
    } else {
      SubsequenceDropFirst(a, b[1..]);
      if a[1..] != [] {
        SubsequenceOfLonger(a[1..], b[1..], b[0]);
        assert [b[0]] + b[1..] == b;
      }
    }
  }

  /** With an empty term every option is kept, lowercased, in the same order. */
  lemma {:induction false} FilteredEmptyTerm(options: seq<string>)
    ensures Filtered(options, "") == LowerAll(options)
  {
    if options != [] {
      FilteredEmptyTerm(options[1..]);
      assert LowerAll(options) == [Lower(options[0])] + LowerAll(options[1..]);
    }
  }

  /** Lowercasing keeps the comma of every option, so filtering keeps the index free of comma-less options. */
  lemma {:induction false} FilteredKeepsCommas(options: seq<string>, term: string)
    requires AllHaveComma(options)
    ensures AllHaveComma(Filtered(options, term))
  {
    if options != [] {
      LowerCityName(options[0]);
      assert AllHaveComma(options[1..]) by {
        forall i | 0 <= i < |options[1..]| ensures ',' in options[1..][i] {
          assert options[1..][i] == options[i + 1];
        }
      }
      FilteredKeepsCommas(options[1..], term);
    }
  }

  /** Filtering works option by option: filtering a concatenation concatenates the results. */
  lemma {:induction false} FilteredAppend(a: seq<string>, b: seq<string>, term: string)
    ensures Filtered(a + b, term) == Filtered(a, term) + Filtered(b, term)
  {
    if a == [] {
      assert a + b == b;
    } else {
      assert (a + b)[0] == a[0] && (a + b)[1..] == a[1..] + b;
      FilteredAppend(a[1..], b, term);
    }
  }

  /**
   * Each lowercased option that starts with the lowercased term is kept as many
   * times as it occurs; every other string not at all.
   */
  lemma {:induction false} FilteredCount(options: seq<string>, term: string, s: string)
    ensures multiset(Filtered(options, term))[s] ==
            if HasPrefix(s, Lower(term)) then multiset(LowerAll(options))[s] else 0
  {
    if options != [] {
      FilteredCount(options[1..], term, s);
      assert LowerAll(options) == [Lower(options[0])] + LowerAll(options[1..]);
    }
  }

  /** Two options that both pass the filter come out at two positions, in their input order. */
  lemma FilteredKeepsBoth(options: seq<string>, term: string, p1: nat, p2: nat) returns (j1: nat, j2: nat)
    requires p1 < p2 < |options|
    requires HasPrefix(Lower(options[p1]), Lower(term)) && HasPrefix(Lower(options[p2]), Lower(term))
    ensures j1 < j2 < |Filtered(options, term)|
    ensures Filtered(options, term)[j1] == Lower(options[p1])
    ensures Filtered(options, term)[j2] == Lower(options[p2])
  {
    var front, back := options[..p2], options[p2..];
    assert options == front + back;
    FilteredAppend(front, back, term);
    assert front[p1] == options[p1];
    FilteredMembership(front, term, Lower(options[p1]));
    var f := Filtered(front, term);
    j1 :| 0 <= j1 < |f| && f[j1] == Lower(options[p1]);
    assert back[0] == options[p2];
    j2 := |f|;
  }

  // --------------------------------------------------- buildFilteredLocationsList

  /** The city segment, option[:strings.Index(option, ",")], of every option. */
  function CityNames(options: seq<string>): (names: seq<string>)
    requires AllHaveComma(options)
    ensures |names| == |options|
  {
    seq(|options|, i requires 0 <= i < |options| => CityName(options[i]))
  }

  /** Every record of the list is one of the store's records. */
  predicate AllStored(r: seq<Location>, store: map<string, Location>)
  {
    forall i :: 0 <= i < |r| ==> r[i] in store.Values
  }

  /**
   * The records of one iteration over the store whose key matches `name`
   * case-insensitively. (An iteration only visits keys of the store; the
   * membership test keeps the function total on any sequence of names.)
   */
  function MatchesIn(store: map<string, Location>, name: string, order: seq<string>): (r: seq<Location>)
    ensures |r| <= |order|
    ensures AllStored(r, store)
  {
    if order == [] then []
    else
      var key := order[|order| - 1];
      MatchesIn(store, name, order[..|order| - 1]) +
      (if key in store && Lower(key) == Lower(name) then [store[key]] else [])
  }

  /** The matches of each city name, each with its own iteration `orders[i]`, concatenated in name order. */
  function Resolved(names: seq<string>, store: map<string, Location>, orders: seq<seq<string>>): (r: seq<Location>)
    requires |orders| == |names|
    ensures AllStored(r, store)
  {
    if names == [] then []
    else
      var n := |names| - 1;
      Resolved(names[..n], store, orders[..n]) + MatchesIn(store, names[n], orders[n])
  }

  /**
   * The inner loop of buildFilteredLocationsList: one `range` over the store that
   * appends to `acc` every record whose key lowercases to the lowercased city
   * name. The visiting order is the ghost `order`.
   */
  method AppendMatches(acc: seq<Location>, store: map<string, Location>, cityName: string)
      returns (extended: seq<Location>, ghost order: seq<string>)
    ensures Enumerates(order, store)
    ensures extended == acc + MatchesIn(store, cityName, order)
    ensures acc <= extended
    ensures forall k :: k in store && Lower(k) == Lower(cityName) ==> store[k] in extended[|acc|..]
  {
    extended := acc;
    order := [];
    var remaining := store.Keys;
    while remaining != {}
      invariant remaining <= store.Keys
      invariant KeysOf(order, store) && Distinct(order)
      invariant forall j :: 0 <= j < |order| ==> order[j] !in remaining
      invariant forall k :: k in store ==> k in remaining || k in order
      invariant extended == acc + MatchesIn(store, cityName, order)
      decreases remaining
    {
      var key :| key in remaining;
      assert (order + [key])[..|order|] == order;
      if Lower(key) == Lower(cityName) {
        extended := extended + [store[key]];
      }
      order := order + [key];
      remaining := remaining - {key};
    }
    assert extended[|acc|..] == MatchesIn(store, cityName, order);
    forall k | k in store && Lower(k) == Lower(cityName)
      ensures store[k] in extended[|acc|..]
    {
      MatchesComplete(store, cityName, order, k);
    }
  }

  /**
   * buildFilteredLocationsList: for every option, take the text before its first
   * comma and append every record whose key lowercases to the same text, in the
   * order of that option's own `range` over the store. An option without a comma
   * would make the slice panic.
   */
  method BuildFilteredLocationsList(options: seq<string>, store: map<string, Location>)
      returns (filteredLocations: seq<Location>, ghost orders: seq<seq<string>>)
    requires AllHaveComma(options)
    ensures |orders| == |options|
    ensures EnumeratesEach(orders, store)
    ensures filteredLocations == Resolved(CityNames(options), store, orders)
    ensures options == [] ==> filteredLocations == []
  {
    filteredLocations := [];
    orders := [];
    ghost var names: seq<string> := [];
    var n := 0;
    while n < |options|
      invariant 0 <= n <= |options|
      invariant |orders| == n && names == CityNames(options)[..n]
      invariant EnumeratesEach(orders, store)
      invariant filteredLocations == Resolved(names, store, orders)
    {
      var option := options[n];
      var cityName := CityName(option);
      ghost var order;
      filteredLocations, order := AppendMatches(filteredLocations, store, cityName);
      ResolvedStep(options, n, names, store, orders, order);
      names := names + [cityName];
      orders := orders + [order];
      n := n + 1;
    }
    assert CityNames(options)[..|options|] == CityNames(options);
  }

  /** One step of buildFilteredLocationsList's outer loop: the next option's city segment and iteration extend the resolution. */
  lemma ResolvedStep(options: seq<string>, n: nat, names: seq<string>, store: map<string, Location>, orders: seq<seq<string>>, order: seq<string>)
    requires AllHaveComma(options) && n < |options|
    requires |orders| == n && names == CityNames(options)[..n]
    requires EnumeratesEach(orders, store) && Enumerates(order, store)
    ensures CityNames(options)[..n + 1] == names + [CityName(options[n])]
    ensures EnumeratesEach(orders + [order], store)
    ensures Resolved(names + [CityName(options[n])], store, orders + [order]) ==
            Resolved(names, store, orders) + MatchesIn(store, CityName(options[n]), order)
  {
    ResolvedSnoc(names, store, orders, CityName(options[n]), order);
    assert CityNames(options)[..n + 1] == CityNames(options)[..n] + [CityNames(options)[n]];
    forall i | 0 <= i < n + 1
      ensures Enumerates((orders + [order])[i], store)
    {
      if i < n {
        assert (orders + [order])[i] == orders[i];
      }
    }
  }

  /** Resolving one more name appends exactly that name's matches: the output is grouped in option order. */
  lemma ResolvedSnoc(names: seq<string>, store: map<string, Location>, orders: seq<seq<string>>, name: string, order: seq<string>)
    requires |orders| == |names|
    ensures Resolved(names + [name], store, orders + [order]) ==
            Resolved(names, store, orders) + MatchesIn(store, name, order)
  {
  }

  /** Resolution works name by name: resolving a concatenation concatenates the results. */
  lemma {:induction false} ResolvedAppend(n1: seq<string>, n2: seq<string>, store: map<string, Location>, r1: seq<seq<string>>, r2: seq<seq<string>>)
    requires |r1| == |n1| && |r2| == |n2|
    ensures Resolved(n1 + n2, store, r1 + r2) == Resolved(n1, store, r1) + Resolved(n2, store, r2)
    decreases |n2|
  {
    if n2 == [] {
      assert n1 + n2 == n1 && r1 + r2 == r1;
    } else {
      var n := |n2| - 1;
      var init, rInit := n2[..n], r2[..n];
      var m := MatchesIn(store, n2[n], r2[n]);
      assert n2 == init + [n2[n]] && r2 == rInit + [r2[n]];
      assert n1 + n2 == (n1 + init) + [n2[n]] && r1 + r2 == (r1 + rInit) + [r2[n]];
      calc {
        Resolved(n1 + n2, store, r1 + r2);
        { ResolvedSnoc(n1 + init, store, r1 + rInit, n2[n], r2[n]); }
        Resolved(n1 + init, store, r1 + rInit) + m;
        { ResolvedAppend(n1, init, store, r1, rInit); }
        (Resolved(n1, store, r1) + Resolved(init, store, rInit)) + m;
        Resolved(n1, store, r1) + (Resolved(init, store, rInit) + m);
        { ResolvedSnoc(init, store, rInit, n2[n], r2[n]); }
        Resolved(n1, store, r1) + Resolved(n2, store, r2);
      }
    }
  }

  /** Every record of the matches is stored under a key of the iteration that equals the name, ignoring case. */
  lemma {:induction false} MatchesSound(store: map<string, Location>, name: string, order: seq<string>, l: Location)
    requires l in MatchesIn(store, name, order)
    ensures exists i :: 0 <= i < |order| && order[i] in store && l == store[order[i]] && Lower(order[i]) == Lower(name)
  {
    var n := |order| - 1;
    var init := order[..n];
    if l in MatchesIn(store, name, init) {
      MatchesSound(store, name, init, l);
      var i :| 0 <= i < |init| && init[i] in store && l == store[init[i]] && Lower(init[i]) == Lower(name);
      assert init[i] == order[i];
    } else {
      assert order[n] in store && l == store[order[n]] && Lower(order[n]) == Lower(name);
    }
  }

  /** A key in the iteration that matches the name contributes its record. */
  lemma {:induction false} MatchesComplete(store: map<string, Location>, name: string, order: seq<string>, k: string)
    requires k in order && k in store && Lower(k) == Lower(name)
    ensures store[k] in MatchesIn(store, name, order)
  {
    var init := order[..|order| - 1];
    if order[|order| - 1] != k {
      assert k in init by {
        var p :| 0 <= p < |order| && order[p] == k;
        assert init[p] == k;
      }
      MatchesComplete(store, name, init, k);
    }
  }

  /** Every resolved record is stored under a key equal, ignoring case, to one of the names. */
  lemma {:induction false} ResolvedSound(names: seq<string>, store: map<string, Location>, orders: seq<seq<string>>, l: Location)
    requires |orders| == |names|
    requires l in Resolved(names, store, orders)
    ensures exists i, k :: 0 <= i < |names| && k in store && store[k] == l && Lower(k) == Lower(names[i])
  {
    var n := |names| - 1;
    if l in Resolved(names[..n], store, orders[..n]) {
      ResolvedSound(names[..n], store, orders[..n], l);
      var i, k :| 0 <= i < n && k in store && store[k] == l && Lower(k) == Lower(names[..n][i]);
      assert names[..n][i] == names[i];
    } else {
      MatchesSound(store, names[n], orders[n], l);
      var p :| 0 <= p < |orders[n]| && orders[n][p] in store && l == store[orders[n][p]] &&
               Lower(orders[n][p]) == Lower(names[n]);
    }
  }

  /** Each name contributes ALL stored records whose key matches it, whatever the iteration order. */
  lemma {:induction false} ResolvedComplete(names: seq<string>, store: map<string, Location>, orders: seq<seq<string>>, i: nat, k: string)
    requires |orders| == |names|
    requires i < |names| && Enumerates(orders[i], store)
    requires k in store && Lower(k) == Lower(names[i])
    ensures store[k] in Resolved(names, store, orders)
  {
    var n := |names| - 1;
    if i == n {
      MatchesComplete(store, names[n], orders[n], k);
    } else {
      assert names[..n][i] == names[i] && orders[..n][i] == orders[i];
      ResolvedComplete(names[..n], store, orders[..n], i, k);
    }
  }

  /** Matching over a concatenated iteration is the concatenation of the matches. */
  lemma {:induction false} MatchesAppend(store: map<string, Location>, name: string, a: seq<string>, b: seq<string>)
    ensures MatchesIn(store, name, a + b) == MatchesIn(store, name, a) + MatchesIn(store, name, b)
    decreases |b|
  {
    if b == [] {
      assert a + b == a;
    } else {
      var init := b[..|b| - 1];
      MatchesAppend(store, name, a, init);
      assert (a + b)[..|a + b| - 1] == a + init;
    }
  }

  /** Removing the element at position p from an iteration removes exactly its contribution. */
  lemma MatchesSplitAt(store: map<string, Location>, name: string, o: seq<string>, p: nat)
    requires p < |o|
    ensures MatchesIn(store, name, o) ==
            MatchesIn(store, name, o[..p]) + MatchesIn(store, name, [o[p]]) + MatchesIn(store, name, o[p + 1..])
    ensures MatchesIn(store, name, o[..p] + o[p + 1..]) ==
            MatchesIn(store, name, o[..p]) + MatchesIn(store, name, o[p + 1..])
  {
    var before, after := o[..p], o[p + 1..];
    assert o == (before + [o[p]]) + after;
    MatchesAppend(store, name, before, [o[p]]);
    MatchesAppend(store, name, before + [o[p]], after);
    MatchesAppend(store, name, before, after);
  }

  /** Where the last element of `o1` sits in its permutation `o2`. */
  lemma PositionOf(o1: seq<string>, o2: seq<string>) returns (p: nat)
    requires multiset(o1) == multiset(o2) && o1 != []
    ensures p < |o2| && o2[p] == o1[|o1| - 1]
  {
    assert o1[|o1| - 1] in multiset(o2);
    p :| 0 <= p < |o2| && o2[p] == o1[|o1| - 1];
  }

  /** Taking the same element out of two permutations of each other leaves permutations. */
  lemma RemoveMatching(o1: seq<string>, o2: seq<string>, p: nat)
    requires multiset(o1) == multiset(o2)
    requires o1 != [] && p < |o2| && o2[p] == o1[|o1| - 1]
    ensures multiset(o1[..|o1| - 1]) == multiset(o2[..p] + o2[p + 1..])
  {
    var x := o2[p];
    assert o1 == o1[..|o1| - 1] + [x];
    assert o2 == o2[..p] + [x] + o2[p + 1..];
    assert multiset(o1[..|o1| - 1]) == multiset(o1) - multiset{x};
    assert multiset(o2[..p] + o2[p + 1..]) == multiset(o2) - multiset{x};
  }

  /** Putting the same piece back in between keeps two permutations permutations. */
  lemma SpliceMultiset<T>(s: seq<T>, t: seq<T>, before: seq<T>, single: seq<T>, after: seq<T>)
    requires t == before + after && multiset(s) == multiset(t)
    ensures multiset(s + single) == multiset(before + single + after)
  {
  }

  /** The matches of a name do not depend on the iteration order, up to reordering. */
  lemma {:induction false} MatchesPermutation(store: map<string, Location>, name: string, o1: seq<string>, o2: seq<string>)
    requires multiset(o1) == multiset(o2)
    ensures multiset(MatchesIn(store, name, o1)) == multiset(MatchesIn(store, name, o2))
    decreases |o1|
  {
    if o1 == [] {
      assert |o2| == |multiset(o2)| == 0;
    } else {
      var n := |o1| - 1;
      var init, x := o1[..n], o1[n];
      var p := PositionOf(o1, o2);
      var rest := o2[..p] + o2[p + 1..];
      RemoveMatching(o1, o2, p);
      MatchesPermutation(store, name, init, rest);
      MatchesSplitAt(store, name, o2, p);
      var before, single, after := MatchesIn(store, name, o2[..p]), MatchesIn(store, name, [x]), MatchesIn(store, name, o2[p + 1..]);
      assert MatchesIn(store, name, o1) == MatchesIn(store, name, init) + single by {
        assert [x][..0] == [];
      }
      SpliceMultiset(MatchesIn(store, name, init), MatchesIn(store, name, rest), before, single, after);
    }
  }

  /**
   * Go's map order changes only the order of the response: two runs of
   * buildFilteredLocationsList on the same options and store return the same
   * records the same number of times.
   */
  lemma {:induction false} ResolvedOrderIndependent(names: seq<string>, store: map<string, Location>, orders1: seq<seq<string>>, orders2: seq<seq<string>>)
    requires |orders1| == |names| && EnumeratesEach(orders1, store)
    requires |orders2| == |names| && EnumeratesEach(orders2, store)
    ensures multiset(Resolved(names, store, orders1)) == multiset(Resolved(names, store, orders2))
  {
    if names != [] {
      var n := |names| - 1;
      assert EnumeratesEach(orders1[..n], store) by {
        forall i | 0 <= i < n ensures Enumerates(orders1[..n][i], store) { assert orders1[..n][i] == orders1[i]; }
      }
      assert EnumeratesEach(orders2[..n], store) by {
        forall i | 0 <= i < n ensures Enumerates(orders2[..n][i], store) { assert orders2[..n][i] == orders2[i]; }
      }
      assert Enumerates(orders1[n], store) && Enumerates(orders2[n], store);
      ResolvedOrderIndependent(names[..n], store, orders1[..n], orders2[..n]);
      EnumerationsPermute(orders1[n], orders2[n], store);
      MatchesPermutation(store, names[n], orders1[n], orders2[n]);
    }
  }

  /**
   * Two keys that differ only in case both answer the same city segment, so a
   * single option resolves to both records.
   */
  lemma CaseVariantsBothResolve(store: map<string, Location>, name: string, order: seq<string>, k1: string, k2: string)
    requires Enumerates(order, store)
    requires k1 in store && k2 in store && Lower(k1) == Lower(name) && Lower(k2) == Lower(name)
    ensures store[k1] in MatchesIn(store, name, order) && store[k2] in MatchesIn(store, name, order)
  {
    MatchesComplete(store, name, order, k1);
    MatchesComplete(store, name, order, k2);
  }

  /** A record whose key matches the city segments of two options comes back at least twice. */
  lemma ResolvedTwice(names: seq<string>, store: map<string, Location>, orders: seq<seq<string>>, j1: nat, j2: nat, k: string)
    requires |orders| == |names| && j1 < j2 < |names|
    requires Enumerates(orders[j1], store) && Enumerates(orders[j2], store)
    requires k in store && Lower(k) == Lower(names[j1]) && Lower(k) == Lower(names[j2])
    ensures multiset(Resolved(names, store, orders))[store[k]] >= 2
  {
    var front, back := names[..j2], names[j2..];
    var oFront, oBack := orders[..j2], orders[j2..];
    assert store[k] in Resolved(front, store, oFront) by {
      assert front[j1] == names[j1] && oFront[j1] == orders[j1];
      ResolvedComplete(front, store, oFront, j1, k);
    }
    assert store[k] in Resolved(back, store, oBack) by {
      assert back[0] == names[j2] && oBack[0] == orders[j2];
      ResolvedComplete(back, store, oBack, 0, k);
    }
    assert Resolved(names, store, orders) == Resolved(front, store, oFront) + Resolved(back, store, oBack) by {
      assert names == front + back && orders == oFront + oBack;
      ResolvedAppend(front, back, store, oFront, oBack);
    }
    CountInBoth(Resolved(front, store, oFront), Resolved(back, store, oBack), store[k]);
  }

  /** An element of both parts of a concatenation occurs in it at least twice. */
  lemma CountInBoth<T>(a: seq<T>, b: seq<T>, x: T)
    requires x in a && x in b
    ensures multiset(a + b)[x] >= 2
  {
    assert multiset(a + b) == multiset(a) + multiset(b);
  }

  /**
   * Keys that differ only in case produce duplicate results: each of the two
   * records has its own option, both options survive a term that prefixes them,
   * and each option's city segment matches both keys, so each record comes back
   * at least twice.
   */
  lemma CaseVariantsDuplicate(store: map<string, Location>, order: seq<string>, term: string, orders: seq<seq<string>>, k1: string, k2: string)
    requires WellKeyed(store) && Enumerates(order, store)
    requires k1 in store && k2 in store && k1 != k2 && Lower(k1) == Lower(k2)
    requires ',' !in k1 && ',' !in k2
    requires HasPrefix(Lower(Display(store[k1])), Lower(term))
    requires HasPrefix(Lower(Display(store[k2])), Lower(term))
    requires |orders| == |Filtered(Displays(store, order), term)|
    requires EnumeratesEach(orders, store)
    ensures AllHaveComma(Filtered(Displays(store, order), term))
    ensures multiset(Resolved(CityNames(Filtered(Displays(store, order), term)), store, orders))[store[k1]] >= 2
    ensures multiset(Resolved(CityNames(Filtered(Displays(store, order), term)), store, orders))[store[k2]] >= 2
  {
    var options := Displays(store, order);
    var filtered := Filtered(options, term);
    FilteredKeepsCommas(options, term);
    var p1 :| 0 <= p1 < |order| && order[p1] == k1;
    var p2 :| 0 <= p2 < |order| && order[p2] == k2;
    var lo, hi := p1, p2;
    if p2 < p1 {
      lo, hi := p2, p1;
    }
    var kLo, kHi := order[lo], order[hi];
    assert options[lo] == Display(store[kLo]) && options[hi] == Display(store[kHi]);
    var j1, j2 := FilteredKeepsBoth(options, term, lo, hi);
    var names := CityNames(filtered);
    OptionSegment(store, kLo);
    OptionSegment(store, kHi);
    assert Lower(names[j1]) == Lower(k1) && Lower(names[j2]) == Lower(k1);
    ResolvedTwice(names, store, orders, j1, j2, k1);
    ResolvedTwice(names, store, orders, j1, j2, k2);
  }

  /** The store {"Paris", "paris"} with the empty term meets every hypothesis of CaseVariantsDuplicate. */
  lemma CaseVariantsExample(store: map<string, Location>, order: seq<string>, orders: seq<seq<string>>)
    requires store == map["Paris" := Location("Paris", "France", 0.0, 0.0), "paris" := Location("paris", "France", 0.0, 0.0)]
    requires order == ["Paris", "paris"] && orders == [order, order]
    ensures WellKeyed(store) && Enumerates(order, store)
    ensures "Paris" != "paris" && Lower("Paris") == Lower("paris") && ',' !in "Paris" && ',' !in "paris"
    ensures HasPrefix(Lower(Display(store["Paris"])), Lower("")) && HasPrefix(Lower(Display(store["paris"])), Lower(""))
    ensures |orders| == |Filtered(Displays(store, order), "")| && EnumeratesEach(orders, store)
  {
    assert Lower("Paris") == "paris" && Lower("paris") == "paris";
    FilteredEmptyTerm(Displays(store, order));
  }

  /** The city segment of a comma-free city's lowercased option names the city, ignoring case. */
  lemma OptionSegment(store: map<string, Location>, k: string)
    requires WellKeyed(store) && k in store && ',' !in k
    ensures ',' in Lower(Display(store[k]))
    ensures CityName(Lower(Display(store[k]))) == Lower(k)
    ensures Lower(CityName(Lower(Display(store[k])))) == Lower(k)
  {
    DisplayCityName(store[k]);
    LowerCityName(Display(store[k]));
    LowerIdempotent(k);
  }

  // ------------------------------------------------------------------ round trip

  /**
   * Any stored city without a comma in its name is found again: for every term
   * whose lowercase starts its "City, Country" option (in particular that option
   * itself, in any case, and the empty term), filtering the index and resolving
   * the survivors returns the stored record.
   */
  lemma RoundTrip(store: map<string, Location>, order: seq<string>, term: string, orders: seq<seq<string>>, k: string)
    requires WellKeyed(store) && Enumerates(order, store)
    requires k in store && ',' !in k
    requires HasPrefix(Lower(Display(store[k])), Lower(term))
    requires |orders| == |Filtered(Displays(store, order), term)|
    requires EnumeratesEach(orders, store)
    ensures AllHaveComma(Filtered(Displays(store, order), term))
    ensures store[k] in Resolved(CityNames(Filtered(Displays(store, order), term)), store, orders)
  {
    var options := Displays(store, order);
    var filtered := Filtered(options, term);
    FilteredKeepsCommas(options, term);
    var p :| 0 <= p < |order| && order[p] == k;
    var option := Lower(Display(store[k]));
    assert options[p] == Display(store[k]);
    FilteredMembership(options, term, option);
    var j :| 0 <= j < |filtered| && filtered[j] == option;
    OptionSegment(store, k);
    assert CityNames(filtered)[j] == Lower(k);
    ResolvedComplete(CityNames(filtered), store, orders, j, k);
  }

  /**
   * A city whose name holds a comma is not found again: the option "A,B, C" is cut
   * at its first comma to "a", which is not the lowercase of the key "A,B", so
   * even the empty term, which keeps every option, resolves to nothing.
   */
  lemma CommaInCityBreaksRoundTrip(store: map<string, Location>, order: seq<string>)
    requires store == map["A,B" := Location("A,B", "C", 0.0, 0.0)] && order == ["A,B"]
    ensures WellKeyed(store) && Enumerates(order, store)
    ensures Filtered(Displays(store, order), "") == ["a,b, c"]
    ensures CityNames(["a,b, c"]) == ["a"]
    ensures Resolved(["a"], store, [order]) == []
  {
    CommaInCityOption(store, order);
    CommaInCityLookup(store, order);
  }

  /** The index of the one-city store, filtered by the empty term. */
  lemma CommaInCityOption(store: map<string, Location>, order: seq<string>)
    requires store == map["A,B" := Location("A,B", "C", 0.0, 0.0)] && order == ["A,B"]
    ensures KeysOf(order, store)
    ensures Filtered(Displays(store, order), "") == ["a,b, c"]
  {
    assert Display(store["A,B"]) == "A,B, C";
    assert Displays(store, order) == ["A,B, C"];
    assert Lower("A,B, C") == "a,b, c";
  }

  /** Resolving the city segment of the one-city store's option finds nothing. */
  lemma CommaInCityLookup(store: map<string, Location>, order: seq<string>)
    requires store == map["A,B" := Location("A,B", "C", 0.0, 0.0)] && order == ["A,B"]
    ensures CityNames(["a,b, c"]) == ["a"]
    ensures Resolved(["a"], store, [order]) == []
  {
    assert CityName("a,b, c") == "a";
    assert |Lower("A,B")| != |Lower("a")|;
    assert MatchesIn(store, "a", order) == [] by {
      assert order[..0] == [];
    }
    assert ["a"][..0] == [];
  }

  // ------------------------------------------------------------- request handler

  /**
   * The /api/locations/auto handler body: filter the index by the term, then
   * resolve the survivors. Every option of the index has a comma, so the slice in
   * buildFilteredLocationsList never panics; and when the options are the index of
   * a store built by the loader, every comma-free city the term prefixes is in the
   * answer.
   */
  method AutoComplete(store: map<string, Location>, options: seq<string>, ghost order: seq<string>, term: string)
      returns (filteredLocations: seq<Location>, ghost orders: seq<seq<string>>)
    requires AllHaveComma(options)
    ensures AllHaveComma(Filtered(options, term))
    ensures |orders| == |Filtered(options, term)|
    ensures EnumeratesEach(orders, store)
    ensures filteredLocations == Resolved(CityNames(Filtered(options, term)), store, orders)
    ensures WellKeyed(store) && Enumerates(order, store) && options == Displays(store, order) ==>
              forall k :: k in store && ',' !in k && HasPrefix(Lower(Display(store[k])), Lower(term)) ==>
                store[k] in filteredLocations
  {
    var filteredOptions := FilterOptions(options, term);
    FilteredKeepsCommas(options, term);
    filteredLocations, orders := BuildFilteredLocationsList(filteredOptions, store);
    if WellKeyed(store) && Enumerates(order, store) && options == Displays(store, order) {
      forall k | k in store && ',' !in k && HasPrefix(Lower(Display(store[k])), Lower(term))
        ensures store[k] in filteredLocations
      {
        RoundTrip(store, order, term, orders, k);
      }
    }
  }
}
