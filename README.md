# Weather-tracker autocomplete, modelled in Dafny

This project models the in-memory autocomplete pipeline of the weather-tracker
server (`main.go`) and proves properties of it. There are four stages:

1. **Location store** (`store.dfy`, module `LocationStore`). The row loop of
   `loadData` folds spreadsheet rows `[_, city, latitude, longitude, country, ...]`
   into a map from city name to a `Location` record. The header row is skipped.
   A later row naming the same city overwrites the earlier one.
2. **Autocomplete index** (`index.dfy`, module `AutocompleteIndex`).
   `buildAutoCompleteOptionsList` turns every stored record into the option
   `"City, Country"`.
3. **Prefix filter** (`query.dfy`, module `QueryService`). `filterOptions`
   lowercases the term and every option. It keeps the lowercased option when it
   starts with the lowercased term.
4. **Resolution** (`query.dfy`). `buildFilteredLocationsList` cuts each surviving
   option at its first comma. It then appends every stored record whose key,
   lowercased, equals that city segment, lowercased.

`strings.dfy` (module `Strings`) models the three Go `strings` helpers the
pipeline uses: `ToLower`, `HasPrefix` and `Index(s, ",")`.

How the model is built:

- Each Go loop is a Dafny method with a `while` loop and invariants. The four
  loops over the options and the store are proved equal to specification
  functions: `Filtered`, `Displays`, `MatchesIn` and `Resolved`. The properties
  are then proved as lemmas about those functions. `LoadData`'s ensures give
  the map directly: its key set, and the last row's record for each key.
- Go leaves the order of `range` over a map unspecified. Each method that ranges
  over the store therefore returns the order it used as a ghost out-parameter.
  That order is an *enumeration*: every key exactly once (`Enumerates`). Each
  option's inner loop gets its own enumeration, so `BuildFilteredLocationsList`
  returns one per option.
- The inner `range` of `buildFilteredLocationsList` is its own method,
  `AppendMatches`. It appends to the accumulated list exactly as the Go loop
  body does.
- Two panics in the source are preconditions:
  - `LoadData` needs at least 5 columns in every data row.
  - `BuildFilteredLocationsList` needs a comma in every option.
- `AutoComplete` models the body of the `/api/locations/auto` handler.
  `Displays` ensures every option of the index has a comma, and `AutoComplete`
  shows that filtering keeps it. So the handler cannot panic on the index.
- The float parser is a parameter `parseFloat: string -> real`. It stands for
  the parsed value of a cell, whether or not the parse also reports an error.

Two details of the code that the model keeps:

- A row whose numbers fail to parse is still stored: `main.go:121-136` only
  prints the parse error, and `LoadData` stores every data row.
- `filterOptions` returns the *lowercased* options (`main.go:66-68`), not the
  originals. `Filtered` returns the lowercased options.

Two sharp edges are proved rather than hidden:

- The round trip holds only for cities whose name has no comma.
  `CommaInCityBreaksRoundTrip` gives a concrete store where a city with a comma
  in its name cannot be found again.
- Keys that differ only in case produce duplicate results.
  `CaseVariantsDuplicate` shows that for keys such as "Paris" and "paris", a term
  both options start with returns each record at least twice: once for each
  surviving option.

## Model

| member | source | states |
|---|---|---|
| `LocationStore.RowLocation` | main.go:120-136 | The record of a row has `row[1]` as city, `row[4]` as country, the parsed `row[2]` as latitude and the parsed `row[3]` as longitude. Rows need at least 5 columns. |
| `LocationStore.LoadData` | main.go:112-137 | The header row is skipped. A city is a key exactly when some data row names it. The last data row naming a city decides its record: `row[1]`, `row[4]`, and the parsed `row[3]` and `row[2]` as longitude and latitude. Every record is stored under its own city name. Rows need at least 5 columns. |
| `LocationStore.EnumerationLength` | main.go:77 | An iteration of a `range` over the store (`Enumerates`: every key exactly once, nothing else) visits exactly as many keys as the store has. |
| `LocationStore.EnumerationsPermute` | main.go:51 | Two iterations of the same store visit the same keys, each the same number of times; only the order differs. |
| `Strings.Lower` | main.go:64-66 | `strings.ToLower` (also used at main.go:52). The lowercase has the same length as the input, and each character is the ASCII lowercase of the character at the same position. |
| `Strings.HasPrefix` | main.go:67 | A string has a prefix exactly when the prefix is no longer than the string and equals its first characters. |
| `Strings.FirstComma` | main.go:50 | The position returned holds a comma and no earlier position does. Defined only when the string contains a comma. |
| `Strings.CityName` | main.go:50 | The result is the text before the option's first comma. It holds no comma, and the result followed by a comma is a prefix of the option. Panics (precondition) when the option has no comma. |
| `Strings.LowerCityName` | main.go:50-52 | Lowercasing keeps the comma, and the city segment of the lowercased option is the lowercase of the original segment. |
| `Strings.LowerIdempotent` | main.go:52 | Lowercasing an already lowercased string changes nothing. This is why `ToLower(cityName)` on an option that is already lowercase gives the same key text. |
| `Strings.CityNameOfJoin` | main.go:50 | If the text before a comma has no comma, cutting at the first comma gives back exactly that text. |
| `AutocompleteIndex.Display` | main.go:78 | Every option contains a comma. |
| `AutocompleteIndex.DisplayCityName` | main.go:78 | For a city without a comma, the text before the option's first comma is the city. |
| `AutocompleteIndex.Displays` | main.go:76-80 | One option per visited key, and every option carries a comma. |
| `AutocompleteIndex.BuildAutoCompleteOptionsList` | main.go:75-83 | The order used visits every key exactly once. The options are the `"City, Country"` strings of the records in that order. There are as many options as entries, and every record's option is among them. |
| `AutocompleteIndex.OptionsOnePerEntry` | main.go:76-80 | There are as many options as store entries. Every key's record has its option at the position of that key, and no key occupies two positions. |
| `QueryService.Filtered` | main.go:61-73 | At most as many results as options. Every result starts with the lowercased term. |
| `QueryService.FilterOptions` | main.go:61-73 | The loop's result equals `Filtered(options, term)`. |
| `QueryService.FilteredMembership` | main.go:64-69 | A string is in the result if and only if it is the lowercase of some option and starts with the lowercased term. |
| `QueryService.FilteredIsLowercase` | main.go:66-68 | Every returned string is already lowercase. |
| `QueryService.FilteredIsSubsequence` | main.go:65-70 | The result is a subsequence of the lowercased options, so input order is preserved. |
| `QueryService.FilteredEmptyTerm` | main.go:64-68 | With the empty term the result is exactly the lowercased options: same length, same order. |
| `QueryService.FilteredAppend` | main.go:65-70 | Filtering a concatenation of option lists gives the concatenation of the filtered lists. |
| `QueryService.FilteredCount` | main.go:65-69 | A string occurs in the result as often as it occurs among the lowercased options when it starts with the lowercased term, and otherwise not at all. Duplicates are kept. |
| `QueryService.FilteredKeepsBoth` | main.go:65-69 | Two options that both pass the filter both come out, at two distinct positions, in their input order. |
| `QueryService.FilteredKeepsCommas` | main.go:66-68 | Options that all carry a comma still carry one after lowercasing and filtering. |
| `QueryService.MatchesIn` | main.go:51-55 | The reference definition of one inner `range`: the records, in visiting order, of the visited keys that equal the name ignoring case. There are at most as many as keys visited, and each is a stored record. |
| `QueryService.Resolved` | main.go:49-56 | The reference definition of the whole function: the `MatchesIn` of each city segment along that option's own iteration, concatenated in option order. Every result is a stored record. |
| `QueryService.AppendMatches` | main.go:51-55 | The inner `range` visits every key exactly once. It appends to the accumulated list exactly the records of the keys that match the city segment, ignoring case, in visiting order. The earlier list is kept as a prefix, and every matching record is among the appended ones. |
| `QueryService.BuildFilteredLocationsList` | main.go:47-59 | Each option gets its own full iteration of the store. The result is the resolution of the options' city segments along those iterations. Empty input gives empty output. Every option must carry a comma. |
| `QueryService.ResolvedAppend` | main.go:49-56 | Resolving a concatenation of option lists gives the concatenation of their resolutions. |
| `QueryService.MatchesSound` | main.go:51-54 | Every record appended for a name is stored under a visited key that equals the name, ignoring case. |
| `QueryService.MatchesComplete` | main.go:51-54 | Every visited key that equals the name, ignoring case, contributes its record. |
| `QueryService.ResolvedSound` | main.go:49-55 | Every returned record is stored under a key that equals, ignoring case, the city segment of some option. |
| `QueryService.ResolvedComplete` | main.go:49-55 | For each option, every stored record whose key matches its city segment, ignoring case, is returned. |
| `QueryService.MatchesPermutation` | main.go:51-54 | Reordering the iteration only reorders the matches: the multiset of matches stays the same. |
| `QueryService.ResolvedOrderIndependent` | main.go:47-58 | Any two runs on the same options and store return the same records the same number of times, whatever map order each `range` used. |
| `QueryService.CaseVariantsBothResolve` | main.go:51-53 | Two keys that differ only in case both match the same city segment, so one option resolves to both records. |
| `QueryService.ResolvedTwice` | main.go:49-55 | A record whose key matches, ignoring case, the city segments of two different options is returned at least twice. |
| `QueryService.CaseVariantsDuplicate` | main.go:47-80 | Take two distinct comma-free keys that differ only in case, and a term that prefixes both lowercased options. Each option survives the filter, and each option's city segment matches both keys. So each of the two records is returned at least twice. |
| `QueryService.CaseVariantsExample` | main.go:51-53 | The store with keys "Paris" and "paris" and the empty term meet every hypothesis of `CaseVariantsDuplicate`, so that lemma applies to a real input. |
| `QueryService.RoundTrip` | main.go:47-80 | Take a record stored under its own comma-free city name, and any term whose lowercase starts that record's lowercased option. This covers the option itself in any case, and the empty term. Building the index, filtering by the term and resolving always returns the record. |
| `QueryService.CommaInCityBreaksRoundTrip` | main.go:50-52 | For the store `{"A,B": ("A,B", "C")}` the empty term keeps `"a,b, c"`. Its city segment is `"a"`, so resolution returns nothing. |
| `QueryService.AutoComplete` | main.go:28-39 | Filtering keeps every option's comma, so resolution is defined. The answer is the resolution of the filtered options. When the options are the index of a loaded store, every comma-free city that the term prefixes is in the answer. |

## Left out

- HTTP wiring is not modelled: the gin router, the `/health` and `/fetch-user` handlers and `r.Run` (main.go:17-27, 41-44). They are framework code with no logic.
- JSON serialisation of the answer is not modelled, including Go's nil-versus-empty slice (main.go:36-38).
- Opening the workbook, reading the sheet and `Close` (main.go:96-110) are foreign I/O. The model takes the rows as a given `seq<seq<string>>`. When the file or sheet cannot be opened, the Go code goes on with a nil value; that path is not modelled.
- An error from `rows.Columns()` (main.go:115-118) is only printed. The model takes each row as read.
- `strconv.ParseFloat` is a parameter, and coordinates are `real`. NaN and ±Inf, which `ParseFloat` returns for inputs such as "NaN", "Inf" or out-of-range numbers, have no `real` counterpart. This is harmless: no floating-point arithmetic happens in the core, and the coordinates are only carried.
- Strings.Lower: lowercases ASCII `A`-`Z` only, where Go's `strings.ToLower` follows Unicode case mapping. Non-ASCII letters are left unchanged.
- Go's map iteration order is not modelled as any concrete order. The model states every property for every possible order.
- QueryService.BuildFilteredLocationsList: an option without a comma makes Go panic. The model states this as a precondition; there is no error value to model.
- LocationStore.LoadData: a data row with fewer than 5 columns makes Go panic. The model states this as a precondition; there is no error value to model.
- Process startup, logging and `fmt.Println` output are not modelled.
