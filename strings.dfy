// The three helpers of Go's `strings` package that the autocomplete path uses:
// ToLower, HasPrefix and Index(s, ","), over Dafny strings (seq<char>).
module Strings {

  /** ASCII lowercasing of one character; every other character is left alone. */
  function LowerChar(c: char): char
  {
    if 'A' <= c <= 'Z' then (c as int + 32) as char else c
  }

  /** strings.ToLower, character by character. */
  function Lower(s: string): (r: string)
    ensures |r| == |s|
    ensures forall i :: 0 <= i < |s| ==> r[i] == LowerChar(s[i])
  {
    if s == [] then [] else [LowerChar(s[0])] + Lower(s[1..])
  }

  /** A lowercased string is its own lowercase. */
  lemma LowerIdempotent(s: string)
    ensures Lower(Lower(s)) == Lower(s)
  {
    var t := Lower(s);
    assert forall i :: 0 <= i < |s| ==> Lower(t)[i] == t[i];
  }

  /** strings.HasPrefix(s, prefix). */
  predicate HasPrefix(s: string, prefix: string)
    ensures HasPrefix(s, prefix) <==> |prefix| <= |s| && s[..|prefix|] == prefix
  {
    prefix <= s
  }

  /** Every string of the list contains a comma. */
  predicate AllHaveComma(ss: seq<string>)
  {
    forall i :: 0 <= i < |ss| ==> ',' in ss[i]
  }

  /** strings.Index(s, ","): the position of the first comma, when there is one. */
  function FirstComma(s: string): (i: nat)
    requires ',' in s
    ensures i < |s| && s[i] == ','
    ensures forall j :: 0 <= j < i ==> s[j] != ','
  {
    if s[0] == ',' then 0
    else
      assert ',' in s[1..] by {
        var p :| 0 <= p < |s| && s[p] == ',';
        assert s[1..][p - 1] == ',';
      }
      1 + FirstComma(s[1..])
  }

  /** The first comma is the only comma with no comma before it. */
  lemma FirstCommaUnique(s: string, i: nat)
    requires i < |s| && s[i] == ','
    requires forall j :: 0 <= j < i ==> s[j] != ','
    ensures FirstComma(s) == i
  {
  }

  /** option[:strings.Index(option, ",")]: the text before the first comma. */
  function CityName(option: string): (r: string)
    requires ',' in option
    ensures ',' !in r
    ensures r + [','] <= option
  {
    option[..FirstComma(option)]
  }

  /** When the text before a comma holds no comma, CityName recovers exactly that text. */
  lemma CityNameOfJoin(city: string, tail: string)
    requires ',' !in city
    ensures ',' in city + [','] + tail
    ensures CityName(city + [','] + tail) == city
  {
    var s := city + [','] + tail;
    assert s[|city|] == ',';
    assert forall j :: 0 <= j < |city| ==> s[j] == city[j];
    FirstCommaUnique(s, |city|);
    assert s[..|city|] == city;
  }

  /** Lowercasing neither adds nor moves commas, so it commutes with CityName. */
  lemma LowerCityName(s: string)
    requires ',' in s
    ensures ',' in Lower(s)
    ensures CityName(Lower(s)) == Lower(CityName(s))
  {
    var i := FirstComma(s);
    var t := Lower(s);
    assert t[i] == ',';
    FirstCommaUnique(t, i);
    assert t[..i] == Lower(s[..i]);
  }
}
