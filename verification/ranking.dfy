/**
 * Diagnostics for a lookup that matched nothing: the request is rendered as
 * text, every candidate expectation is ranked by how much of it fuzzily
 * occurs in that text, and the best-ranked candidate is reported.
 */
module Ranking {
  import opened Wrappers
  import opened Values
  import opened Stubs
  import opened Matching

  /** One rendered entry: a tab, the key, a colon, the value as `fmt.Sprint` prints it. */
  function Line(key: string, value: Value, libs: Libs): string {
    "\t" + key + ": " + libs.sprint(value) + "\n"
  }

  /** The entries of `fields` rendered in the given key order. */
  function Lines(order: seq<string>, fields: Fields, libs: Libs): string
    requires forall k :: k in order ==> k in fields
  {
    if order == [] then ""
    else Lines(order[..|order| - 1], fields, libs) + Line(order[|order| - 1], fields[order[|order| - 1]], libs)
  }

  /** `order` lists every key of `keys` exactly once. */
  ghost predicate IsKeyOrder(order: seq<string>, keys: set<string>) {
    && (forall k :: k in order <==> k in keys)
    && (forall i, j :: 0 <= i < j < |order| ==> order[i] != order[j])
  }

  /** `text` renders every entry of `fields` once, in some order, between braces. */
  ghost predicate IsRendering(text: string, fields: Fields, libs: Libs) {
    exists order :: IsKeyOrder(order, fields.Keys) && text == "{\n" + Lines(order, fields, libs) + "}"
  }

  /**
   * `renderFieldAsString`: visits the entries in an order it does not
   * control (Go's map iteration), one line per entry.
   */
  method RenderFieldAsString(fields: Fields, libs: Libs) returns (text: string)
    ensures IsRendering(text, fields, libs)
  {
    text := "{\n";
    var rest := fields.Keys;
    ghost var order: seq<string> := [];
    while rest != {}
      invariant rest <= fields.Keys
      invariant forall k :: k in order <==> k in fields.Keys && k !in rest
      invariant forall i, j :: 0 <= i < j < |order| ==> order[i] != order[j]
      invariant text == "{\n" + Lines(order, fields, libs)
      decreases |rest|
    {
      var key :| key in rest;
      assert (order + [key])[..|order|] == order;
      text := text + Line(key, fields[key], libs);
      order := order + [key];
      rest := rest - {key};
    }
    text := text + "}";
    assert IsKeyOrder(order, fields.Keys);
  }

  /** The keys among `keys` whose name followed by ':' fuzzily occurs in `text`. */
  function KeyHits(expected: Fields, keys: set<string>, text: string, libs: Libs): set<string> {
    set k | k in keys && k in expected && libs.fuzzyMatch(k + ":", text)
  }

  /** The keys among `keys` whose value, printed, fuzzily occurs in `text`. */
  function ValueHits(expected: Fields, keys: set<string>, text: string, libs: Libs): set<string> {
    set k | k in keys && k in expected && libs.fuzzyMatch(libs.sprint(expected[k]), text)
  }

  /** Key hits plus value hits among `keys`. */
  function Hits(expected: Fields, keys: set<string>, text: string, libs: Libs): nat {
    |KeyHits(expected, keys, text, libs)| + |ValueHits(expected, keys, text, libs)|
  }

  /** How many of the 2·|expected| names and values of an expectation occur in `text`. */
  function Occurrences(expected: Fields, text: string, libs: Libs): nat {
    Hits(expected, expected.Keys, text, libs)
  }

  lemma {:induction false} SubsetCardinality(a: set<string>, b: set<string>)
    requires a <= b
    ensures |a| <= |b|
    ensures |a| == |b| ==> a == b
    decreases |a|
  {
    if a != {} {
      var x :| x in a;
      SubsetCardinality(a - {x}, b - {x});
      assert a == (a - {x}) + {x} && b == (b - {x}) + {x};
    }
  }

  lemma FractionBounds(n: nat, d: nat)
    requires 0 < n <= d
    ensures 0.0 < n as real / d as real <= 1.0
  {
    var q := n as real / d as real;
    assert q * d as real == n as real;
  }

  /** An expectation never scores more than two occurrences per entry. */
  lemma OccurrencesBounded(expected: Fields, text: string, libs: Libs)
    ensures Occurrences(expected, text, libs) <= 2 * |expected|
  {
    SubsetCardinality(KeyHits(expected, expected.Keys, text, libs), expected.Keys);
    SubsetCardinality(ValueHits(expected, expected.Keys, text, libs), expected.Keys);
  }

  /**
   * The rank `rankMatch` gives an expectation: zero when nothing occurs,
   * otherwise occurrences over twice the number of entries.
   */
  function RankOf(expected: Fields, text: string, libs: Libs): (rank: real)
    ensures 0.0 <= rank <= 1.0
    ensures rank == 0.0 <==> Occurrences(expected, text, libs) == 0
  {
    var occurrence := Occurrences(expected, text, libs);
    if occurrence == 0 then 0.0
    else
      OccurrencesBounded(expected, text, libs);
      FractionBounds(occurrence, 2 * |expected|);
      occurrence as real / (2 * |expected|) as real
  }

  /** The rank is 1 exactly when every key name and every value of the expectation occurs. */
  lemma RankIsOneIff(expected: Fields, text: string, libs: Libs)
    requires |expected| > 0
    ensures RankOf(expected, text, libs) == 1.0 <==>
      forall k :: k in expected ==>
        libs.fuzzyMatch(k + ":", text) && libs.fuzzyMatch(libs.sprint(expected[k]), text)
  {
    var keyHits := KeyHits(expected, expected.Keys, text, libs);
    var valueHits := ValueHits(expected, expected.Keys, text, libs);
    SubsetCardinality(keyHits, expected.Keys);
    SubsetCardinality(valueHits, expected.Keys);
    var total := 2 * |expected|;
    if RankOf(expected, text, libs) == 1.0 {
      assert Occurrences(expected, text, libs) as real / total as real == 1.0;
      assert Occurrences(expected, text, libs) == total;
      assert keyHits == expected.Keys && valueHits == expected.Keys;
      forall k | k in expected
        ensures libs.fuzzyMatch(k + ":", text) && libs.fuzzyMatch(libs.sprint(expected[k]), text)
      {
        assert k in keyHits && k in valueHits;
      }
    }
    if forall k :: k in expected ==>
        libs.fuzzyMatch(k + ":", text) && libs.fuzzyMatch(libs.sprint(expected[k]), text)
    {
      assert keyHits == expected.Keys && valueHits == expected.Keys;
      assert Occurrences(expected, text, libs) == total;
    }
  }

  /** Visiting one more entry adds at most one key hit and one value hit. */
  lemma HitsStep(expected: Fields, seen: set<string>, key: string, text: string, libs: Libs)
    requires key in expected && key !in seen
    ensures Hits(expected, seen + {key}, text, libs) == Hits(expected, seen, text, libs) +
      (if libs.fuzzyMatch(key + ":", text) then 1 else 0) +
      (if libs.fuzzyMatch(libs.sprint(expected[key]), text) then 1 else 0)
  {
    KeyHitsStep(expected, seen, key, text, libs);
    ValueHitsStep(expected, seen, key, text, libs);
  }

  lemma KeyHitsStep(expected: Fields, seen: set<string>, key: string, text: string, libs: Libs)
    requires key in expected && key !in seen
    ensures KeyHits(expected, seen + {key}, text, libs) ==
      KeyHits(expected, seen, text, libs) + (if libs.fuzzyMatch(key + ":", text) then {key} else {})
    ensures key !in KeyHits(expected, seen, text, libs)
  {
  }

  lemma ValueHitsStep(expected: Fields, seen: set<string>, key: string, text: string, libs: Libs)
    requires key in expected && key !in seen
    ensures ValueHits(expected, seen + {key}, text, libs) ==
      ValueHits(expected, seen, text, libs) + (if libs.fuzzyMatch(libs.sprint(expected[key]), text) then {key} else {})
    ensures key !in ValueHits(expected, seen, text, libs)
  {
  }

  /** `rankMatch`: counts the occurrences entry by entry, in whatever order the map yields them. */
  method RankMatch(expectString: string, closeMatch: Fields, libs: Libs) returns (rank: real)
    ensures rank == RankOf(closeMatch, expectString, libs)
  {
    var occurrence: nat := 0;
    var rest := closeMatch.Keys;
    ghost var seen: set<string> := {};
    while rest != {}
      invariant seen <= closeMatch.Keys && rest == closeMatch.Keys - seen
      invariant occurrence == Hits(closeMatch, seen, expectString, libs)
      decreases |rest|
    {
      var key :| key in rest;
      HitsStep(closeMatch, seen, key, expectString, libs);
      if libs.fuzzyMatch(key + ":", expectString) {
        occurrence := occurrence + 1;
      }
      if libs.fuzzyMatch(libs.sprint(closeMatch[key]), expectString) {
        occurrence := occurrence + 1;
      }
      rest := rest - {key};
      seen := seen + {key};
    }
    assert seen == closeMatch.Keys;
    if occurrence == 0 {
      return 0.0;
    }
    var totalFields := |closeMatch| * 2;
    rank := occurrence as real / totalFields as real;
  }

  /** The rank of every candidate, in candidate order. */
  function Ranks(candidates: seq<CloseMatch>, text: string, libs: Libs): (ranks: seq<real>)
    ensures |ranks| == |candidates|
    ensures forall j :: 0 <= j < |ranks| ==> 0.0 <= ranks[j] <= 1.0
  {
    seq(|candidates|, j requires 0 <= j < |candidates| => RankOf(candidates[j].expectation, text, libs))
  }

  /** Index `i` holds the greatest rank and every earlier rank is strictly smaller. */
  predicate IsFirstMax(ranks: seq<real>, i: nat) {
    && i < |ranks|
    && (forall j :: 0 <= j < |ranks| ==> ranks[j] <= ranks[i])
    && (forall j :: 0 <= j < i ==> ranks[j] < ranks[i])
  }

  /** The first position of the greatest rank. */
  function FirstMaxIndex(ranks: seq<real>): (i: nat)
    requires |ranks| > 0
    ensures IsFirstMax(ranks, i)
  {
    if |ranks| == 1 then 0
    else
      var j := FirstMaxIndex(ranks[..|ranks| - 1]);
      if ranks[|ranks| - 1] > ranks[j] then |ranks| - 1 else j
  }

  /** At most one position is the first greatest: the choice is deterministic. */
  lemma FirstMaxUnique(ranks: seq<real>, i: nat, j: nat)
    requires IsFirstMax(ranks, i) && IsFirstMax(ranks, j)
    ensures i == j
  {
    var atI, atJ := ranks[i], ranks[j];
  }

  /** The candidate the not-found error names, if there is any candidate at all. */
  function ClosestMatch(candidates: seq<CloseMatch>, text: string, libs: Libs): Option<CloseMatch> {
    if |candidates| == 0 then None
    else Some(candidates[FirstMaxIndex(Ranks(candidates, text, libs))])
  }

  /**
   * The selection rule: no candidate, no closest match; all ranks zero, the
   * first candidate; otherwise the first candidate of strictly greatest,
   * positive rank. Of two equally ranked candidates the earlier one wins.
   */
  lemma ClosestSelection(candidates: seq<CloseMatch>, text: string, libs: Libs)
    ensures |candidates| == 0 ==> ClosestMatch(candidates, text, libs) == None
    ensures |candidates| > 0 ==>
      var ranks := Ranks(candidates, text, libs);
      var i := FirstMaxIndex(ranks);
      && ClosestMatch(candidates, text, libs) == Some(candidates[i])
      && ((forall j :: 0 <= j < |ranks| ==> ranks[j] == 0.0) ==> i == 0)
      && ((exists j :: 0 <= j < |ranks| && ranks[j] > 0.0) ==>
            ranks[i] > 0.0 && (forall j :: 0 <= j < |ranks| ==> ranks[j] <= ranks[i]) &&
            forall j :: 0 <= j < i ==> ranks[j] < ranks[i])
      && (forall a, b :: 0 <= a < b < |ranks| && ranks[a] == ranks[b] ==> i != b)
  {
    if |candidates| > 0 {
      var ranks := Ranks(candidates, text, libs);
      var i := FirstMaxIndex(ranks);
      if i != 0 {
        assert ranks[0] < ranks[i];
      }
    }
  }

  /**
   * What the scan in `stubNotFoundError` ends with identifies the first
   * greatest rank: a highest rank still zero means position 0, otherwise the
   * position where the highest rank was first seen.
   */
  lemma ScanSelectsFirstMax(ranks: seq<real>, highest: real, best: nat)
    requires |ranks| > 0
    requires forall j :: 0 <= j < |ranks| ==> 0.0 <= ranks[j] <= highest
    requires highest == 0.0 ||
      (best < |ranks| && highest == ranks[best] && forall j :: 0 <= j < best ==> ranks[j] < highest)
    ensures FirstMaxIndex(ranks) == if highest == 0.0 then 0 else best
  {
    var winner := FirstMaxIndex(ranks);
    var first, top := ranks[0], ranks[winner];
    if highest != 0.0 {
      FirstMaxUnique(ranks, best, winner);
    }
  }

  /**
   * `stubNotFoundError`: renders the request, ranks each candidate in turn,
   * keeps the first strictly better one, and falls back to the first
   * candidate when nothing ranked above zero.
   */
  method StubNotFoundError(stub: FindStubPayload, closestMatches: seq<CloseMatch>, libs: Libs)
    returns (err: LookupError)
    ensures err.StubNotFound? && err.service == stub.service && err.methodName == stub.methodName
    ensures IsRendering(err.input, Entries(stub.data), libs)
    ensures err.closest == ClosestMatch(closestMatches, err.input, libs)
  {
    var expectString := RenderFieldAsString(Entries(stub.data), libs);
    if |closestMatches| == 0 {
      return StubNotFound(stub.service, stub.methodName, expectString, None);
    }
    ghost var ranks := Ranks(closestMatches, expectString, libs);
    var highestRank := 0.0;
    var highestMatch := CloseMatch("", map[]);
    ghost var best := 0;
    var i := 0;
    while i < |closestMatches|
      invariant 0 <= i <= |closestMatches|
      invariant forall j :: 0 <= j < i ==> ranks[j] <= highestRank
      invariant 0.0 <= highestRank
      invariant highestRank == 0.0 || (
        && best < i && highestRank == ranks[best] && highestMatch == closestMatches[best]
        && forall j :: 0 <= j < best ==> ranks[j] < highestRank)
    {
      var rank := RankMatch(expectString, closestMatches[i].expectation, libs);
      if rank > highestRank {
        highestRank := rank;
        highestMatch := closestMatches[i];
        best := i;
      }
      i := i + 1;
    }
    ScanSelectsFirstMax(ranks, highestRank, best);
    var closestMatch := if highestRank == 0.0 then closestMatches[0] else highestMatch;
    return StubNotFound(stub.service, stub.methodName, expectString, Some(closestMatch));
  }
}
