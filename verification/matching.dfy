/** The three matching strategies between a stored expectation and a request payload. */
module Matching {
  import opened Wrappers
  import opened Values

  /** The entries of a possibly nil map; a nil map reads as empty. */
  function Entries(m: Option<Fields>): Fields {
    if m.Some? then m.value else map[]
  }

  /** Indexing a possibly nil map: a missing key yields the nil value. */
  function ValueAt(m: Option<Fields>, key: string): Value {
    var e := Entries(m);
    if key in e then e[key] else Nil
  }

  /**
   * `equals`: deep equality of two maps. Both nil, or both non-nil with the
   * same keys and equal values of the same kind.
   */
  function Equals(input1: Option<Fields>, input2: Option<Fields>): (r: bool)
    ensures r <==>
      (input1.None? && input2.None?) ||
      (input1.Some? && input2.Some? && input1.value.Keys == input2.value.Keys &&
       forall k :: k in input1.value ==> input1.value[k] == input2.value[k])
  {
    if input1.Some? && input2.Some? then
      SameEntries(input1.value, input2.value);
      input1.value == input2.value
    else
      input1 == input2
  }

  /** Maps are equal exactly when they have the same keys and equal values under each. */
  lemma SameEntries(a: Fields, b: Fields)
    ensures a == b <==> a.Keys == b.Keys && forall k :: k in a ==> a[k] == b[k]
  {
    if a.Keys == b.Keys && forall k :: k in a ==> a[k] == b[k] {
      assert forall k :: k in a <==> k in b;
    }
  }

  /** Every key of `expected` is present in `actual` with an equal value. */
  predicate IsSubMap(expected: Fields, actual: Fields) {
    forall k :: k in expected ==> k in actual && actual[k] == expected[k]
  }

  /** `contains`: scans the expected keys and stops at the first one missing or different. */
  method Contains(expected: Fields, actual: Option<Fields>) returns (ok: bool)
    ensures ok <==> IsSubMap(expected, Entries(actual))
  {
    var rest := expected.Keys;
    ghost var done: set<string> := {};
    while rest != {}
      invariant done <= expected.Keys && rest == expected.Keys - done
      invariant forall k :: k in done ==> k in Entries(actual) && Entries(actual)[k] == expected[k]
      decreases |rest|
    {
      var key :| key in rest;
      var present := actual.Some? && key in actual.value;
      if !present {
        return false;
      }
      if expected[key] != actual.value[key] {
        return false;
      }
      rest := rest - {key};
      done := done + {key};
    }
    return true;
  }

  /**
   * One key of `matches`: the pattern and the actual value both convert to
   * text and the regex search reports a match (an error counts as no match).
   */
  predicate KeyMatches(pattern: Value, actual: Value, libs: Libs) {
    var p := TryConvertValue(pattern, libs);
    var a := TryConvertValue(actual, libs);
    p.Success? && a.Success? && libs.regexMatch(p.value, a.value) == Matched
  }

  /** Every key of the pattern map matches the request's value at that key. */
  predicate AllMatch(expected: Fields, actual: Option<Fields>, libs: Libs) {
    forall k :: k in expected ==> KeyMatches(expected[k], ValueAt(actual, k), libs)
  }

  /** `matches`: scans the pattern keys and fails closed at the first key that does not match. */
  method Matches(expected: Fields, actual: Option<Fields>, libs: Libs) returns (ok: bool)
    ensures ok <==> AllMatch(expected, actual, libs)
  {
    var rest := expected.Keys;
    ghost var done: set<string> := {};
    while rest != {}
      invariant done <= expected.Keys && rest == expected.Keys - done
      invariant forall k :: k in done ==> KeyMatches(expected[k], ValueAt(actual, k), libs)
      decreases |rest|
    {
      var key :| key in rest;
      var expectString := TryConvertValue(expected[key], libs);
      if expectString.Failure? {
        assert !KeyMatches(expected[key], ValueAt(actual, key), libs);
        return false;
      }
      var actualString := TryConvertValue(ValueAt(actual, key), libs);
      if actualString.Failure? {
        assert !KeyMatches(expected[key], ValueAt(actual, key), libs);
        return false;
      }
      var outcome := libs.regexMatch(expectString.value, actualString.value);
      if outcome != Matched {
        assert !KeyMatches(expected[key], ValueAt(actual, key), libs);
        return false;
      }
      assert KeyMatches(expected[key], ValueAt(actual, key), libs);
      rest := rest - {key};
      done := done + {key};
    }
    return true;
  }

  /** A whole-map match is also a subset match, and a request key the expectation lacks defeats it. */
  lemma EqualsIsStrict(expected: Fields, data: Option<Fields>, key: string)
    ensures Equals(data, Some(expected)) ==> IsSubMap(expected, Entries(data))
    ensures key in Entries(data) && key !in expected ==> !Equals(data, Some(expected))
    ensures data.None? ==> !Equals(data, Some(expected))
  {
  }

  /** Request keys outside the expectation never change the outcome of `contains`. */
  lemma ContainsIgnoresExtraKeys(expected: Fields, actual: Fields, extra: Fields)
    requires extra.Keys !! expected.Keys
    ensures IsSubMap(expected, actual) <==> IsSubMap(expected, actual + extra)
  {
  }

  /** A missing key or a different value under an expected key defeats `contains`. */
  lemma ContainsRejects(expected: Fields, actual: Fields, key: string)
    requires key in expected
    requires key !in actual || actual[key] != expected[key]
    ensures !IsSubMap(expected, actual)
  {
  }

  /**
   * `matches` holds trivially for an empty pattern map, and fails closed at a
   * key whose pattern or request value cannot be rendered (a missing request
   * key reads as nil) or whose regex search errs or finds nothing.
   */
  lemma MatchesFailsClosed(expected: Fields, actual: Option<Fields>, libs: Libs, key: string)
    ensures AllMatch(map[], actual, libs)
    ensures key in expected && key !in Entries(actual) ==> !AllMatch(expected, actual, libs)
    ensures key in expected && !expected[key].IsScalar() ==> !AllMatch(expected, actual, libs)
    ensures key in expected && expected[key].IsScalar() && ValueAt(actual, key).IsScalar() &&
      libs.regexMatch(TryConvertValue(expected[key], libs).value,
                      TryConvertValue(ValueAt(actual, key), libs).value) != Matched
      ==> !AllMatch(expected, actual, libs)
  {
    if key in expected && key !in Entries(actual) {
      assert !KeyMatches(expected[key], ValueAt(actual, key), libs);
    }
  }
}
