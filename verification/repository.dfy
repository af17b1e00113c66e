/**
 * The stub repository: service name to method name to the stubs registered
 * for that pair, in registration order, with registration, enumeration,
 * reset and lookup.
 */
module Repository {
  import opened Wrappers
  import opened Values
  import opened Stubs
  import opened Matching
  import opened Ranking

  /** The candidates one stub contributes: one per populated mode, in the order equals, contains, matches. */
  function ModeCandidates(input: Input): seq<CloseMatch> {
    (if input.equals.Some? then [CloseMatch("equals", input.equals.value)] else []) +
    (if input.contains.Some? then [CloseMatch("contains", input.contains.value)] else []) +
    (if input.matches.Some? then [CloseMatch("matches", input.matches.value)] else [])
  }

  /** The candidates a full scan of `stubs` collects, stub by stub. */
  function Candidates(stubs: seq<Storage>): seq<CloseMatch> {
    if stubs == [] then []
    else Candidates(stubs[..|stubs| - 1]) + ModeCandidates(stubs[|stubs| - 1].input)
  }

  /** Some populated mode of the expectation accepts the request data. */
  predicate StubMatches(input: Input, data: Option<Fields>, libs: Libs) {
    || (input.equals.Some? && Equals(data, input.equals))
    || (input.contains.Some? && IsSubMap(input.contains.value, Entries(data)))
    || (input.matches.Some? && AllMatch(input.matches.value, data, libs))
  }

  /** The position of the first stub, in registration order, that accepts the data. */
  function FirstMatch(stubs: seq<Storage>, data: Option<Fields>, libs: Libs): (found: Option<nat>)
    ensures found.Some? ==>
      && found.value < |stubs|
      && StubMatches(stubs[found.value].input, data, libs)
      && forall j :: 0 <= j < found.value ==> !StubMatches(stubs[j].input, data, libs)
    ensures found.None? ==> forall j :: 0 <= j < |stubs| ==> !StubMatches(stubs[j].input, data, libs)
  {
    if stubs == [] then None
    else if StubMatches(stubs[0].input, data, libs) then Some(0)
    else
      match FirstMatch(stubs[1..], data, libs)
      case None => None
      case Some(i) => Some(i + 1)
  }

  /** The list registered for (service, methodName); an absent level reads as an empty list. */
  function StubsFor(mapping: StubMapping, service: string, methodName: string): seq<Storage> {
    if service in mapping && methodName in mapping[service] then mapping[service][methodName] else []
  }

  /**
   * The repository after registering `stub`: its (service, method) list
   * gains the stub at the end, a missing service or method level is created,
   * and every other list is untouched.
   */
  function Stored(mapping: StubMapping, stub: Stub): (r: StubMapping)
    ensures r.Keys == mapping.Keys + {stub.service}
    ensures r[stub.service].Keys ==
      (if stub.service in mapping then mapping[stub.service].Keys else {}) + {stub.methodName}
    ensures r[stub.service][stub.methodName] ==
      StubsFor(mapping, stub.service, stub.methodName) + [Storage(stub.input, stub.output)]
    ensures forall s :: s in mapping && s != stub.service ==> r[s] == mapping[s]
    ensures forall m :: stub.service in mapping && m in mapping[stub.service] && m != stub.methodName ==>
      r[stub.service][m] == mapping[stub.service][m]
  {
    var methods := if stub.service in mapping then mapping[stub.service] else map[];
    mapping[stub.service := methods[stub.methodName := StubsFor(mapping, stub.service, stub.methodName) + [Storage(stub.input, stub.output)]]]
  }

  /** What a lookup decides, before the not-found diagnostics are rendered. */
  datatype Outcome =
    | Found(output: Output)
    | NoService
    | NoMethod
    | NoStubs
    | NoMatch(candidates: seq<CloseMatch>)

  /** The decision `findStub` makes for `payload` against the repository `mapping`. */
  function Lookup(mapping: StubMapping, payload: FindStubPayload, libs: Libs): Outcome {
    if payload.service !in mapping then NoService
    else if payload.methodName !in mapping[payload.service] then NoMethod
    else
      var stubs := mapping[payload.service][payload.methodName];
      if |stubs| == 0 then NoStubs
      else
        match FirstMatch(stubs, payload.data, libs)
        case Some(i) => Found(stubs[i].output)
        case None => NoMatch(Candidates(stubs))
  }

  /** The process-wide stub registry. */
  class StubRepository {
    var stubStorage: StubMapping

    constructor ()
      ensures stubStorage == map[]
    {
      stubStorage := map[];
    }

    /** `storeStub`: appends the stub to its (service, method) list; it cannot fail. */
    method StoreStub(stub: Stub)
      modifies this
      ensures stubStorage == Stored(old(stubStorage), stub)
    {
      var strg := Storage(stub.input, stub.output);
      if stub.service !in stubStorage {
        stubStorage := stubStorage[stub.service := map[]];
      }
      var methods := stubStorage[stub.service];
      var existing := if stub.methodName in methods then methods[stub.methodName] else [];
      stubStorage := stubStorage[stub.service := methods[stub.methodName := existing + [strg]]];
    }

    /** `allStub`: the whole current repository. */
    method AllStub() returns (mapping: StubMapping)
      ensures mapping == stubStorage
    {
      return stubStorage;
    }

    /** `clearStorage`: forgets every stub. */
    method ClearStorage()
      modifies this
      ensures stubStorage == map[]
    {
      stubStorage := map[];
    }

    /**
     * `findStub`: the structural misses in order (service, method, empty
     * list); then the stubs in registration order, each populated mode in the
     * order equals, contains, matches, every one recorded as a candidate; the
     * first acceptance answers. Otherwise the not-found diagnostics.
     */
    method FindStub(payload: FindStubPayload, libs: Libs) returns (r: Result<Output, LookupError>)
      ensures match Lookup(stubStorage, payload, libs)
        case Found(output) => r == Success(output)
        case NoService => r == Failure(ServiceNotFound(payload.service))
        case NoMethod => r == Failure(MethodNotFound(payload.service, payload.methodName))
        case NoStubs => r == Failure(EmptyStubList(payload.service, payload.methodName))
        case NoMatch(candidates) =>
          && r.Failure? && r.error.StubNotFound?
          && r.error.service == payload.service && r.error.methodName == payload.methodName
          && IsRendering(r.error.input, Entries(payload.data), libs)
          && r.error.closest == ClosestMatch(candidates, r.error.input, libs)
    {
      if payload.service !in stubStorage {
        return Failure(ServiceNotFound(payload.service));
      }
      if payload.methodName !in stubStorage[payload.service] {
        return Failure(MethodNotFound(payload.service, payload.methodName));
      }
      var stubs := stubStorage[payload.service][payload.methodName];
      if |stubs| == 0 {
        return Failure(EmptyStubList(payload.service, payload.methodName));
      }
      var found, closestMatch := ScanStubs(stubs, payload.data, libs);
      if found.Some? {
        return Success(found.value);
      }
      var err := StubNotFoundError(payload, closestMatch, libs);
      return Failure(err);
    }
  }

  /**
   * The scan `findStub` makes over one (service, method) list: the stubs in
   * registration order, each populated mode in the order equals, contains,
   * matches, every one recorded as a candidate; the first acceptance answers.
   */
  method ScanStubs(stubs: seq<Storage>, data: Option<Fields>, libs: Libs)
    returns (found: Option<Output>, closestMatch: seq<CloseMatch>)
    ensures match FirstMatch(stubs, data, libs)
      case Some(i) => found == Some(stubs[i].output)
      case None => found == None && closestMatch == Candidates(stubs)
  {
    closestMatch := [];
    var i := 0;
    while i < |stubs|
      invariant 0 <= i <= |stubs|
      invariant closestMatch == Candidates(stubs[..i])
      invariant forall j :: 0 <= j < i ==> !StubMatches(stubs[j].input, data, libs)
    {
      var stubrange := stubs[i];
      assert stubs[..i + 1][..i] == stubs[..i];
      ghost var before := closestMatch;
      if stubrange.input.equals.Some? {
        closestMatch := closestMatch + [CloseMatch("equals", stubrange.input.equals.value)];
        if Equals(data, stubrange.input.equals) {
          FirstMatchIs(stubs, data, libs, i);
          return Some(stubrange.output), closestMatch;
        }
      }
      if stubrange.input.contains.Some? {
        closestMatch := closestMatch + [CloseMatch("contains", stubrange.input.contains.value)];
        var ok := Contains(stubrange.input.contains.value, data);
        if ok {
          FirstMatchIs(stubs, data, libs, i);
          return Some(stubrange.output), closestMatch;
        }
      }
      if stubrange.input.matches.Some? {
        closestMatch := closestMatch + [CloseMatch("matches", stubrange.input.matches.value)];
        var ok := Matches(stubrange.input.matches.value, data, libs);
        if ok {
          FirstMatchIs(stubs, data, libs, i);
          return Some(stubrange.output), closestMatch;
        }
      }
      assert closestMatch == before + ModeCandidates(stubrange.input);
      i := i + 1;
    }
    assert stubs[..i] == stubs;
    FirstMatchNone(stubs, data, libs);
    return None, closestMatch;
  }

  /** Candidates of consecutive lists concatenate: the scan records them in list order. */
  lemma {:induction false} CandidatesAppend(a: seq<Storage>, b: seq<Storage>)
    ensures Candidates(a + b) == Candidates(a) + Candidates(b)
    decreases |b|
  {
    if b == [] {
      assert a + b == a;
    } else {
      var front, last := b[..|b| - 1], b[|b| - 1];
      var ab := a + b;
      assert ab[..|ab| - 1] == a + front;
      assert ab[|ab| - 1] == last;
      assert Candidates(ab) == Candidates(a + front) + ModeCandidates(last.input);
      assert Candidates(b) == Candidates(front) + ModeCandidates(last.input);
      CandidatesAppend(a, front);
    }
  }

  /**
   * Stub `i`'s candidates sit after those of every earlier stub and before
   * those of every later one.
   */
  lemma CandidatesInScanOrder(stubs: seq<Storage>, i: nat)
    requires i < |stubs|
    ensures Candidates(stubs) ==
      Candidates(stubs[..i]) + ModeCandidates(stubs[i].input) + Candidates(stubs[i + 1..])
  {
    var upTo, after := stubs[..i + 1], stubs[i + 1..];
    assert stubs == upTo + after;
    CandidatesAppend(upTo, after);
    assert upTo[..|upTo| - 1] == stubs[..i];
    assert upTo[|upTo| - 1] == stubs[i];
    assert Candidates(upTo) == Candidates(stubs[..i]) + ModeCandidates(stubs[i].input);
  }

  /**
   * A stub contributes exactly one candidate per populated mode, labelled
   * with that mode's rule name and carrying that mode's map.
   */
  lemma ModeCandidatesExact(input: Input)
    ensures |ModeCandidates(input)| ==
      (if input.equals.Some? then 1 else 0) + (if input.contains.Some? then 1 else 0) +
      (if input.matches.Some? then 1 else 0)
    ensures forall c :: c in ModeCandidates(input) <==>
      || (c.rule == "equals" && input.equals == Some(c.expectation))
      || (c.rule == "contains" && input.contains == Some(c.expectation))
      || (c.rule == "matches" && input.matches == Some(c.expectation))
  {
  }

  /** The structural misses are reported in the order service, method, empty list. */
  lemma LookupMissesInOrder(mapping: StubMapping, payload: FindStubPayload, libs: Libs)
    ensures payload.service !in mapping <==> Lookup(mapping, payload, libs) == NoService
    ensures Lookup(mapping, payload, libs) == NoMethod <==>
      payload.service in mapping && payload.methodName !in mapping[payload.service]
    ensures Lookup(mapping, payload, libs) == NoStubs <==>
      payload.service in mapping && payload.methodName in mapping[payload.service] &&
      mapping[payload.service][payload.methodName] == []
  {
  }

  /** A stub that accepts, with no earlier stub accepting, is the first match. */
  lemma FirstMatchIs(stubs: seq<Storage>, data: Option<Fields>, libs: Libs, i: nat)
    requires i < |stubs| && StubMatches(stubs[i].input, data, libs)
    requires forall j :: 0 <= j < i ==> !StubMatches(stubs[j].input, data, libs)
    ensures FirstMatch(stubs, data, libs) == Some(i)
  {
    var found := FirstMatch(stubs, data, libs);
  }

  /** With no accepting stub there is no first match. */
  lemma FirstMatchNone(stubs: seq<Storage>, data: Option<Fields>, libs: Libs)
    requires forall j :: 0 <= j < |stubs| ==> !StubMatches(stubs[j].input, data, libs)
    ensures FirstMatch(stubs, data, libs) == None
  {
    var found := FirstMatch(stubs, data, libs);
  }

  /**
   * A lookup that gets past the structural checks answers with the first
   * accepting stub in registration order, or, when none accepts, fails with
   * the candidates of every stub.
   */
  lemma LookupFirstMatchWins(mapping: StubMapping, payload: FindStubPayload, libs: Libs, i: nat)
    requires payload.service in mapping && payload.methodName in mapping[payload.service]
    ensures var stubs := mapping[payload.service][payload.methodName];
      i < |stubs| && StubMatches(stubs[i].input, payload.data, libs) &&
      (forall j :: 0 <= j < i ==> !StubMatches(stubs[j].input, payload.data, libs))
      ==> Lookup(mapping, payload, libs) == Found(stubs[i].output)
    ensures var stubs := mapping[payload.service][payload.methodName];
      |stubs| > 0 && (forall j :: 0 <= j < |stubs| ==> !StubMatches(stubs[j].input, payload.data, libs))
      ==> Lookup(mapping, payload, libs) == NoMatch(Candidates(stubs))
  {
    var stubs := mapping[payload.service][payload.methodName];
    if i < |stubs| && StubMatches(stubs[i].input, payload.data, libs) &&
      (forall j :: 0 <= j < i ==> !StubMatches(stubs[j].input, payload.data, libs))
    {
      FirstMatchIs(stubs, payload.data, libs, i);
    }
  }

  /** Appending a stub cannot change which earlier stub matches first. */
  lemma FirstMatchAppend(stubs: seq<Storage>, entry: Storage, data: Option<Fields>, libs: Libs)
    ensures FirstMatch(stubs + [entry], data, libs) ==
      if FirstMatch(stubs, data, libs).Some? then FirstMatch(stubs, data, libs)
      else if StubMatches(entry.input, data, libs) then Some(|stubs|)
      else None
  {
    var all := stubs + [entry];
    assert forall j :: 0 <= j < |stubs| ==> all[j] == stubs[j];
    assert all[|stubs|] == entry;
    var before := FirstMatch(stubs, data, libs);
    if before.Some? {
      FirstMatchIs(all, data, libs, before.value);
    } else if StubMatches(entry.input, data, libs) {
      FirstMatchIs(all, data, libs, |stubs|);
    } else {
      FirstMatchNone(all, data, libs);
    }
  }

  /** Registering a stub never changes a lookup that already succeeded: the older stub keeps priority. */
  lemma StoreKeepsEarlierAnswer(mapping: StubMapping, stub: Stub, payload: FindStubPayload, libs: Libs)
    requires Lookup(mapping, payload, libs).Found?
    ensures Lookup(Stored(mapping, stub), payload, libs) == Lookup(mapping, payload, libs)
  {
    if payload.service == stub.service && payload.methodName == stub.methodName {
      FirstMatchAppend(StubsFor(mapping, stub.service, stub.methodName), Storage(stub.input, stub.output), payload.data, libs);
    }
  }

  /**
   * A newly registered stub answers a request that no earlier stub for its
   * (service, method) accepts and that it accepts itself.
   */
  lemma StoreThenLookup(mapping: StubMapping, stub: Stub, payload: FindStubPayload, libs: Libs)
    requires payload.service == stub.service && payload.methodName == stub.methodName
    requires FirstMatch(StubsFor(mapping, stub.service, stub.methodName), payload.data, libs).None?
    requires StubMatches(stub.input, payload.data, libs)
    ensures Lookup(Stored(mapping, stub), payload, libs) == Found(stub.output)
  {
    FirstMatchAppend(StubsFor(mapping, stub.service, stub.methodName), Storage(stub.input, stub.output), payload.data, libs);
  }

  /**
   * Registering a stub leaves lookups for other (service, method) pairs
   * alone, except that a service seen for the first time now exists, so its
   * other methods report a missing method instead of a missing service.
   */
  lemma StoreLeavesOtherLookups(mapping: StubMapping, stub: Stub, payload: FindStubPayload, libs: Libs)
    requires payload.service != stub.service || payload.methodName != stub.methodName
    ensures payload.service != stub.service || stub.service in mapping ==>
      Lookup(Stored(mapping, stub), payload, libs) == Lookup(mapping, payload, libs)
    ensures payload.service == stub.service && stub.service !in mapping ==>
      Lookup(Stored(mapping, stub), payload, libs) == NoMethod
  {
  }

  /**
   * Registering a stub that expects exactly `expected` into an empty
   * repository, then looking up exactly `expected`, returns the stub's output.
   */
  lemma RegisterEqualsRoundTrip(service: string, methodName: string, expected: Fields, output: Output, libs: Libs)
    ensures Lookup(
      Stored(map[], Stub(service, methodName, Input(Some(expected), None, None), output)),
      FindStubPayload(service, methodName, Some(expected)), libs) == Found(output)
  {
    StoreThenLookup(map[], Stub(service, methodName, Input(Some(expected), None, None), output),
      FindStubPayload(service, methodName, Some(expected)), libs);
  }

  /** After a reset every lookup reports a missing service. */
  lemma ClearedLookup(payload: FindStubPayload, libs: Libs)
    ensures Lookup(map[], payload, libs) == NoService
  {
  }
}
