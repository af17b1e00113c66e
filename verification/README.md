# Stub-matching engine of a gRPC mock server, in Dafny

This project models the stub engine of gripmock (`stub/storage.go`). Callers
register stubs. Each stub names a service and a method, has an expectation and
a canned output. A lookup then finds the first registered stub that accepts an
incoming request payload. If none accepts, the lookup explains why.

- `values.dfy`, module `Values`: the dynamic scalar union standing for Go's
  `interface{}`, and the conversion to text used by the regex strategy
  (`tryConvertValue`). Integer rendering (`strconv.FormatInt`) is written
  out so that the conversion is concrete; its helper lemmas
  (`ParseFormatNat`, `FormatIntRoundTrip`, `FormatIntInjective`) are about
  that library rendering, not the engine, and only
  `ConvertedIntegerParsesBack` is listed below.
- `stubs.dfy`, module `Stubs`: the stored records.
  - `Input` holds the three optional modes `equals`, `contains` and `matches`.
  - The other records are `Output`, `Stub`, `Storage`, the lookup payload,
    the diagnostic candidate (`closeMatch`) and the lookup errors.
- `matching.dfy`, module `Matching`: the three strategies.
  - `equals` is whole-map deep equality.
  - `contains` is a subset test with equal values.
  - `matches` runs a regex on every key and fails closed.
  - `contains` and `matches` are loops with early exits, each proved against
    a predicate.
- `ranking.dfy`, module `Ranking`: the not-found diagnostics.
  - The request is rendered in map-iteration order.
  - `rankMatch` counts occurrences.
  - `stubNotFoundError` selects the closest candidate.
- `repository.dfy`, module `Repository`: the repository.
  - It is a class `StubRepository` with the field `stubStorage` (service →
    method → list of stubs) and the methods `StoreStub`, `AllStub`,
    `ClearStorage` and `FindStub`.
  - The pure function `Lookup` is the specification `FindStub` is proved
    against. The stub-by-stub loop of `findStub` is the method `ScanStubs`,
    which `FindStub` calls once the structural checks pass.
  - The lemmas state registration order, error order, first-match priority
    and candidate order.
- `wrappers.dfy`: `Option` and `Result`.

The routines the engine calls from other libraries are parameters, bundled in
`Values.Libs`:

- `regexp.Match`: matched, not matched, or error.
- `fuzzy.Match`.
- `strconv.FormatFloat(…, 'f', 5, …)`.
- `fmt.Sprint`.

A Go map that may be nil (the request data and each expectation mode) is an
`Option<Fields>`. `None` is nil. A nil map still reads as empty under
indexing. Deep equality still tells nil apart from an empty map, so a request
without data does not match an empty `equals` map.

## Model

| member | source | states |
|---|---|---|
| `Values.TryConvertValue` | stub/storage.go:247-277 | succeeds exactly on string, int, int64, int32, float32, float64 and bool; nil, objects and lists fail with the fixed message; a string converts to itself, a bool to "true"/"false" |
| `Values.ConvertedIntegerParsesBack` | stub/storage.go:252-262 | an int, int64 or int32 converts to well-formed decimal text that parses back to the same number |
| `Matching.Equals` | stub/storage.go:166-168 | true iff both maps are nil, or both non-nil with the same key set and equal values (same kind and content) under every key |
| `Matching.Contains` | stub/storage.go:170-182 | returns true iff every expected key is present in the request with an equal value; a nil request map has no keys |
| `Matching.Matches` | stub/storage.go:184-208 | returns true iff for every pattern key both the pattern and the request value (nil when missing) convert to text and the regex search reports a match |
| `Matching.EqualsIsStrict` | stub/storage.go:166-168 | a whole-map match is also a subset match; a request key the expectation lacks, or a nil request, defeats `equals` |
| `Matching.ContainsIgnoresExtraKeys` | stub/storage.go:170-182 | request keys outside the expectation never change the outcome of `contains` |
| `Matching.ContainsRejects` | stub/storage.go:171-179 | a missing expected key or a different value defeats `contains` |
| `Matching.MatchesFailsClosed` | stub/storage.go:184-208 | an empty pattern map matches; a missing request key, an unconvertible pattern, or a regex error or miss makes `matches` false |
| `Ranking.RenderFieldAsString` | stub/storage.go:157-164 | the text is "{\n", then one "\tkey: value\n" line for every entry exactly once in some order, then "}" |
| `Ranking.OccurrencesBounded` | stub/storage.go:139-153 | an expectation scores at most two occurrences per entry |
| `Ranking.RankOf` | stub/storage.go:138-155 | the rank lies in [0, 1] and is 0 exactly when no key name and no value fuzzily occurs |
| `Ranking.RankIsOneIff` | stub/storage.go:138-155 | for a non-empty expectation the rank is 1 exactly when every "key:" and every printed value fuzzily occurs |
| `Ranking.HitsStep` | stub/storage.go:140-147 | visiting one more entry adds one to the count for a key hit and one for a value hit |
| `Ranking.RankMatch` | stub/storage.go:138-155 | the counting loop, in any iteration order, returns the rank `RankOf` defines |
| `Ranking.FirstMaxIndex` | stub/storage.go:112-120 | the index returned holds the greatest rank, and every earlier rank is strictly smaller |
| `Ranking.FirstMaxUnique` | stub/storage.go:112-120 | at most one index is first with the greatest rank, so the choice is deterministic |
| `Ranking.ScanSelectsFirstMax` | stub/storage.go:108-127 | the state the ranking scan ends in identifies the first greatest rank: position 0 when the highest rank stayed 0, else the position where it was first reached |
| `Ranking.ClosestSelection` | stub/storage.go:104-127 | no candidates, no closest match; all ranks 0, the first candidate; otherwise the first candidate of strictly greatest positive rank; of equally ranked candidates the earlier wins |
| `Ranking.StubNotFoundError` | stub/storage.go:99-133 | the error is "stub not found" for the payload's service and method, carries a rendering of the request data, and names exactly the candidate `ClosestSelection` describes, or none when there are no candidates |
| `Repository.FirstMatch` | stub/storage.go:72-96 | returns the lowest index whose stub has a populated mode that accepts the data, or nothing when no stub accepts |
| `Repository.FirstMatchIs` | stub/storage.go:72-96 | an accepting stub with no earlier accepting stub is the first match |
| `Repository.FirstMatchNone` | stub/storage.go:72-96 | with no accepting stub there is no first match |
| `Repository.Stored` | stub/storage.go:30-43 | the (service, method) list becomes the old list (empty if absent) plus the new {Input, Output} at the end; missing service and method levels are created; every other service and method entry is unchanged |
| `Repository.StubRepository.constructor` | stub/storage.go:23 | the repository starts empty |
| `Repository.StubRepository.StoreStub` | stub/storage.go:30-43 | registration never fails, and the new repository is `Stored` of the old one |
| `Repository.StubRepository.AllStub` | stub/storage.go:45-49 | returns the current repository |
| `Repository.StubRepository.ClearStorage` | stub/storage.go:210-215 | the repository becomes empty |
| `Repository.ScanStubs` | stub/storage.go:72-94 | the scan over one list returns the output of the first accepting stub in registration order; when none accepts it returns nothing, with one candidate per populated mode of every stub in scan order |
| `Repository.StubRepository.FindStub` | stub/storage.go:56-97 | missing service, then missing method, then empty list give those errors; otherwise the output of the first accepting stub; otherwise the not-found error rendering the request and naming the closest of exactly the candidates a full scan records |
| `Repository.CandidatesAppend` | stub/storage.go:72-94 | the candidates of two consecutive stub lists are those of the first followed by those of the second |
| `Repository.CandidatesInScanOrder` | stub/storage.go:72-94 | stub i's candidates come after those of every earlier stub and before those of every later one |
| `Repository.ModeCandidatesExact` | stub/storage.go:74-93 | a stub contributes one candidate per populated (non-nil) mode, labelled "equals", "contains" or "matches" with that mode's map, and nothing else |
| `Repository.LookupMissesInOrder` | stub/storage.go:59-70 | missing service iff service error; method error iff service present and method missing; empty-list error iff both present and the list is empty |
| `Repository.LookupFirstMatchWins` | stub/storage.go:72-96 | the first accepting stub in registration order answers; if none accepts, the lookup fails with the candidates of every stub |
| `Repository.FirstMatchAppend` | stub/storage.go:41 | appending a stub keeps an existing first match; otherwise the new stub is the first match exactly when it accepts |
| `Repository.StoreKeepsEarlierAnswer` | stub/storage.go:41 | registering a stub never changes a lookup that already succeeded, because the older stub keeps priority |
| `Repository.StoreThenLookup` | stub/storage.go:30-43 | a newly registered stub answers a request that it accepts and that no earlier stub for its pair accepts |
| `Repository.StoreLeavesOtherLookups` | stub/storage.go:38-41 | lookups for other pairs are unchanged, except that a newly created service turns its other methods' service error into a method error |
| `Repository.RegisterEqualsRoundTrip` | stub/storage.go:30-43 | registering an `equals` stub into an empty repository and looking up exactly that map returns the stub's output |
| `Repository.ClearedLookup` | stub/storage.go:210-215 | after a reset every lookup fails with the service error |

## Left out

- `readStubFromFile` (stub/storage.go:217-245) walks a directory, reads files and decodes JSON. This is I/O. It only calls `storeStub`, which is modelled.
- The mutex (stub/storage.go:18 and the lock/unlock pairs) is left out. Each operation is a sequential method on one object, which is what the lock guarantees.
- `regexp.Match`, `fuzzy.Match`, `strconv.FormatFloat` and `fmt.Sprint` are parameters of type `Values.Libs`, not algorithms. Properties hold for every behaviour of these routines.
- Error message text is not modelled. Errors are kinds carrying the service, the method, the rendered request and the closest candidate. The text formatting, including the `fmt.Errorf(template)` call, is not modelled.
- `rankMatch` returns a `float32`. The model uses the exact rational as a `real`. Float32 rounding could make two distinct ranks compare equal for very large maps; that is not modelled.
- `Values.Value` stores floats as exact reals. NaN, infinities and signed zero do not exist in the model. Under Go's deep equality a NaN never equals itself.
- Nested maps and slices inside values are compared by value. Go's deep equality also tells a nil nested map or slice from an empty one; the model does not.
- Go kinds other than those in `Values.Value` (unsigned integers, structs, pointers) are not modelled. `tryConvertValue` would reject them, as it rejects objects and lists.
- `allStub` returns the live map, so callers could alias the repository. The model returns the current value.
- Repository.StubRepository.FindStub: returns the stored stub's `Output` as a value. The Go returns a pointer to a copy of the stored entry whose `Data` map is the very map the stored stub holds, so a caller writing into the returned output's data changes what later lookups answer; that sharing is not modelled.
- The `Output` record follows the stub definition in stub/stub.go, which is not part of this model. The engine never inspects it.
- The logging in `matches` (stub/storage.go:188, 194, 200) is left out.
