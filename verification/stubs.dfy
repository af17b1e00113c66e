/** The records the stub engine stores, receives and reports. */
module Stubs {
  import opened Wrappers
  import opened Values

  /**
   * The expectation of a stub: up to three matching modes. A mode is
   * populated when its map is non-nil (`Some`), even if that map is empty.
   */
  datatype Input = Input(equals: Option<Fields>, contains: Option<Fields>, matches: Option<Fields>)

  /** The canned response; the engine never looks inside it. */
  datatype Output = Output(data: Fields, error: string)

  /** A stub as registered: where it applies, what it expects, what it answers. */
  datatype Stub = Stub(service: string, methodName: string, input: Input, output: Output)

  /** One stored entry of a (service, method) list. */
  datatype Storage = Storage(input: Input, output: Output)

  /** Service name to method name to the stubs registered for it, oldest first. */
  type StubMapping = map<string, map<string, seq<Storage>>>

  /** A lookup request; `data` is `None` when the request carried a nil payload. */
  datatype FindStubPayload = FindStubPayload(service: string, methodName: string, data: Option<Fields>)

  /** A diagnostic candidate: the rule name ("equals", "contains" or "matches") and its expectation. */
  datatype CloseMatch = CloseMatch(rule: string, expectation: Fields)

  /**
   * The failures of a lookup. `StubNotFound` carries the rendered request
   * (`input`) and the closest candidate, absent when there was none.
   */
  datatype LookupError =
    | ServiceNotFound(service: string)
    | MethodNotFound(service: string, methodName: string)
    | EmptyStubList(service: string, methodName: string)
    | StubNotFound(service: string, methodName: string, input: string, closest: Option<CloseMatch>)
}
