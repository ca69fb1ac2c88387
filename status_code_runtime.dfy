/** The dispatcher the library compiles: locate the Status Code Runtime protocol,
    build the extended-data record in a zeroed buffer, default a missing caller id
    to the module's own, call the service once, and then stop on an unconditional
    `assert!(false)`. */
module StatusCodeRuntime {
  import opened Bytes
  import opened Efi
  import opened ExtendedData
  import opened StatusCodeProtocol

  /** What locating the protocol by `StatusCodeProtocol.PROTOCOL_GUID` gave: an
      error status, no instance, or the instance. */
  type Lookup = Result<Option<Interface>>

  /** How a call ends: it returns a result, or it panics. */
  datatype Outcome = Returned(result: Result<()>) | Panicked

  /** The objects a dispatch may change: the located instance, if there is one. */
  function Located(lookup: Lookup): set<object> {
    if lookup.Ok? && lookup.value.Some? then {lookup.value.value} else {}
  }

  /** The debug dump after the call reads a fixed 68 bytes from the record. */
  const DEBUG_DUMP_SIZE: nat := 68

  /** Whether that 68-byte read stays inside the record built for `payload`. */
  function DebugDumpInBounds(dataType: Guid, payload: seq<byte>): (ok: bool)
    ensures ok <==> |payload| >= DEBUG_DUMP_SIZE - HEADER_SIZE
  {
    |Record(dataType, payload)| >= DEBUG_DUMP_SIZE
  }

  /** `StatusCodeRuntimeProtocol::report_status_code`, with `payload` the bytes of
      `data: T` and `callerIdGuid` the module's own id (`guid::CALLER_ID`).
      A failed lookup is returned as it is; no instance is NOT_FOUND; in both
      cases nothing is built and nothing is called. Otherwise the service is
      called exactly once, with the arguments in order, the caller id defaulted
      and the record of `payload`, and the call then panics: every path that
      reaches the service ends in a panic. */
  method ReportStatusCode(lookup: Lookup, callerIdGuid: Guid,
                          codeType: StatusCodeType, value: StatusCodeValue, instance: u32,
                          callerId: Option<Guid>, dataType: Guid, payload: seq<byte>)
    returns (outcome: Outcome)
    modifies Located(lookup)
    ensures lookup.Err? ==> outcome == Returned(Err(lookup.error))
    ensures lookup == Ok(None) ==> outcome == Returned(Err(NOT_FOUND))
    ensures lookup.Ok? && lookup.value.Some? ==>
      var protocol := lookup.value.value;
      && outcome == Panicked
      && protocol.invocations == old(protocol.invocations) +
           [Invocation(codeType, value, instance, Some(callerId.GetOr(callerIdGuid)), Record(dataType, payload))]
  {
    if lookup.Err? {
      return Returned(Err(lookup.error));
    }
    if lookup.value.None? {
      return Returned(Err(NOT_FOUND));
    }
    var protocol := lookup.value.value;

    var buffer := new byte[HEADER_SIZE + |payload|];
    WriteRecord(buffer, dataType, payload);

    var effectiveCallerId := callerId.GetOr(callerIdGuid);
    var status := protocol.ReportStatusCode(codeType, value, instance, Some(effectiveCallerId), buffer);

    // assert!(false): the mapping of `status` to Ok/Err that follows it in the
    // source is never reached.
    outcome := Panicked;
  }
}
