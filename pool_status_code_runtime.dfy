/** A second revision of the dispatcher, kept beside the compiled one but not
    part of the crate: the record goes into a pool allocation that can fail, a
    missing caller id is passed as a null pointer, and the service's status is
    returned as a result. */
module PoolStatusCodeRuntime {
  import opened Bytes
  import opened Efi
  import opened ExtendedData
  import opened StatusCodeProtocol

  /** What locating the protocol by `StatusCodeProtocol.PROTOCOL_GUID` gave. In
      this revision the lookup yields the instance or an error status. */
  type Lookup = Result<Interface>

  /** The objects a dispatch may change: the located instance, if there is one. */
  function Located(lookup: Lookup): set<object> {
    if lookup.Ok? then {lookup.value} else {}
  }

  /** Maps the service's status to the caller's result. */
  function StatusToResult(status: Status): (r: Result<()>)
    ensures r.Err? <==> IsError(status)
    ensures r.Err? ==> r.error == status
  {
    if IsError(status) then Err(status) else Ok(())
  }

  /** `StatusCodeRuntimeProtocol::report_status_code` of this revision.
      `allocatePool(n)` is what boot services answer to a request for n bytes of
      pool. A failed lookup, then a failed allocation, is returned as it is, with
      no call made. Otherwise the service is called exactly once with the
      arguments unchanged, the caller id passed through (None as null) and the
      record of `payload` in a buffer of header size plus payload size, and its
      status is returned as Ok or Err. */
  method ReportStatusCode(lookup: Lookup, allocatePool: nat -> Result<()>,
                          codeType: StatusCodeType, value: StatusCodeValue, instance: u32,
                          callerId: Option<Guid>, dataType: Guid, payload: seq<byte>)
    returns (result: Result<()>)
    modifies Located(lookup)
    ensures lookup.Err? ==> result == Err(lookup.error)
    ensures lookup.Ok? && allocatePool(HEADER_SIZE + |payload|).Err? ==>
      && result == Err(allocatePool(HEADER_SIZE + |payload|).error)
      && lookup.value.invocations == old(lookup.value.invocations)
    ensures lookup.Ok? && allocatePool(HEADER_SIZE + |payload|).Ok? ==>
      var protocol := lookup.value;
      var call := Invocation(codeType, value, instance, callerId, Record(dataType, payload));
      && protocol.invocations == old(protocol.invocations) + [call]
      && result == StatusToResult(protocol.respond(call))
  {
    if lookup.Err? {
      return Err(lookup.error);
    }
    var protocol := lookup.value;

    var size := HEADER_SIZE + |payload|;
    var allocation := allocatePool(size);
    if allocation.Err? {
      return Err(allocation.error);
    }
    var buffer := new byte[size];
    WriteRecord(buffer, dataType, payload);

    var status := protocol.ReportStatusCode(codeType, value, instance, callerId, buffer);
    result := StatusToResult(status);
  }
}
