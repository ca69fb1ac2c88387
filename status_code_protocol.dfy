/** The Status Code Runtime protocol (Platform Initialization Specification,
    Volume 2, DXE Architectural Protocols) as this library sees it: its GUID, the
    status-code type bits it is called with, and its one service,
    ReportStatusCode(type, value, instance, caller_id, data). */
module StatusCodeProtocol {
  import opened Bytes
  import opened Efi

  /** D2B2B828-0826-48A7-B3DF-983C006024F0. */
  const PROTOCOL_GUID: Guid := GuidFromFields(0xD2B2B828, 0x0826, 0x48A7, [0xB3, 0xDF, 0x98, 0x3C, 0x00, 0x60, 0x24, 0xF0])

  /** `EfiStatusCodeType`: a u32 of flag bits. */
  type StatusCodeType = bv32
  /** `EfiStatusCodeValue`. */
  type StatusCodeValue = u32

  /** Status-code type bits, as the Platform Initialization Specification,
      Volume 3, defines them: the code class "error", and two severities. */
  const EFI_ERROR_CODE: StatusCodeType := 0x0000_0002
  const EFI_ERROR_MINOR: StatusCodeType := 0x4000_0000
  const EFI_ERROR_MAJOR: StatusCodeType := 0x8000_0000

  /** The fields of a type: the code class is its low byte, the severity its
      high byte. */
  const EFI_STATUS_CODE_TYPE_MASK: StatusCodeType := 0x0000_00FF
  const EFI_STATUS_CODE_SEVERITY_MASK: StatusCodeType := 0xFF00_0000

  /** The five arguments of one call of the service. `callerId` is the caller-id
      pointer (None is a null pointer); `data` is the bytes of the record the
      data pointer points at, at the time of the call. */
  datatype Invocation = Invocation(
    codeType: StatusCodeType,
    value: StatusCodeValue,
    instance: u32,
    callerId: Option<Guid>,
    data: seq<byte>)

  /** A located instance of the protocol. What the service answers is given by
      `respond`; every call is recorded, in order, in `invocations`. */
  class Interface {
    const respond: Invocation -> Status
    ghost var invocations: seq<Invocation>

    constructor (respond: Invocation -> Status)
      ensures this.respond == respond
      ensures invocations == []
    {
      this.respond := respond;
      invocations := [];
    }

    /** The `report_status_code` function pointer of the interface. */
    method ReportStatusCode(codeType: StatusCodeType, value: StatusCodeValue, instance: u32,
                            callerId: Option<Guid>, data: array<byte>) returns (status: Status)
      modifies this
      ensures invocations == old(invocations) + [Invocation(codeType, value, instance, callerId, data[..])]
      ensures status == respond(Invocation(codeType, value, instance, callerId, data[..]))
    {
      var call := Invocation(codeType, value, instance, callerId, data[..]);
      status := respond(call);
      invocations := invocations + [call];
    }
  }
}
