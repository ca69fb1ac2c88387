# MS WHEA telemetry: encoding and dispatch

This Dafny project models the telemetry path of `RustMuTelemetryHelperLib`. Firmware code uses it to report a
WHEA event (Windows Hardware Error Architecture) as a status code. The event goes to the platform's Status Code
Runtime protocol. The project has three parts:

- `log_telemetry` (module `Telemetry`) maps an event to dispatcher arguments. It chooses the INFO or FATAL type
  from the severity flag. A missing component id becomes the module's own id (`CALLER_ID`), and a missing library
  or partner (IHV) id becomes the zero GUID. The result is packed into the 48-byte
  `MsWheaRscInternalErrorData` payload.
- The compiled dispatcher (module `StatusCodeRuntime`) locates the protocol. It writes a 20-byte
  `EFI_STATUS_CODE_DATA` header and then the payload into one zeroed buffer. The header layout is
  `header_size` u16, `size` u16, `type` GUID, as the Platform Initialization Specification, Volume 3, defines
  it. The dispatcher calls the service once and then reaches an unconditional `assert!(false)`.
- A second revision of the dispatcher (module `PoolStatusCodeRuntime`) comes from `protocols.rs`. That file is
  not compiled into the crate. It takes the buffer from a pool allocation, which can fail. It passes a missing
  caller id as a null pointer and maps the service's status to `Ok`/`Err`.

Supporting modules:

- `Bytes`: bytes, u16/u32/u64 and the little-endian codec. Its two round-trip lemmas are proved by induction.
- `Efi`: `Option`, `Result`, `efi::Status` and GUIDs.
- `ExtendedData`: the record codec, with its decoder as an inverse. It also has the in-place writer both
  dispatchers use.
- `StatusCodeProtocol`: the protocol GUID, the status-code type bits, and the located interface.

The interface is a class. Its service answers through a function of the five call arguments, and every call is
appended to a ghost `invocations` log. This lets each dispatcher state that the service was called exactly once
and with which arguments.

Outside effects are parameters:

- The result of locating the protocol.
- The pool allocator, as a function from the requested size to success or an error status.
- The service's answer.
- The module's own id, `guid::CALLER_ID`. Each module sets its own value at build time.

Serialisation goes field by field and offset by offset, in little-endian order. No struct is reinterpreted. An
`as u16` cast of a size is written out as truncation to the low 16 bits.

Two behaviours a reader might expect are absent from the code, and the model follows the code:

- The compiled dispatcher does not map a failing service status to an error. It panics after every call that
  reaches the service.
- The protocol is looked up on every call. No handle is cached.

## Model

| member | source | states |
|---|---|---|
| `Bytes.DecodeEncode` | MsWheaPkg/Crates/RustMuTelemetryHelperLib/src/status_code_runtime.rs:76 | decoding the n-byte little-endian encoding of v gives v modulo 256^n, i.e. the `as` cast to n bytes |
| `Bytes.EncodeDecode` | MsWheaPkg/Crates/RustMuTelemetryHelperLib/src/status_code_runtime.rs:86 | re-encoding the value of a byte string at its own width gives back the byte string |
| `ExtendedData.HeaderFor` | MsWheaPkg/Crates/RustMuTelemetryHelperLib/src/status_code_runtime.rs:73-76 | the header declares header size 20 and the given type; its size field equals the payload length exactly when that length fits in 16 bits |
| `ExtendedData.EncodeHeader` | MsWheaPkg/Crates/RustMuTelemetryHelperLib/src/status_code_runtime.rs:76-86 | the header is 20 bytes: header_size little-endian at [0,2), size at [2,4), type GUID at [4,20) |
| `ExtendedData.DecodeHeader` | MsWheaPkg/Crates/RustMuTelemetryHelperLib/src/status_code_runtime.rs:76-86 | reading the fields back by offset is the inverse of the encoding: re-encoding gives the first 20 bytes |
| `ExtendedData.HeaderRoundTrip` | MsWheaPkg/Crates/RustMuTelemetryHelperLib/src/status_code_runtime.rs:76-86 | decoding an encoded header gives back the header |
| `ExtendedData.Record` | MsWheaPkg/Crates/RustMuTelemetryHelperLib/src/status_code_runtime.rs:73-88 | the record is 20 + payload length bytes: the header for the payload, then the payload from offset 20 with no gap |
| `ExtendedData.DecodeRecord` | MsWheaPkg/Crates/RustMuTelemetryHelperLib/src/status_code_runtime.rs:73-88 | a record that decodes yields the GUID at [4,20) and the bytes from offset 20 |
| `ExtendedData.RecordRoundTrip` | MsWheaPkg/Crates/RustMuTelemetryHelperLib/src/status_code_runtime.rs:74-76 | a record decodes to its type and payload if and only if the payload length fits the u16 size field |
| `ExtendedData.DecodeRecordInverse` | MsWheaPkg/Crates/RustMuTelemetryHelperLib/src/status_code_runtime.rs:73-88 | every well-formed record is the record of what it decodes to |
| `ExtendedData.CopyInto` | MsWheaPkg/Crates/RustMuTelemetryHelperLib/src/status_code_runtime.rs:85-88 | an unaligned write: the bytes land at the offset and every other byte of the buffer is unchanged |
| `ExtendedData.WriteRecord` | MsWheaPkg/Crates/RustMuTelemetryHelperLib/src/status_code_runtime.rs:78-88 | writing the header fields at offsets 0, 2 and 4 and then the payload at offset 20 leaves exactly the record in the buffer |
| `StatusCodeProtocol.Interface.constructor` | MsWheaPkg/Crates/RustMuTelemetryHelperLib/src/protocols/status_code_runtime.rs:16-18 | a located interface answers by its service function and has no calls recorded yet |
| `StatusCodeProtocol.Interface.ReportStatusCode` | MsWheaPkg/Crates/RustMuTelemetryHelperLib/src/protocols/status_code_runtime.rs:8-14 | a call appends its five arguments, with the record bytes as they are at the time of the call, to the log and returns the service's answer to them |
| `StatusCodeRuntime.DebugDumpInBounds` | MsWheaPkg/Crates/RustMuTelemetryHelperLib/src/status_code_runtime.rs:102 | the fixed 68-byte dump stays inside the record exactly when the payload is at least 48 bytes |
| `StatusCodeRuntime.ReportStatusCode` | MsWheaPkg/Crates/RustMuTelemetryHelperLib/src/status_code_runtime.rs:59-110 | a lookup error is returned unchanged and a missing protocol is NOT_FOUND, with no call made; otherwise the service is called exactly once with (type, value, instance, caller id or CALLER_ID, record) and the dispatcher panics |
| `PoolStatusCodeRuntime.StatusToResult` | MsWheaPkg/Crates/RustMuTelemetryHelperLib/src/protocols.rs:76-80 | the result is an error exactly when the status is an error status, and then it carries that same status |
| `PoolStatusCodeRuntime.ReportStatusCode` | MsWheaPkg/Crates/RustMuTelemetryHelperLib/src/protocols.rs:41-81 | a lookup error, then an allocation failure for header size + payload size, is returned unchanged with no call made; otherwise exactly one call with the arguments unchanged, the caller id passed through (none as null) and the record, and the service's status mapped to Ok/Err |
| `Telemetry.EncodeErrorData` | MsWheaPkg/Crates/RustMuTelemetryHelperLib/src/lib.rs:72-78 | the payload is 48 bytes: library_id at [0,16), ihv_sharing_guid at [16,32), additional_info_1 at [32,40), additional_info_2 at [40,48), little-endian |
| `Telemetry.DecodeErrorData` | MsWheaPkg/Crates/RustMuTelemetryHelperLib/src/lib.rs:72-78 | reading the four fields back from 48 bytes is the inverse of the encoding |
| `Telemetry.ErrorDataRoundTrip` | MsWheaPkg/Crates/RustMuTelemetryHelperLib/src/lib.rs:72-78 | decoding an encoded payload gives back the payload |
| `Telemetry.StatusCodeTypeFor` | MsWheaPkg/Crates/RustMuTelemetryHelperLib/src/lib.rs:50-51 | the type is EFI_ERROR_MAJOR \| EFI_ERROR_CODE exactly when the event is fatal, and EFI_ERROR_MINOR \| EFI_ERROR_CODE otherwise; under the PI masks its code class (low byte) is EFI_ERROR_CODE and its severity (high byte) is MAJOR when fatal, MINOR otherwise |
| `Telemetry.TelemetryReportFor` | MsWheaPkg/Crates/RustMuTelemetryHelperLib/src/lib.rs:104-113 | FATAL type iff fatal; value is class_id, instance 0, data type the WHEA GUID; the caller id is never absent: the component id verbatim, else CALLER_ID; library and IHV ids verbatim, else the zero GUID; the two extras verbatim and in order |
| `Telemetry.WheaRecordLayout` | MsWheaPkg/Crates/RustMuTelemetryHelperLib/src/lib.rs:118-126 | a WHEA record is exactly 68 bytes, the size of the debug dump; its header declares 20 and 48 and the WHEA GUID; it decodes to the WHEA GUID and the payload, which decodes to the event data |
| `Telemetry.StartupInfoEventRecord` | HidPkg/UefiHidDxeV2/src/main.rs:76 | the driver's start-up info event has type 0x40000002, the module's own caller id, zero GUIDs, and its two extras in the record least significant byte first at [52,60) and [60,68) |
| `Telemetry.LogTelemetry` | MsWheaPkg/Crates/RustMuTelemetryHelperLib/src/lib.rs:95-127 | returns the dispatcher's outcome unchanged; when the protocol is found, exactly one call with the event's type, class_id, instance 0, the resolved caller id and the WHEA record |

## Left out

- Logging: the `debugln!` output and the `guid_fmt!` formatting are I/O. The 68-byte debug dump is covered only
  by its bound (`StatusCodeRuntime.DebugDumpInBounds`, `Telemetry.WheaRecordLayout`).
- `guid!` parses a GUID string. The model builds the two GUID constants from their fields instead.
- `BOOT_SERVICES` and `init_telemetry` are host-owned global state. The result of locating the protocol is a
  parameter of every entry point.
- `guid::CALLER_ID` is the module's own id, set per module at build time. It is the `callerIdGuid` parameter.
- `EFI_ERROR_CODE`, `EFI_ERROR_MINOR` and `EFI_ERROR_MAJOR` are defined outside the crate. They take the bit
  patterns of the Platform Initialization Specification, Volume 3 (0x2, 0x40000000, 0x80000000), and the proofs
  rely on those patterns:
  - INFO and FATAL differ only because `MINOR | CODE` differs from `MAJOR | CODE`.
  - The code class and severity of both types (`Telemetry.StatusCodeTypeFor`), read under the PI masks 0xFF and
    0xFF000000, rest on CODE lying in the low byte and MINOR and MAJOR in the high byte.
  - The start-up example (`Telemetry.StartupInfoEventRecord`) states the exact value 0x40000002.
- `efi::Status` is a u64. Error statuses have the top bit set, and `NOT_FOUND` is error number 14, as in the UEFI
  specification, Appendix D.
- The generic payload `T` of the dispatchers is given by its bytes, and `size_of::<T>()` is their count.
- Raw-pointer mechanics are not modelled:
  - `ptr::write` of the header into the `Vec<u8>` is not guaranteed to be aligned.
  - The pool buffer is never freed.
  - Allocation failure of `vec!` aborts rather than returning.

  Buffers are arrays filled byte by byte at fixed offsets, and memory lifetime is left out.
- `StatusCodeProtocol.Interface`: the service answers by a fixed function of its five arguments. A stateful
  service, one that answers the same call differently over time, is not modelled.
- What the service does besides answering a status is left out. Any reentry into this library from the service
  is left out too.
- The panic handler is not modelled: a panic ends the model's call as `Panicked`.
- The unit test at lib.rs:141 expects `Ok(())` from `log_telemetry`. Once a protocol is located, the
  unconditional `assert!(false)` at status_code_runtime.rs:103 contradicts that expectation, so no property is
  taken from it.
- The driver binding, the HID receivers and the rest of the HID driver in HidPkg/UefiHidDxeV2 are not part of
  this model. They are defined in files outside this crate. Only the driver's `log_telemetry` call at main.rs:76 appears, as a
  concrete example.
