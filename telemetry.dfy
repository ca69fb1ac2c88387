/** `log_telemetry`: turns a WHEA telemetry event into one status-code report
    whose extended data is an MS_WHEA_RSC_INTERNAL_ERROR_DATA payload. */
module Telemetry {
  import opened Bytes
  import opened Efi
  import opened ExtendedData
  import opened StatusCodeProtocol
  import StatusCodeRuntime

  /** 91DEEA05-8C0A-4DCD-B91E-F21CA0C68405: the type GUID of the payload. */
  const MS_WHEA_RSC_DATA_TYPE_GUID: Guid := GuidFromFields(0x91DEEA05, 0x8C0A, 0x4DCD, [0xB9, 0x1E, 0xF2, 0x1C, 0xA0, 0xC6, 0x84, 0x05])

  const MS_WHEA_ERROR_STATUS_TYPE_INFO: StatusCodeType := EFI_ERROR_MINOR | EFI_ERROR_CODE
  const MS_WHEA_ERROR_STATUS_TYPE_FATAL: StatusCodeType := EFI_ERROR_MAJOR | EFI_ERROR_CODE

  /** `MsWheaRscInternalErrorData`: the library reporting the event (zero GUID if
      none), the partner to share it with (zero GUID if none), and two 64-bit
      values of context. */
  datatype MsWheaRscInternalErrorData = MsWheaRscInternalErrorData(
    libraryId: Guid,
    ihvSharingGuid: Guid,
    additionalInfo1: u64,
    additionalInfo2: u64)

  /** `size_of::<MsWheaRscInternalErrorData>()`. */
  const ERROR_DATA_SIZE: nat := 48

  /** The 48 payload bytes: library_id at [0,16), ihv_sharing_guid at [16,32),
      additional_info_1 at [32,40) and additional_info_2 at [40,48), little-endian. */
  function EncodeErrorData(d: MsWheaRscInternalErrorData): (s: seq<byte>)
    ensures |s| == ERROR_DATA_SIZE
    ensures s[0..16] == d.libraryId && s[16..32] == d.ihvSharingGuid
    ensures FromLittleEndian(s[32..40]) == d.additionalInfo1
    ensures FromLittleEndian(s[40..48]) == d.additionalInfo2
  {
    Pow256Widths();
    DecodeEncodeFits(d.additionalInfo1, 8);
    DecodeEncodeFits(d.additionalInfo2, 8);
    var s := d.libraryId + d.ihvSharingGuid
             + ToLittleEndian(d.additionalInfo1, 8) + ToLittleEndian(d.additionalInfo2, 8);
    assert s[32..40] == ToLittleEndian(d.additionalInfo1, 8);
    assert s[40..48] == ToLittleEndian(d.additionalInfo2, 8);
    s
  }

  /** Reads a payload back from its 48 bytes. */
  function DecodeErrorData(s: seq<byte>): (d: MsWheaRscInternalErrorData)
    requires |s| == ERROR_DATA_SIZE
    ensures EncodeErrorData(d) == s
  {
    Pow256Widths();
    SplitErrorData(s);
    MsWheaRscInternalErrorData(s[0..16], s[16..32], FromLittleEndian(s[32..40]), FromLittleEndian(s[40..48]))
  }

  /** 48 bytes are two GUIDs followed by the encodings of two 8-byte values. */
  lemma SplitErrorData(s: seq<byte>)
    requires |s| == ERROR_DATA_SIZE
    ensures s == s[0..16] + s[16..32] + ToLittleEndian(FromLittleEndian(s[32..40]), 8)
                 + ToLittleEndian(FromLittleEndian(s[40..48]), 8)
  {
    EncodeDecode(s[32..40]);
    EncodeDecode(s[40..48]);
    assert s == s[0..16] + s[16..32] + s[32..40] + s[40..48];
  }

  /** Decoding the encoding of a payload gives back that payload. */
  lemma ErrorDataRoundTrip(d: MsWheaRscInternalErrorData)
    ensures DecodeErrorData(EncodeErrorData(d)) == d
  {
  }

  /** The status-code type of an event: fatal events are major errors, all
      others minor errors, and the code class of both is "error". */
  function StatusCodeTypeFor(isFatal: bool): (t: StatusCodeType)
    ensures t == MS_WHEA_ERROR_STATUS_TYPE_FATAL <==> isFatal
    ensures t == MS_WHEA_ERROR_STATUS_TYPE_INFO <==> !isFatal
    ensures t & EFI_STATUS_CODE_TYPE_MASK == EFI_ERROR_CODE
    ensures t & EFI_STATUS_CODE_SEVERITY_MASK == if isFatal then EFI_ERROR_MAJOR else EFI_ERROR_MINOR
  {
    if isFatal then MS_WHEA_ERROR_STATUS_TYPE_FATAL else MS_WHEA_ERROR_STATUS_TYPE_INFO
  }

  /** The arguments `log_telemetry` hands to the dispatcher. */
  datatype TelemetryReport = TelemetryReport(
    codeType: StatusCodeType,
    value: StatusCodeValue,
    instance: u32,
    callerId: Option<Guid>,
    dataType: Guid,
    errorData: MsWheaRscInternalErrorData)

  /** What `log_telemetry` computes from its arguments before the one call it
      makes; `callerIdGuid` is the module's own id (`guid::CALLER_ID`). */
  function TelemetryReportFor(isFatal: bool, classId: StatusCodeValue, extraData1: u64, extraData2: u64,
                              componentId: Option<Guid>, libraryId: Option<Guid>, ihvId: Option<Guid>,
                              callerIdGuid: Guid): (r: TelemetryReport)
    ensures r.codeType == MS_WHEA_ERROR_STATUS_TYPE_FATAL <==> isFatal
    ensures r.codeType == MS_WHEA_ERROR_STATUS_TYPE_INFO <==> !isFatal
    ensures r.value == classId && r.instance == 0 && r.dataType == MS_WHEA_RSC_DATA_TYPE_GUID
    ensures r.callerId.Some?
    ensures componentId.Some? ==> r.callerId == componentId
    ensures componentId.None? ==> r.callerId == Some(callerIdGuid)
    ensures libraryId.Some? ==> r.errorData.libraryId == libraryId.value
    ensures libraryId.None? ==> r.errorData.libraryId == ZERO_GUID
    ensures ihvId.Some? ==> r.errorData.ihvSharingGuid == ihvId.value
    ensures ihvId.None? ==> r.errorData.ihvSharingGuid == ZERO_GUID
    ensures r.errorData.additionalInfo1 == extraData1 && r.errorData.additionalInfo2 == extraData2
  {
    var codeType := StatusCodeTypeFor(isFatal);
    var callerId := if componentId.Some? then componentId else Some(callerIdGuid);
    var errorData := MsWheaRscInternalErrorData(
      libraryId.GetOr(ZERO_GUID), ihvId.GetOr(ZERO_GUID), extraData1, extraData2);
    TelemetryReport(codeType, classId, 0, callerId, MS_WHEA_RSC_DATA_TYPE_GUID, errorData)
  }

  /** The record a WHEA event travels in is 68 bytes: the header declares 20
      header bytes, 48 payload bytes and the WHEA type GUID, and the payload
      decodes back to the event's data. */
  lemma WheaRecordLayout(d: MsWheaRscInternalErrorData)
    ensures var r := Record(MS_WHEA_RSC_DATA_TYPE_GUID, EncodeErrorData(d));
      && |r| == HEADER_SIZE + ERROR_DATA_SIZE == StatusCodeRuntime.DEBUG_DUMP_SIZE
      && FromLittleEndian(r[0..2]) == HEADER_SIZE
      && FromLittleEndian(r[2..4]) == ERROR_DATA_SIZE
      && r[4..20] == MS_WHEA_RSC_DATA_TYPE_GUID
      && DecodeRecord(r) == Some((MS_WHEA_RSC_DATA_TYPE_GUID, EncodeErrorData(d)))
      && DecodeErrorData(r[HEADER_SIZE..]) == d
  {
  }

  lemma StartupExtraData1Bytes()
    ensures ToLittleEndian(0xB1B2B3B4B5B6B7B8, 8) == [0xB8, 0xB7, 0xB6, 0xB5, 0xB4, 0xB3, 0xB2, 0xB1]
  {
    var b: seq<byte> := [0xB8, 0xB7, 0xB6, 0xB5, 0xB4, 0xB3, 0xB2, 0xB1];
    assert FromLittleEndian(b) == 0xB1B2B3B4B5B6B7B8;
    EncodeDecode(b);
  }

  lemma StartupExtraData2Bytes()
    ensures ToLittleEndian(0xC1C2C3C4C5C6C7C8, 8) == [0xC8, 0xC7, 0xC6, 0xC5, 0xC4, 0xC3, 0xC2, 0xC1]
  {
    var b: seq<byte> := [0xC8, 0xC7, 0xC6, 0xC5, 0xC4, 0xC3, 0xC2, 0xC1];
    assert FromLittleEndian(b) == 0xC1C2C3C4C5C6C7C8;
    EncodeDecode(b);
  }

  /** The informational event the HID driver logs at start-up: no component,
      library or partner id. It is reported as a minor error from the module
      itself, with zero GUIDs, and its two values land in the record least
      significant byte first. */
  lemma StartupInfoEventRecord(callerIdGuid: Guid)
    ensures var r := TelemetryReportFor(false, 0xA1A2A3A4, 0xB1B2B3B4B5B6B7B8, 0xC1C2C3C4C5C6C7C8,
                                        None, None, None, callerIdGuid);
      var record := Record(r.dataType, EncodeErrorData(r.errorData));
      && r.codeType == 0x4000_0002
      && r.callerId == Some(callerIdGuid)
      && record[20..52] == ZERO_GUID + ZERO_GUID
      && record[52..60] == [0xB8, 0xB7, 0xB6, 0xB5, 0xB4, 0xB3, 0xB2, 0xB1]
      && record[60..68] == [0xC8, 0xC7, 0xC6, 0xC5, 0xC4, 0xC3, 0xC2, 0xC1]
  {
    var r := TelemetryReportFor(false, 0xA1A2A3A4, 0xB1B2B3B4B5B6B7B8, 0xC1C2C3C4C5C6C7C8,
                                None, None, None, callerIdGuid);
    var payload := EncodeErrorData(r.errorData);
    var record := Record(r.dataType, payload);
    StartupExtraData1Bytes();
    StartupExtraData2Bytes();
    assert record[52..60] == payload[32..40];
    assert record[60..68] == payload[40..48];
    assert record[20..52] == payload[0..32];
  }

  /** `log_telemetry`: computes the report and forwards it to the dispatcher,
      returning the dispatcher's outcome unchanged. When the protocol is found,
      the service is called once with the event's type, `classId`, instance 0,
      the resolved caller id and the 68-byte WHEA record, and the call panics. */
  method LogTelemetry(lookup: StatusCodeRuntime.Lookup, callerIdGuid: Guid,
                      isFatal: bool, classId: StatusCodeValue, extraData1: u64, extraData2: u64,
                      componentId: Option<Guid>, libraryId: Option<Guid>, ihvId: Option<Guid>)
    returns (outcome: StatusCodeRuntime.Outcome)
    modifies StatusCodeRuntime.Located(lookup)
    ensures lookup.Err? ==> outcome == StatusCodeRuntime.Returned(Err(lookup.error))
    ensures lookup == Ok(None) ==> outcome == StatusCodeRuntime.Returned(Err(NOT_FOUND))
    ensures lookup.Ok? && lookup.value.Some? ==>
      var protocol := lookup.value.value;
      var r := TelemetryReportFor(isFatal, classId, extraData1, extraData2, componentId, libraryId, ihvId, callerIdGuid);
      && outcome == StatusCodeRuntime.Panicked
      && protocol.invocations == old(protocol.invocations) +
           [Invocation(r.codeType, classId, 0, r.callerId, Record(MS_WHEA_RSC_DATA_TYPE_GUID, EncodeErrorData(r.errorData)))]
  {
    var r := TelemetryReportFor(isFatal, classId, extraData1, extraData2, componentId, libraryId, ihvId, callerIdGuid);
    outcome := StatusCodeRuntime.ReportStatusCode(lookup, callerIdGuid, r.codeType, r.value, r.instance,
                                                  r.callerId, r.dataType, EncodeErrorData(r.errorData));
  }
}
