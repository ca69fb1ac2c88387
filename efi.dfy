/** The UEFI vocabulary the telemetry path uses: optional values, results
    carrying an `efi::Status` on failure, status codes and GUIDs. */
module Efi {
  import opened Bytes

  datatype Option<+T> = None | Some(value: T) {
    /** `Option::unwrap_or`: the held value, or `default` when there is none. */
    function GetOr(default: T): T {
      match this
      case Some(v) => v
      case None => default
    }
  }

  /** `Result<T, efi::Status>`. */
  datatype Result<+T> = Ok(value: T) | Err(error: Status)

  /** `efi::Status` on a 64-bit platform. By the UEFI convention a status is an
      error exactly when its top bit is set. */
  type Status = u64

  const ERROR_BIT: Status := 0x8000_0000_0000_0000
  const SUCCESS: Status := 0
  /** EFI_NOT_FOUND: error number 14. */
  const NOT_FOUND: Status := ERROR_BIT + 14

  /** `Status::is_error`. */
  predicate IsError(s: Status) {
    s >= ERROR_BIT
  }

  /** `efi::Guid`, held as its 16 bytes in memory order. */
  type Guid = s: seq<byte> | |s| == 16 witness [0, 0, 0, 0, 0, 0, 0, 0, 0, 0, 0, 0, 0, 0, 0, 0]

  /** `guid::ZERO`: the all-zero GUID, meaning "not applicable". */
  const ZERO_GUID: Guid := [0, 0, 0, 0, 0, 0, 0, 0, 0, 0, 0, 0, 0, 0, 0, 0]

  /** The in-memory bytes of the GUID written `data1-data2-data3-data4` in
      registry form: the first three fields little-endian, the last 8 bytes as
      they are. */
  function GuidFromFields(data1: u32, data2: u16, data3: u16, data4: seq<byte>): (g: Guid)
    requires |data4| == 8
    ensures g[8..] == data4
  {
    ToLittleEndian(data1, 4) + ToLittleEndian(data2, 2) + ToLittleEndian(data3, 2) + data4
  }
}
