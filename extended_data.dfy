/** The extended-data record attached to a status code: an EFI_STATUS_CODE_DATA
    header (Platform Initialization Specification, Volume 3, Status Codes) followed
    immediately by the payload bytes. Fields are placed by offset, little-endian,
    with no padding:

      offset 0   header_size  u16
      offset 2   size         u16   (payload length)
      offset 4   type         GUID  (what the payload is)
      offset 20  payload      `size` bytes
*/
module ExtendedData {
  import opened Bytes
  import opened Efi

  /** `size_of::<EfiStatusCodeData>()`: two u16 fields and a GUID. */
  const HEADER_SIZE: nat := 20

  /** `EfiStatusCodeData`. */
  datatype StatusCodeData = StatusCodeData(headerSize: u16, size: u16, dataType: Guid)

  /** The header both dispatchers build for a payload of `payloadSize` bytes:
      `header_size as u16` and `size_of::<T>() as u16`, so a size that does not
      fit in 16 bits is cut to its low 16 bits. */
  function HeaderFor(dataType: Guid, payloadSize: nat): (h: StatusCodeData)
    ensures h.headerSize == HEADER_SIZE && h.dataType == dataType
    ensures h.size == payloadSize <==> payloadSize < 0x1_0000
  {
    StatusCodeData(HEADER_SIZE % 0x1_0000, payloadSize % 0x1_0000, dataType)
  }

  /** The 20 header bytes, field by field. */
  function EncodeHeader(h: StatusCodeData): (s: seq<byte>)
    ensures |s| == HEADER_SIZE
    ensures FromLittleEndian(s[0..2]) == h.headerSize
    ensures FromLittleEndian(s[2..4]) == h.size
    ensures s[4..20] == h.dataType
  {
    Pow256Widths();
    DecodeEncodeFits(h.headerSize, 2);
    DecodeEncodeFits(h.size, 2);
    var s := ToLittleEndian(h.headerSize, 2) + ToLittleEndian(h.size, 2) + h.dataType;
    assert s[0..2] == ToLittleEndian(h.headerSize, 2);
    assert s[2..4] == ToLittleEndian(h.size, 2);
    s
  }

  /** Reads the header fields back from the first 20 bytes of a record. */
  function DecodeHeader(s: seq<byte>): (h: StatusCodeData)
    requires |s| >= HEADER_SIZE
    ensures EncodeHeader(h) == s[..HEADER_SIZE]
  {
    Pow256Widths();
    var h := StatusCodeData(FromLittleEndian(s[0..2]), FromLittleEndian(s[2..4]), s[4..20]);
    EncodeDecode(s[0..2]);
    EncodeDecode(s[2..4]);
    assert s[..HEADER_SIZE] == s[0..2] + s[2..4] + s[4..20];
    h
  }

  /** Decoding the encoding of a header gives back that header. */
  lemma HeaderRoundTrip(h: StatusCodeData)
    ensures DecodeHeader(EncodeHeader(h)) == h
  {
  }

  /** The record for a payload: its header, then the payload with no gap. */
  function Record(dataType: Guid, payload: seq<byte>): (r: seq<byte>)
    ensures |r| == HEADER_SIZE + |payload|
    ensures r[..HEADER_SIZE] == EncodeHeader(HeaderFor(dataType, |payload|))
    ensures r[HEADER_SIZE..] == payload
  {
    EncodeHeader(HeaderFor(dataType, |payload|)) + payload
  }

  /** Splits a record at the fixed 20-byte boundary. A record is well formed when
      its header declares the 20-byte header size and exactly the number of bytes
      that follow; then the result is its type GUID and payload. */
  function DecodeRecord(r: seq<byte>): (d: Option<(Guid, seq<byte>)>)
    ensures d.Some? ==> |r| >= HEADER_SIZE && d.value.1 == r[HEADER_SIZE..] && d.value.0 == r[4..20]
  {
    if |r| < HEADER_SIZE then None
    else
      var h := DecodeHeader(r);
      if h.headerSize != HEADER_SIZE || h.size != |r| - HEADER_SIZE then None
      else Some((h.dataType, r[HEADER_SIZE..]))
  }

  /** A record decodes to the type and payload it was built from exactly when the
      payload length fits the 16-bit size field. */
  lemma RecordRoundTrip(dataType: Guid, payload: seq<byte>)
    ensures DecodeRecord(Record(dataType, payload)) ==
            if |payload| < 0x1_0000 then Some((dataType, payload)) else None
  {
  }

  /** Every well-formed record is the record of what it decodes to. */
  lemma DecodeRecordInverse(r: seq<byte>)
    requires DecodeRecord(r).Some?
    ensures Record(DecodeRecord(r).value.0, DecodeRecord(r).value.1) == r
  {
  }

  /** `s` with the bytes from `offset` on replaced by `bytes`. */
  ghost function Overwrite(s: seq<byte>, offset: nat, bytes: seq<byte>): (r: seq<byte>)
    requires offset + |bytes| <= |s|
  {
    s[..offset] + bytes + s[offset + |bytes|..]
  }

  /** Copies `bytes` into `buf` at `offset`, one byte at a time (an unaligned
      write: no alignment of `offset` is assumed). */
  method CopyInto(buf: array<byte>, offset: nat, bytes: seq<byte>)
    requires offset + |bytes| <= buf.Length
    modifies buf
    ensures buf[..] == Overwrite(old(buf[..]), offset, bytes)
  {
    var i := 0;
    while i < |bytes|
      invariant 0 <= i <= |bytes|
      invariant forall k :: 0 <= k < buf.Length ==>
        buf[k] == if offset <= k < offset + i then bytes[k - offset] else old(buf[k])
    {
      buf[offset + i] := bytes[i];
      i := i + 1;
    }
  }

  /** Writes the record for `payload` into a buffer of exactly its size: the
      header fields at offsets 0, 2 and 4, then the payload at offset 20. */
  method WriteRecord(buf: array<byte>, dataType: Guid, payload: seq<byte>)
    requires buf.Length == HEADER_SIZE + |payload|
    modifies buf
    ensures buf[..] == Record(dataType, payload)
  {
    var header := HeaderFor(dataType, |payload|);
    CopyInto(buf, 0, ToLittleEndian(header.headerSize, 2));
    CopyInto(buf, 2, ToLittleEndian(header.size, 2));
    CopyInto(buf, 4, header.dataType);
    CopyInto(buf, HEADER_SIZE, payload);
    assert buf[..] == ToLittleEndian(header.headerSize, 2) + ToLittleEndian(header.size, 2)
                      + header.dataType + payload;
  }
}
