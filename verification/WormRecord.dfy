/** WORM records on the wire (`header.rs`, `record.rs`). */
module WormRecord {
  import opened Basics
  import opened Wrappers
  import opened Bytes
  import opened Words

  type U16 = v: int | 0 <= v < 0x1_0000
  type U32 = v: int | 0 <= v < 0x1_0000_0000
  type Bytes4 = s: seq<Byte> | |s| == 4 witness [0, 0, 0, 0]
  type Digest = s: seq<Byte> | |s| == 32 witness seq(32, _ => 0)
  type Signature = s: seq<Byte> | |s| == 64 witness seq(64, _ => 0)

  const MAGIC: Bytes4 := [0x57, 0x4F, 0x52, 0x4D]
  const VERSION: Byte := 1
  const HEADER_SIZE: nat := 152
  const GENESIS_HASH: Digest := seq(32, _ => 0)

  datatype Header = Header(
    magic: Bytes4, version: Byte, flags: Byte, eventLength: U16, dataLength: U32, metadataLength: U32,
    timestampNs: U64, previousHash: Digest, contentHash: Digest, signature: Signature)

  datatype Record = Record(header: Header, eventType: seq<Byte>, data: seq<Byte>, metadata: seq<Byte>)

  datatype StorageError =
    | HeaderTooShort(length: nat)
    | RecordTooShort(length: nat)
    | InvalidMagic
    | UnsupportedVersion(version: Byte)
    | PayloadIncomplete(length: nat, expected: nat)

  function NewHeader(): Header {
    Header(MAGIC, VERSION, 0, 0, 0, 0, 0, GENESIS_HASH, GENESIS_HASH, seq(64, _ => 0))
  }

  // ---- what is written ----

  function HeaderBytes(h: Header): (b: seq<Byte>)
    ensures |b| == HEADER_SIZE
  {
    h.magic + ([h.version, h.flags] + (ToBe(h.eventLength, 2) + (ToBe(h.dataLength, 4) + (ToBe(h.metadataLength, 4) +
      (ToBe(h.timestampNs, 8) + (h.previousHash + (h.contentHash + h.signature)))))))
  }

  function RecordBytes(r: Record): seq<Byte> {
    HeaderBytes(r.header) + (r.eventType + (r.data + r.metadata))
  }

  function RecordSize(h: Header): nat { HEADER_SIZE + (h.eventLength + h.dataLength + h.metadataLength) }

  predicate Supported(h: Header) { h.magic == MAGIC && h.version == VERSION }

  /** The header describes the payload behind it. */
  predicate Consistent(r: Record) {
    |r.eventType| == r.header.eventLength && |r.data| == r.header.dataLength && |r.metadata| == r.header.metadataLength
  }

  predicate WellFormed(r: Record) { Supported(r.header) && Consistent(r) }

  method HeaderToBytes(h: Header) returns (bytes: seq<Byte>)
    ensures bytes == HeaderBytes(h)
  {
    bytes := [];
    bytes := bytes + h.magic;
    bytes := bytes + [h.version];
    bytes := bytes + [h.flags];
    bytes := bytes + ToBe(h.eventLength, 2);
    bytes := bytes + ToBe(h.dataLength, 4);
    bytes := bytes + ToBe(h.metadataLength, 4);
    bytes := bytes + ToBe(h.timestampNs, 8);
    bytes := bytes + h.previousHash;
    bytes := bytes + h.contentHash;
    bytes := bytes + h.signature;
    InOrder(h.magic, [h.version, h.flags], ToBe(h.eventLength, 2), ToBe(h.dataLength, 4), ToBe(h.metadataLength, 4),
            ToBe(h.timestampNs, 8), h.previousHash, h.contentHash, h.signature);
    assert h.magic + [h.version] + [h.flags] == h.magic + [h.version, h.flags];
  }

  lemma InOrder(a: seq<Byte>, b: seq<Byte>, c: seq<Byte>, d: seq<Byte>, e: seq<Byte>, f: seq<Byte>, g: seq<Byte>,
                h: seq<Byte>, i: seq<Byte>)
    ensures a + b + c + d + e + f + g + h + i == a + (b + (c + (d + (e + (f + (g + (h + i)))))))
  {
    Assoc(a + b + c + d + e + f + g, h, i);
    Assoc(a + b + c + d + e + f, g, h + i);
    Assoc(a + b + c + d + e, f, g + (h + i));
    Assoc(a + b + c + d, e, f + (g + (h + i)));
    Assoc(a + b + c, d, e + (f + (g + (h + i))));
    Assoc(a + b, c, d + (e + (f + (g + (h + i)))));
    Assoc(a, b, c + (d + (e + (f + (g + (h + i))))));
  }

  method RecordToBytes(r: Record) returns (bytes: seq<Byte>)
    ensures bytes == RecordBytes(r)
  {
    bytes := HeaderToBytes(r.header);
    bytes := bytes + r.eventType;
    bytes := bytes + r.data;
    bytes := bytes + r.metadata;
    Assoc(HeaderBytes(r.header) + r.eventType, r.data, r.metadata);
    Assoc(HeaderBytes(r.header), r.eventType, r.data + r.metadata);
  }

  // ---- what is read ----

  /** The header whose encoding stands at the front of the bytes, or the first reason why there is none. */
  method HeaderFromBytes(bytes: seq<Byte>) returns (r: Result<Header, StorageError>)
    ensures match r
            case Ok(h) => Supported(h) && HeaderBytes(h) <= bytes
            case Err(HeaderTooShort(n)) => n == |bytes| < HEADER_SIZE
            case Err(InvalidMagic) => |bytes| >= HEADER_SIZE && bytes[..4] != MAGIC
            case Err(UnsupportedVersion(v)) => |bytes| >= HEADER_SIZE && bytes[..4] == MAGIC && bytes[4] == v != VERSION
            case Err(RecordTooShort(_)) => false
            case Err(PayloadIncomplete(_, _)) => false
  {
    if |bytes| < HEADER_SIZE { return Err(HeaderTooShort(|bytes|)); }
    var offset := 0;
    var magic: Bytes4 := bytes[offset..offset + 4];
    offset := offset + 4;
    if magic != MAGIC { return Err(InvalidMagic); }
    var version := bytes[offset];
    offset := offset + 1;
    if version != VERSION { return Err(UnsupportedVersion(version)); }
    var flags := bytes[offset];
    offset := offset + 1;
    var eventLength := ReadBe(bytes, offset, 2);
    offset := offset + 2;
    var dataLength := ReadBe(bytes, offset, 4);
    offset := offset + 4;
    var metadataLength := ReadBe(bytes, offset, 4);
    offset := offset + 4;
    var timestampNs := ReadBe(bytes, offset, 8);
    offset := offset + 8;
    var previousHash: Digest := bytes[offset..offset + 32];
    offset := offset + 32;
    var contentHash: Digest := bytes[offset..offset + 32];
    offset := offset + 32;
    var signature: Signature := bytes[offset..offset + 64];
    Widths();
    var h := Header(magic, version, flags, eventLength, dataLength, metadataLength, timestampNs, previousHash,
                    contentHash, signature);
    Pieces(bytes);
    assert bytes[4..6] == [version, flags];
    return Ok(h);
  }

  /** A big-endian number at a place. */
  function ReadBe(bytes: seq<Byte>, at: nat, k: nat): (v: nat)
    requires at + k <= |bytes|
    ensures v < Pow256(k) && ToBe(v, k) == bytes[at..at + k]
  {
    FromBeBounded(bytes[at..at + k]);
    BeInverse(bytes[at..at + k]);
    FromBe(bytes[at..at + k])
  }

  lemma Pieces(s: seq<Byte>)
    requires |s| >= HEADER_SIZE
    ensures s[..152] == s[0..4] + (s[4..6] + (s[6..8] + (s[8..12] + (s[12..16] + (s[16..24] + (s[24..56] +
                          (s[56..88] + s[88..152])))))))
  {
    Cut(s, 56, 88, 152);
    Cut(s, 24, 56, 152);
    Cut(s, 16, 24, 152);
    Cut(s, 12, 16, 152);
    Cut(s, 8, 12, 152);
    Cut(s, 6, 8, 152);
    Cut(s, 4, 6, 152);
    Cut(s, 0, 4, 152);
  }

  /** No two headers have the same encoding. */
  lemma HeaderBytesInjective(a: Header, b: Header)
    requires HeaderBytes(a) == HeaderBytes(b)
    ensures a == b
  {
    HeaderFront(a);
    HeaderFront(b);
    HeaderBack(a);
    HeaderBack(b);
  }

  /** Where the fields stand in a header. */
  lemma HeaderLayout(h: Header)
    ensures var b := HeaderBytes(h);
            && |b| == 152 && b[0..4] == h.magic && b[4] == h.version && b[5] == h.flags
            && FromBe(b[6..8]) == h.eventLength && FromBe(b[8..12]) == h.dataLength && FromBe(b[12..16]) == h.metadataLength
            && FromBe(b[16..24]) == h.timestampNs && b[24..56] == h.previousHash && b[56..88] == h.contentHash
            && b[88..152] == h.signature
  {
    HeaderFront(h);
    HeaderBack(h);
  }

  /** And in a record: header, event type, data, metadata. */
  lemma RecordLayout(r: Record)
    ensures var b, e, d := RecordBytes(r), 152 + |r.eventType|, 152 + |r.eventType| + |r.data|;
            && |b| == d + |r.metadata| && b[..152] == HeaderBytes(r.header) && b[152..e] == r.eventType && b[e..d] == r.data
            && b[d..] == r.metadata
  {
  }

  /** The records that are read back carry the letters WORM, version 1 and the lengths of their parts. */
  lemma WellFormedMeans(r: Record)
    ensures WellFormed(r) <==>
              && r.header.magic == [0x57, 0x4F, 0x52, 0x4D] && r.header.version == 1
              && |r.eventType| == r.header.eventLength && |r.data| == r.header.dataLength
              && |r.metadata| == r.header.metadataLength
    ensures WellFormed(r) ==> |RecordBytes(r)| == 152 + r.header.eventLength + r.header.dataLength + r.header.metadataLength
                              == RecordSize(r.header)
  {
    RecordLayout(r);
  }

  lemma HeaderFront(h: Header)
    ensures var s := HeaderBytes(h);
            && s[..4] == h.magic && s[4] == h.version && s[5] == h.flags
            && FromBe(s[6..8]) == h.eventLength && FromBe(s[8..12]) == h.dataLength && FromBe(s[12..16]) == h.metadataLength
            && FromBe(s[16..24]) == h.timestampNs
  {
    var s := HeaderBytes(h);
    Widths();
    BeRoundTrip(h.eventLength, 2);
    BeRoundTrip(h.dataLength, 4);
    BeRoundTrip(h.metadataLength, 4);
    BeRoundTrip(h.timestampNs, 8);
    assert s[6..8] == ToBe(h.eventLength, 2);
    assert s[8..12] == ToBe(h.dataLength, 4);
    assert s[12..16] == ToBe(h.metadataLength, 4);
    assert s[16..24] == ToBe(h.timestampNs, 8);
  }

  lemma HeaderBack(h: Header)
    ensures var s := HeaderBytes(h);
            s[24..56] == h.previousHash && s[56..88] == h.contentHash && s[88..152] == h.signature
  {
  }

  /** Well-formed records form a prefix code: what follows a record on the wire does not change how it reads. */
  lemma RecordsAreSelfDelimiting(a: Record, x: seq<Byte>, b: Record, y: seq<Byte>)
    requires Consistent(a) && Consistent(b) && RecordBytes(a) + x == RecordBytes(b) + y
    ensures a == b && x == y
  {
    Unfold(a, x);
    Unfold(b, y);
    SamePrefix(HeaderBytes(a.header), a.eventType + (a.data + (a.metadata + x)),
               HeaderBytes(b.header), b.eventType + (b.data + (b.metadata + y)));
    HeaderBytesInjective(a.header, b.header);
    SamePrefix(a.eventType, a.data + (a.metadata + x), b.eventType, b.data + (b.metadata + y));
    SamePrefix(a.data, a.metadata + x, b.data, b.metadata + y);
    SamePrefix(a.metadata, x, b.metadata, y);
  }

  lemma Unfold(r: Record, x: seq<Byte>)
    ensures RecordBytes(r) + x == HeaderBytes(r.header) + (r.eventType + (r.data + (r.metadata + x)))
  {
    Assoc(HeaderBytes(r.header), r.eventType + (r.data + r.metadata), x);
    Assoc(r.eventType, r.data + r.metadata, x);
    Assoc(r.data, r.metadata, x);
  }

  /** `WormRecord::from_bytes` returns a record exactly if the bytes start with the encoding of a well-formed
      one, and then that record. */
  method RecordFromBytes(bytes: seq<Byte>) returns (r: Result<Record, StorageError>)
    ensures forall rec :: r == Ok(rec) <==> WellFormed(rec) && RecordBytes(rec) <= bytes
    ensures r.Err? ==> match r.error
                       case HeaderTooShort(_) => false
                       case RecordTooShort(n) => n == |bytes| < HEADER_SIZE
                       case InvalidMagic => |bytes| >= HEADER_SIZE && bytes[..4] != MAGIC
                       case UnsupportedVersion(v) => |bytes| >= HEADER_SIZE && bytes[..4] == MAGIC && bytes[4] == v != VERSION
                       case PayloadIncomplete(n, expected) =>
                         n == |bytes| < expected && exists h :: Supported(h) && HeaderBytes(h) <= bytes && expected == RecordSize(h)
  {
    if |bytes| < HEADER_SIZE {
      return Err(RecordTooShort(|bytes|));
    }
    var first := bytes[..HEADER_SIZE];
    var header := HeaderFromBytes(first);
    if header.Err? {
      forall rec | WellFormed(rec) ensures !(RecordBytes(rec) <= bytes) { FrontOfRecord(rec, bytes); }
      assert first[..4] == bytes[..4];
      return Err(header.error);
    }
    var h := header.value;
    var offset := HEADER_SIZE;
    var expected := offset + h.eventLength + h.dataLength + h.metadataLength;
    assert HeaderBytes(h) == first;
    if |bytes| < expected {
      forall rec | WellFormed(rec) ensures !(RecordBytes(rec) <= bytes) {
        FrontOfRecord(rec, bytes);
        if RecordBytes(rec) <= bytes { HeaderBytesInjective(rec.header, h); }
      }
      assert HeaderBytes(h) <= bytes;
      return Err(PayloadIncomplete(|bytes|, expected));
    }
    var eventType := bytes[offset..offset + h.eventLength];
    var data := bytes[offset + h.eventLength..offset + h.eventLength + h.dataLength];
    var metadata := bytes[offset + h.eventLength + h.dataLength..expected];
    var rec := Record(h, eventType, data, metadata);
    Reassembled(bytes, rec, expected);
    OnlyRecord(bytes, rec);
    return Ok(rec);
  }

  lemma FrontOfRecord(rec: Record, bytes: seq<Byte>)
    requires WellFormed(rec)
    ensures |RecordBytes(rec)| == RecordSize(rec.header)
    ensures RecordBytes(rec) <= bytes ==> |bytes| >= HEADER_SIZE && bytes[..HEADER_SIZE] == HeaderBytes(rec.header)
    ensures HeaderBytes(rec.header)[..4] == MAGIC && HeaderBytes(rec.header)[4] == VERSION
  {
    HeaderFront(rec.header);
    if RecordBytes(rec) <= bytes {
      assert bytes[..HEADER_SIZE] == RecordBytes(rec)[..HEADER_SIZE];
    }
  }

  lemma Reassembled(bytes: seq<Byte>, rec: Record, expected: nat)
    requires HEADER_SIZE <= |bytes| && bytes[..HEADER_SIZE] == HeaderBytes(rec.header)
    requires expected == RecordSize(rec.header) <= |bytes|
    requires var e, d := HEADER_SIZE + rec.header.eventLength, HEADER_SIZE + rec.header.eventLength + rec.header.dataLength;
             rec.eventType == bytes[HEADER_SIZE..e] && rec.data == bytes[e..d] && rec.metadata == bytes[d..expected]
    ensures Consistent(rec) && RecordBytes(rec) == bytes[..expected]
  {
    var e, d := HEADER_SIZE + rec.header.eventLength, HEADER_SIZE + rec.header.eventLength + rec.header.dataLength;
    Cut(bytes, e, d, expected);
    Cut(bytes, HEADER_SIZE, e, expected);
    Cut(bytes, 0, HEADER_SIZE, expected);
    assert bytes[0..HEADER_SIZE] == bytes[..HEADER_SIZE] && bytes[0..expected] == bytes[..expected];
  }

  lemma OnlyRecord(bytes: seq<Byte>, rec: Record)
    requires Consistent(rec) && RecordBytes(rec) <= bytes
    ensures forall other :: Consistent(other) && RecordBytes(other) <= bytes ==> other == rec
  {
    forall other | Consistent(other) && RecordBytes(other) <= bytes ensures other == rec {
      var n, k := |RecordBytes(rec)|, |RecordBytes(other)|;
      assert bytes == RecordBytes(rec) + bytes[n..] && bytes == RecordBytes(other) + bytes[k..];
      RecordsAreSelfDelimiting(rec, bytes[n..], other, bytes[k..]);
    }
  }

  /** A record survives encoding and decoding, whatever follows it, exactly if it is well formed. */
  method RecordRoundTrip(rec: Record, suffix: seq<Byte>) returns (r: Result<Record, StorageError>)
    ensures r == Ok(rec) <==> WellFormed(rec)
    ensures WellFormed(rec) ==> |RecordBytes(rec)| == RecordSize(rec.header)
  {
    var bytes := RecordToBytes(rec);
    r := RecordFromBytes(bytes + suffix);
    if WellFormed(rec) { FrontOfRecord(rec, bytes); }
  }

  // ---- streams of records ----

  function StreamBytes(rs: seq<Record>): seq<Byte> {
    if rs == [] then [] else RecordBytes(rs[0]) + StreamBytes(rs[1..])
  }

  /** A stream of records can be split in one way only. */
  lemma {:induction false} StreamsSplitUniquely(a: seq<Record>, b: seq<Record>)
    requires (forall r :: r in a ==> Consistent(r)) && (forall r :: r in b ==> Consistent(r))
    requires StreamBytes(a) == StreamBytes(b)
    ensures a == b
  {
    if a != [] && b != [] {
      RecordsAreSelfDelimiting(a[0], StreamBytes(a[1..]), b[0], StreamBytes(b[1..]));
      StreamsSplitUniquely(a[1..], b[1..]);
      assert a == [a[0]] + a[1..] && b == [b[0]] + b[1..];
    } else {
      assert a != [] ==> |StreamBytes(a)| >= HEADER_SIZE;
      assert b != [] ==> |StreamBytes(b)| >= HEADER_SIZE;
    }
  }
}
