/** The hash-linked chain (`lib.rs` of the worm crate). The hash is any function from bytes to digests. */
module WormChain {
  import opened Basics
  import opened Wrappers
  import opened Bytes
  import opened Words
  import opened WormRecord

  type Hash = seq<Byte> -> Digest

  datatype ChainError = TamperDetected

  function Content(r: Record): seq<Byte> { r.eventType + r.data + r.metadata }

  function Last(records: seq<Record>): seq<Byte>
    requires records != []
  {
    RecordBytes(records[|records| - 1])
  }

  /** What the next record must carry as its previous hash. */
  function Tip(hash: Hash, records: seq<Record>): Digest {
    if records == [] then GENESIS_HASH else hash(Last(records))
  }

  /** The record carries the hash of the chain before it and of its own content. */
  ghost predicate Linked(hash: Hash, before: seq<Record>, r: Record) {
    r.header.previousHash == Tip(hash, before) && r.header.contentHash == hash(Content(r))
  }

  ghost predicate Verified(hash: Hash, records: seq<Record>) {
    forall i :: 0 <= i < |records| ==> Linked(hash, records[..i], records[i])
  }

  /** The record that `append` adds: lengths are truncated to their field widths. */
  function NextRecord(hash: Hash, records: seq<Record>, eventType: seq<Byte>, data: seq<Byte>, metadata: seq<Byte>,
                      timestampNs: U64): Record {
    var header := NewHeader().(
      eventLength := |eventType| % 0x1_0000, dataLength := |data| % 0x1_0000_0000,
      metadataLength := |metadata| % 0x1_0000_0000, timestampNs := timestampNs,
      previousHash := Tip(hash, records), contentHash := hash(eventType + data + metadata));
    Record(header, eventType, data, metadata)
  }

  class Chain {
    const hash: Hash
    var records: seq<Record>

    /** A chain made by appending verifies. */
    ghost predicate Valid()
      reads this
    {
      Verified(hash, records)
    }

    constructor (hash: Hash)
      ensures Valid() && this.hash == hash && records == []
    {
      this.hash := hash;
      records := [];
    }

    method Append(eventType: seq<Byte>, data: seq<Byte>, metadata: seq<Byte>, timestampNs: U64)
      requires Valid()
      modifies this
      ensures Valid()
      ensures records == old(records) + [NextRecord(hash, old(records), eventType, data, metadata, timestampNs)]
      ensures var r := records[|records| - 1];
              && r.eventType == eventType && r.data == data && r.metadata == metadata
              && r.header.magic == [0x57, 0x4F, 0x52, 0x4D] && r.header.version == 1 && r.header.flags == 0
              && r.header.eventLength == |eventType| % 0x1_0000 && r.header.dataLength == |data| % 0x1_0000_0000
              && r.header.metadataLength == |metadata| % 0x1_0000_0000 && r.header.timestampNs == timestampNs
              && r.header.contentHash == hash(eventType + data + metadata)
              && r.header.previousHash == (if old(records) == [] then seq(32, _ => 0)
                                           else hash(RecordBytes(old(records)[|old(records)| - 1])))
              && r.header.signature == seq(64, _ => 0)
    {
      var header := NewHeader();
      header := header.(eventLength := |eventType| % 0x1_0000);
      header := header.(dataLength := |data| % 0x1_0000_0000);
      header := header.(metadataLength := |metadata| % 0x1_0000_0000);
      header := header.(timestampNs := timestampNs);
      if records != [] {
        var lastBytes := RecordToBytes(records[|records| - 1]);
        header := header.(previousHash := hash(lastBytes));
      }
      var content := eventType + data + metadata;
      header := header.(contentHash := hash(content));
      var record := Record(header, eventType, data, metadata);
      AppendVerifies(hash, records, record);
      records := records + [record];
    }

    /** `verify`: `Ok(true)` exactly for chains in which every link and every content hash is right. */
    method Verify() returns (r: Result<bool, ChainError>)
      ensures r == if Verified(hash, records) then Ok(true) else Err(TamperDetected)
    {
      var prevHash := GENESIS_HASH;
      for i := 0 to |records|
        invariant prevHash == Tip(hash, records[..i]) && Verified(hash, records[..i])
      {
        var record := records[i];
        assert records[..i + 1] == records[..i] + [record];
        VerifiedMore(hash, records, i);
        if record.header.previousHash != prevHash { return Err(TamperDetected); }
        var content := record.eventType + record.data + record.metadata;
        if hash(content) != record.header.contentHash { return Err(TamperDetected); }
        var bytes := RecordToBytes(record);
        prevHash := hash(bytes);
      }
      assert records[..|records|] == records;
      return Ok(true);
    }
  }

  lemma AppendVerifies(hash: Hash, records: seq<Record>, record: Record)
    ensures Verified(hash, records + [record]) <==> Verified(hash, records) && Linked(hash, records, record)
  {
    var all := records + [record];
    assert all[..|records|] == records && all[|records|] == record;
    assert forall i :: 0 <= i < |records| ==> all[..i] == records[..i] && all[i] == records[i];
    if Verified(hash, all) {
      forall i | 0 <= i < |records| ensures Linked(hash, records[..i], records[i]) {
        assert Linked(hash, all[..i], all[i]);
      }
    }
  }

  lemma VerifiedMore(hash: Hash, records: seq<Record>, i: nat)
    requires i < |records|
    ensures Verified(hash, records) ==> Linked(hash, records[..i], records[i])
    ensures Verified(hash, records[..i + 1]) <==> Verified(hash, records[..i]) && Linked(hash, records[..i], records[i])
  {
    assert records[..i + 1] == records[..i] + [records[i]];
    AppendVerifies(hash, records[..i], records[i]);
  }

  /** What `verify` accepts: each record carries the hash of its own payload and of the bytes of the record before
      it, the first one 32 zeros. */
  lemma VerifiedExactly(hash: Hash, records: seq<Record>)
    ensures Verified(hash, records) <==> forall i :: 0 <= i < |records| ==>
              && records[i].header.contentHash == hash(records[i].eventType + records[i].data + records[i].metadata)
              && records[i].header.previousHash ==
                   if i == 0 then seq(32, _ => 0) else hash(RecordBytes(records[i - 1]))
  {
    forall i | 0 <= i < |records|
      ensures Tip(hash, records[..i]) == if i == 0 then seq(32, _ => 0) else hash(RecordBytes(records[i - 1]))
    {
      if i > 0 { assert records[..i][i - 1] == records[i - 1]; }
    }
  }

  /** Every prefix of a verifying chain verifies. */
  lemma PrefixesVerify(hash: Hash, records: seq<Record>, n: nat)
    requires Verified(hash, records) && n <= |records|
    ensures Verified(hash, records[..n])
  {
    forall i | 0 <= i < n ensures Linked(hash, records[..n][..i], records[..n][i]) {
      assert records[..n][..i] == records[..i];
    }
  }

  /** `append` makes a record that reads back exactly when its parts fit their length fields. */
  lemma AppendedIsWellFormed(hash: Hash, records: seq<Record>, eventType: seq<Byte>, data: seq<Byte>, metadata: seq<Byte>,
                             timestampNs: U64)
    ensures WellFormed(NextRecord(hash, records, eventType, data, metadata, timestampNs)) <==>
              |eventType| < 0x1_0000 && |data| < 0x1_0000_0000 && |metadata| < 0x1_0000_0000
  {
  }

  // ---- one history ----

  /** Two byte strings that the hash does not tell apart. */
  ghost predicate Collide(hash: Hash, x: seq<Byte>, y: seq<Byte>) { x != y && hash(x) == hash(y) }

  /** The byte strings that a chain hashes to link its records. */
  ghost function Written(records: seq<Record>): set<seq<Byte>> { set r | r in records :: RecordBytes(r) }

  /** Two different records of two chains with the same hash. */
  ghost predicate Clash(hash: Hash, a: seq<Record>, b: seq<Record>, x: seq<Byte>, y: seq<Byte>) {
    x in Written(a) && y in Written(b) && Collide(hash, x, y)
  }

  /** A record of chains of different lengths whose hash is the one that stands for no record. */
  ghost predicate ZeroHash(hash: Hash, a: seq<Record>, b: seq<Record>, x: seq<Byte>) {
    x in Written(a) + Written(b) && hash(x) == GENESIS_HASH && |a| != |b|
  }

  ghost predicate AllConsistent(records: seq<Record>) { forall r :: r in records ==> Consistent(r) }

  /** The same chain as it is written: equal headers and equal payloads, however the payloads are divided. */
  ghost predicate SameWritten(a: seq<Record>, b: seq<Record>) {
    |a| == |b| && forall i :: 0 <= i < |a| ==> SameOnTheWire(a[i], b[i])
  }

  ghost predicate SameOnTheWire(r: Record, s: Record) { r.header == s.header && Content(r) == Content(s) }

  /** The payloads are divided at the same places. */
  ghost predicate SameDivision(a: seq<Record>, b: seq<Record>)
    requires |a| == |b|
  {
    forall i :: 0 <= i < |a| ==> |a[i].eventType| == |b[i].eventType| && |a[i].data| == |b[i].data|
  }

  lemma SamePayload(r: Record)
    ensures RecordBytes(r) == HeaderBytes(r.header) + Content(r)
  {
    Assoc(r.eventType, r.data, r.metadata);
  }

  /** The bytes of a record determine its header and its payload, and nothing more. */
  lemma BytesDetermineContent(r: Record, s: Record)
    ensures RecordBytes(r) == RecordBytes(s) <==> SameOnTheWire(r, s)
  {
    SamePayload(r);
    SamePayload(s);
    if RecordBytes(r) == RecordBytes(s) {
      SamePrefix(HeaderBytes(r.header), Content(r), HeaderBytes(s.header), Content(s));
      HeaderBytesInjective(r.header, s.header);
    }
  }

  lemma DivisionDeterminesRecord(r: Record, s: Record)
    requires SameOnTheWire(r, s)
    ensures r == s <==> |r.eventType| == |s.eventType| && |r.data| == |s.data|
    ensures Consistent(r) && Consistent(s) ==> r == s
  {
    if |r.eventType| == |s.eventType| && |r.data| == |s.data| {
      Assoc(r.eventType, r.data, r.metadata);
      Assoc(s.eventType, s.data, s.metadata);
      SamePrefix(r.eventType, r.data + r.metadata, s.eventType, s.data + s.metadata);
      SamePrefix(r.data, r.metadata, s.data, s.metadata);
    }
  }

  lemma SameLast(hash: Hash, a: seq<Record>, b: seq<Record>)
    requires Verified(hash, a) && Verified(hash, b) && a != [] && b != [] && Last(a) == Last(b)
    ensures SameOnTheWire(a[|a| - 1], b[|b| - 1])
    ensures Verified(hash, a[..|a| - 1]) && Verified(hash, b[..|b| - 1])
    ensures Tip(hash, a[..|a| - 1]) == Tip(hash, b[..|b| - 1])
  {
    var r, s := a[|a| - 1], b[|b| - 1];
    BytesDetermineContent(r, s);
    PrefixesVerify(hash, a, |a| - 1);
    PrefixesVerify(hash, b, |b| - 1);
    assert Linked(hash, a[..|a| - 1], r) && Linked(hash, b[..|b| - 1], s);
  }

  lemma WrittenMore(a: seq<Record>, b: seq<Record>)
    requires a != [] && b != [] && SameOnTheWire(a[|a| - 1], b[|b| - 1]) && SameWritten(a[..|a| - 1], b[..|b| - 1])
    ensures SameWritten(a, b)
  {
    forall i | 0 <= i < |a| ensures SameOnTheWire(a[i], b[i]) {
      if i < |a| - 1 { assert SameOnTheWire(a[..|a| - 1][i], b[..|b| - 1][i]); }
    }
  }

  lemma LastWritten(a: seq<Record>)
    ensures a != [] ==> Last(a) in Written(a)
  {
    if a != [] { assert a[|a| - 1] in a; }
  }

  lemma PrefixWritten(a: seq<Record>)
    requires a != []
    ensures Written(a[..|a| - 1]) <= Written(a)
  {
    forall x | x in Written(a[..|a| - 1]) ensures x in Written(a) {
      var r :| r in a[..|a| - 1] && RecordBytes(r) == x;
      assert r in a;
    }
  }

  /** Chains that verify and end in the same hash are the same as written; otherwise the proof finds two of their
      records with equal hashes, or one with the all-zero hash, which takes chains of different lengths. */
  lemma {:induction false} HistoryAsWritten(hash: Hash, a: seq<Record>, b: seq<Record>) returns (x: seq<Byte>, y: seq<Byte>)
    requires Verified(hash, a) && Verified(hash, b) && Tip(hash, a) == Tip(hash, b)
    ensures SameWritten(a, b) || Clash(hash, a, b, x, y) || ZeroHash(hash, a, b, x)
  {
    LastWritten(a);
    LastWritten(b);
    x, y := [], [];
    if a != [] && b != [] {
      x, y := Last(a), Last(b);
      if x == y {
        SameLast(hash, a, b);
        x, y := HistoryAsWritten(hash, a[..|a| - 1], b[..|b| - 1]);
        if SameWritten(a[..|a| - 1], b[..|b| - 1]) { WrittenMore(a, b); }
        PrefixWritten(a);
        PrefixWritten(b);
      }
    } else if a != [] {
      x := Last(a);
    } else if b != [] {
      x := Last(b);
    }
  }

  /** Chains that are written alike are equal exactly if their payloads are divided at the same places; when
      the lengths in the headers are right they always are. */
  lemma WrittenAlikeIsEqual(a: seq<Record>, b: seq<Record>)
    requires SameWritten(a, b)
    ensures a == b <==> SameDivision(a, b)
    ensures AllConsistent(a) && AllConsistent(b) ==> a == b
  {
    forall i | 0 <= i < |a|
      ensures a[i] == b[i] <==> |a[i].eventType| == |b[i].eventType| && |a[i].data| == |b[i].data|
      ensures AllConsistent(a) && AllConsistent(b) ==> a[i] == b[i]
    {
      assert a[i] in a && b[i] in b;
      DivisionDeterminesRecord(a[i], b[i]);
    }
  }

  /** The last hash of a verifying chain fixes its history: any other chain that verifies with this hash is
      written alike, and equal exactly if it divides the payloads alike, unless a collision or a preimage of
      the zero hash is at hand. With consistent lengths it is equal. */
  lemma HistoryIsUnique(hash: Hash, a: seq<Record>, b: seq<Record>) returns (x: seq<Byte>, y: seq<Byte>)
    requires Verified(hash, a) && Verified(hash, b) && Tip(hash, a) == Tip(hash, b)
    ensures || (SameWritten(a, b) && (a == b <==> SameDivision(a, b)) && (AllConsistent(a) && AllConsistent(b) ==> a == b))
            || Clash(hash, a, b, x, y) || ZeroHash(hash, a, b, x)
  {
    x, y := HistoryAsWritten(hash, a, b);
    if SameWritten(a, b) { WrittenAlikeIsEqual(a, b); }
  }

  /** If the hash tells their records apart, equally long verifying chains with the same last hash are written
      alike, and equal exactly if they divide the payloads alike. */
  lemma CollisionFreeHistoryIsUnique(hash: Hash, a: seq<Record>, b: seq<Record>)
    requires forall x, y :: !Clash(hash, a, b, x, y)
    requires Verified(hash, a) && Verified(hash, b) && |a| == |b| && Tip(hash, a) == Tip(hash, b)
    ensures SameWritten(a, b) && (a == b <==> SameDivision(a, b))
    ensures AllConsistent(a) && AllConsistent(b) ==> a == b
  {
    var x, y := HistoryIsUnique(hash, a, b);
  }

  // ---- what the hash does not see ----

  /** Chains that are written alike are alike to `verify`: both verify or neither, and with the same last hash. */
  lemma DivisionIsNotHashed(hash: Hash, a: seq<Record>, b: seq<Record>)
    requires SameWritten(a, b)
    ensures Verified(hash, a) == Verified(hash, b) && Tip(hash, a) == Tip(hash, b)
  {
    SameTip(hash, a, b);
    forall i | 0 <= i < |a| ensures Linked(hash, a[..i], a[i]) == Linked(hash, b[..i], b[i]) {
      assert SameOnTheWire(a[i], b[i]);
      assert SameWritten(a[..i], b[..i]);
      SameTip(hash, a[..i], b[..i]);
    }
  }

  lemma SameTip(hash: Hash, a: seq<Record>, b: seq<Record>)
    requires SameWritten(a, b)
    ensures Tip(hash, a) == Tip(hash, b)
  {
    if a != [] { BytesDetermineContent(a[|a| - 1], b[|b| - 1]); }
  }

  /** A record can be divided in another way exactly if it has a payload. */
  lemma OtherDivisionExactlyWithPayload(r: Record)
    ensures (exists s :: s != r && SameOnTheWire(r, s)) <==> Content(r) != []
  {
    if Content(r) != [] {
      var s := Record(r.header, Content(r), [], []);
      var t := Record(r.header, [], Content(r), []);
      assert SameOnTheWire(r, s) && SameOnTheWire(r, t);
      assert r != s || r != t;
    } else {
      forall s | SameOnTheWire(r, s) ensures s == r {
        assert |Content(s)| == |s.eventType| + |s.data| + |s.metadata|;
        assert |Content(r)| == |r.eventType| + |r.data| + |r.metadata|;
      }
    }
  }

  /** A verifying chain with a payload in any of its records has a different verifying twin, written alike and
      with the same last hash. */
  lemma ChainHasATwin(hash: Hash, a: seq<Record>, i: nat) returns (s: Record)
    requires Verified(hash, a) && i < |a| && Content(a[i]) != []
    ensures s != a[i] && a[i := s] != a && SameWritten(a, a[i := s])
    ensures Verified(hash, a[i := s]) && Tip(hash, a[i := s]) == Tip(hash, a)
  {
    OtherDivisionExactlyWithPayload(a[i]);
    s :| s != a[i] && SameOnTheWire(a[i], s);
    assert a[i := s][i] == s;
    DivisionIsNotHashed(hash, a, a[i := s]);
  }

  lemma AloneWithoutPayload(a: seq<Record>, b: seq<Record>)
    requires SameWritten(a, b) && forall r :: r in a ==> Content(r) == []
    ensures a == b
  {
    hide SameOnTheWire;
    forall i | 0 <= i < |a| ensures a[i] == b[i] {
      assert a[i] in a && SameOnTheWire(a[i], b[i]);
      OtherDivisionExactlyWithPayload(a[i]);
    }
  }

  /** A verifying chain is the only one that verifies and is written as it is exactly if none of its records has a
      payload. */
  lemma OnlyOneExactlyWithoutPayload(hash: Hash, a: seq<Record>)
    requires Verified(hash, a)
    ensures (forall b :: |b| == |a| && Verified(hash, b) && SameWritten(a, b) ==> a == b) <==>
            (forall r :: r in a ==> Content(r) == [])
  {
    hide Verified, SameWritten, Content;
    if r :| r in a && Content(r) != [] {
      var i :| 0 <= i < |a| && a[i] == r;
      var s := ChainHasATwin(hash, a, i);
      assert |a[i := s]| == |a|;
    } else {
      forall b | |b| == |a| && Verified(hash, b) && SameWritten(a, b) ensures a == b {
        AloneWithoutPayload(a, b);
      }
    }
  }
}
