/**
 * `parseDNSResponse`: a fixed-offset reader of the last resource record
 * (section 4.1.3 of RFC 1035) of a response, assuming that record has a
 * compressed two-byte name and a four-byte RDATA. Nothing before the last
 * 14 bytes is looked at.
 */
module Response {
  import opened Wire
  import opened Results
  import opened Tables

  /** The `Answer` struct; `ip` keeps the four address bytes. */
  datatype Answer = Answer(name: seq<byte>, ip: seq<byte>, ttl: uint32, recordType: string, recordClass: string)

  /**
   * `parseDNSResponse(response, domain)`. The Go code indexes out of range on
   * responses shorter than 14 bytes, hence the precondition; otherwise it
   * never reports an error.
   */
  function ParseResponse(response: seq<byte>, domain: seq<byte>): (r: Result<Answer>)
    requires |response| >= 14
    ensures r.Ok?
    ensures r.value.name == domain
    ensures r.value.ip == response[|response| - 4..]
    ensures r.value.ttl == ReadU32(response[|response| - 10..|response| - 6])
    ensures r.value.recordType == TypeName(response[|response| - 13])
    ensures r.value.recordClass == ClassName(response[|response| - 11])
  {
    var n := |response|;
    var ipStart, ttlStart, classStart, typeStart := n - 4, n - 10, n - 12, n - 14;
    var ip := response[ipStart..ipStart + 4];
    var ttl := ReadU32(response[ttlStart..ttlStart + 4]);
    var typeNum := ReadU16(response[typeStart..typeStart + 2]);
    var recordType := TypeName(Truncate8(typeNum));
    var classNum := ReadU16(response[classStart..classStart + 2]);
    var recordClass := ClassName(Truncate8(classNum));
    Truncate8OfRead(response[typeStart..typeStart + 2]);
    Truncate8OfRead(response[classStart..classStart + 2]);
    Ok(Answer(domain, ip, ttl, recordType, recordClass))
  }

  /** A resource record whose owner name is a two-byte compression pointer. */
  datatype ResourceRecord = ResourceRecord(namePointer: uint16, rrType: uint16, rrClass: uint16, ttl: uint32, rdata: seq<byte>)

  /** The wire form of a record: name, TYPE, CLASS, TTL, RDLENGTH, RDATA. */
  function EncodeRecord(rr: ResourceRecord): (b: seq<byte>)
    requires |rr.rdata| < 0x1_0000
  {
    U16Bytes(rr.namePointer) + U16Bytes(rr.rrType) + U16Bytes(rr.rrClass)
      + U32Bytes(rr.ttl) + U16Bytes(|rr.rdata|) + rr.rdata
  }

  /**
   * Whatever precedes it, a final record with four bytes of RDATA decodes
   * to its address and TTL, and to the names of the low bytes of its type
   * and class codes.
   */
  lemma ParseEncodedRecord(prefix: seq<byte>, rr: ResourceRecord, domain: seq<byte>)
    requires |rr.rdata| == 4
    ensures var response := prefix + EncodeRecord(rr);
      && |response| >= 14
      && ParseResponse(response, domain)
         == Ok(Answer(domain, rr.rdata, rr.ttl, TypeName(Truncate8(rr.rrType)), ClassName(Truncate8(rr.rrClass))))
  {
    var response := prefix + EncodeRecord(rr);
    var n := |response|;
    assert response[n - 4..] == rr.rdata;
    assert response[n - 10..n - 6] == U32Bytes(rr.ttl);
    assert response[n - 14..n - 12] == U16Bytes(rr.rrType);
    assert response[n - 12..n - 10] == U16Bytes(rr.rrClass);
    U32RoundTrip(rr.ttl);
    U16RoundTrip(rr.rrType);
    U16RoundTrip(rr.rrClass);
  }

  /** The bytes the decoder reads: type and class low bytes, TTL, address. */
  predicate SameReadBytes(r1: seq<byte>, r2: seq<byte>)
    requires |r1| >= 14 && |r2| >= 14
  {
    && r1[|r1| - 13] == r2[|r2| - 13]
    && r1[|r1| - 11] == r2[|r2| - 11]
    && r1[|r1| - 10..|r1| - 6] == r2[|r2| - 10..|r2| - 6]
    && r1[|r1| - 4..] == r2[|r2| - 4..]
  }

  /**
   * The answer depends only on those ten bytes: not on anything before the
   * last 14, nor on the high bytes of the type and class codes, nor on the
   * RDLENGTH field.
   */
  lemma ParseReadsOnly(r1: seq<byte>, r2: seq<byte>, domain: seq<byte>)
    requires |r1| >= 14 && |r2| >= 14
    requires SameReadBytes(r1, r2)
    ensures ParseResponse(r1, domain) == ParseResponse(r2, domain)
  {
    var n1, n2 := |r1|, |r2|;
    Truncate8OfRead(r1[n1 - 14..n1 - 12]);
    Truncate8OfRead(r2[n2 - 14..n2 - 12]);
    Truncate8OfRead(r1[n1 - 12..n1 - 10]);
    Truncate8OfRead(r2[n2 - 12..n2 - 10]);
  }

  /** In particular the answer depends only on the last 14 bytes. */
  lemma ParseDependsOnTail(r1: seq<byte>, r2: seq<byte>, domain: seq<byte>)
    requires |r1| >= 14 && |r2| >= 14
    requires r1[|r1| - 14..] == r2[|r2| - 14..]
    ensures ParseResponse(r1, domain) == ParseResponse(r2, domain)
  {
    var t1, t2 := r1[|r1| - 14..], r2[|r2| - 14..];
    assert r1[|r1| - 13] == t1[1] && r2[|r2| - 13] == t2[1];
    assert r1[|r1| - 11] == t1[3] && r2[|r2| - 11] == t2[3];
    assert r1[|r1| - 10..|r1| - 6] == t1[4..8] && r2[|r2| - 10..|r2| - 6] == t2[4..8];
    assert r1[|r1| - 4..] == t1[10..] && r2[|r2| - 4..] == t2[10..];
    ParseReadsOnly(r1, r2, domain);
  }

  /** A typical A answer: type 1, class 1, TTL 60, address 192.0.2.1. */
  lemma ParseTypicalAnswer(prefix: seq<byte>, domain: seq<byte>)
    ensures ParseResponse(prefix + [0xC0, 0x0C, 0, 1, 0, 1, 0, 0, 0, 60, 0, 4, 192, 0, 2, 1], domain)
            == Ok(Answer(domain, [192, 0, 2, 1], 60, "A", "IN"))
  {
    var rr := ResourceRecord(0xC00C, 1, 1, 60, [192, 0, 2, 1]);
    assert U16Bytes(0xC00C) == [0xC0, 0x0C] && U16Bytes(1) == [0, 1] && U16Bytes(1) == [0, 1];
    assert U32Bytes(60) == [0, 0, 0, 60] && U16Bytes(4) == [0, 4];
    assert EncodeRecord(rr) == [0xC0, 0x0C, 0, 1, 0, 1, 0, 0, 0, 60, 0, 4, 192, 0, 2, 1];
    assert TypeName(Truncate8(1)) == "A" && ClassName(Truncate8(1)) == "IN";
    ParseEncodedRecord(prefix, rr, domain);
  }

  /** An unknown type code (99) gives the empty type name, not an error. */
  lemma ParseUnknownType(prefix: seq<byte>, domain: seq<byte>)
    ensures var r := ParseResponse(prefix + [0xC0, 0x0C, 0, 99, 0, 1, 0, 0, 0, 60, 0, 4, 192, 0, 2, 1], domain);
      r.Ok? && r.value.recordType == "" && r.value.recordClass == "IN"
  {
    var rr := ResourceRecord(0xC00C, 99, 1, 60, [192, 0, 2, 1]);
    assert U16Bytes(0xC00C) == [0xC0, 0x0C] && U16Bytes(99) == [0, 99] && U16Bytes(1) == [0, 1];
    assert U32Bytes(60) == [0, 0, 0, 60] && U16Bytes(4) == [0, 4];
    assert EncodeRecord(rr) == [0xC0, 0x0C, 0, 99, 0, 1, 0, 0, 0, 60, 0, 4, 192, 0, 2, 1];
    assert TypeName(Truncate8(99)) == "" && ClassName(Truncate8(1)) == "IN";
    ParseEncodedRecord(prefix, rr, domain);
  }
}
