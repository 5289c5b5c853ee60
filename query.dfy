/**
 * `buildDNSQuery`: a query message with a 12-byte header (section 4.1.1 of
 * RFC 1035) and one question (section 4.1.2) asking for the A record of
 * the domain in class IN. The random transaction ID is a parameter here.
 */
module Query {
  import opened Wire
  import opened Results
  import opened Labels

  const FLAGS: uint16 := 0x0100     // standard query, recursion desired
  const QDCOUNT: uint16 := 1
  const QTYPE_A: uint16 := 1
  const QCLASS_IN: uint16 := 1

  /** The header: ID, flags, one question, no answer, authority or additional records. */
  function Header(id: uint16): seq<byte>
  {
    U16Bytes(id) + U16Bytes(FLAGS) + U16Bytes(QDCOUNT) + U16Bytes(0) + U16Bytes(0) + U16Bytes(0)
  }

  /** The question: the split labels, a zero terminator, QTYPE A and QCLASS IN. */
  function Question(domain: seq<byte>): seq<byte>
  {
    EncodeLabels(Split(domain)) + [0x00] + U16Bytes(QTYPE_A) + U16Bytes(QCLASS_IN)
  }

  /** The whole datagram `buildDNSQuery` returns for `domain` and transaction `id`. */
  function QueryMessage(domain: seq<byte>, id: uint16): seq<byte>
  {
    Header(id) + Question(domain)
  }

  /** `binary.BigEndian.PutUint16(b[off:off+2], v)`. */
  method PutUint16(b: array<byte>, off: nat, v: uint16)
    requires off + 2 <= b.Length
    modifies b
    ensures b[off] == U16Bytes(v)[0] && b[off + 1] == U16Bytes(v)[1]
    ensures forall i :: 0 <= i < b.Length && i != off && i != off + 1 ==> b[i] == old(b[i])
  {
    b[off] := v / 0x100;
    b[off + 1] := v % 0x100;
  }

  /** The six `PutUint16` calls that fill the header in place. */
  method FillHeader(header: array<byte>, id: uint16)
    requires header.Length == 12
    modifies header
    ensures header[..] == Header(id)
  {
    PutUint16(header, 0, id);
    PutUint16(header, 2, FLAGS);
    PutUint16(header, 4, QDCOUNT);
    PutUint16(header, 6, 0);
    PutUint16(header, 8, 0);
    PutUint16(header, 10, 0);
    var h := Header(id);
    assert h == [id / 0x100, id % 0x100, 0x01, 0x00, 0x00, 0x01, 0x00, 0x00, 0x00, 0x00, 0x00, 0x00];
    assert forall k :: 0 <= k < 12 ==> header[k] == h[k];
  }

  /**
   * `buildDNSQuery(domain)` with `rand.Intn(1000)` replaced by `id`: fills a
   * 12-byte header in place, then grows the question label by label.
   */
  method BuildDnsQuery(domain: seq<byte>, id: nat) returns (r: Result<seq<byte>>)
    requires id < 1000
    ensures r == Ok(QueryMessage(domain, id))
  {
    var header := new byte[12];
    FillHeader(header, id);

    var question: seq<byte> := [];
    var labels := Split(domain);
    for i := 0 to |labels|
      invariant question == EncodeLabels(labels[..i])
      invariant header[..] == Header(id)
    {
      EncodeLabelsAppend(labels[..i], labels[i]);
      assert labels[..i + 1] == labels[..i] + [labels[i]];
      Assoc(question, [|labels[i]| % 0x100], labels[i]);
      question := question + [|labels[i]| % 0x100];
      question := question + labels[i];
    }
    assert labels[..|labels|] == labels;
    question := question + [0x00];
    question := question + [0x00, 0x01];
    question := question + [0x00, 0x01];
    assert U16Bytes(QTYPE_A) == U16Bytes(QCLASS_IN) == [0x00, 0x01];
    assert question == Question(domain);
    r := Ok(header[..] + question);
  }

  /** What follows the labels: the terminator, QTYPE A and QCLASS IN. */
  const TRAILER: seq<byte> := [0x00, 0x00, 0x01, 0x00, 0x01]

  /** The query is the 12-byte header, the encoded labels and the trailer. */
  lemma QueryParts(domain: seq<byte>, id: uint16)
    ensures |Header(id)| == 12
    ensures QueryMessage(domain, id) == Header(id) + (EncodeLabels(Split(domain)) + TRAILER)
  {
    var n := EncodeLabels(Split(domain));
    var u := U16Bytes(1);
    assert u == [0x00, 0x01];
    Assoc(n + [0x00], u, u);
    Assoc(n, [0x00], u + u);
  }

  /** Every query is exactly 18 bytes longer than its domain. */
  lemma QueryLength(domain: seq<byte>, id: uint16)
    ensures |QueryMessage(domain, id)| == |domain| + 18
  {
    QueryParts(domain, id);
    EncodedLength(Split(domain));
    JoinSplit(domain);
  }

  /**
   * Bytes 0..1 carry the ID big-endian (below 1000, so byte 0 is at most 3);
   * bytes 2..11 are flags 0x0100, QDCOUNT 1 and three zero counts.
   */
  lemma HeaderLayout(domain: seq<byte>, id: uint16)
    requires id < 1000
    ensures var q := QueryMessage(domain, id);
      && |q| >= 12
      && ReadU16(q[0..2]) == id && q[0] <= 3
      && q[2..12] == [0x01, 0x00, 0x00, 0x01, 0x00, 0x00, 0x00, 0x00, 0x00, 0x00]
  {
    QueryParts(domain, id);
    var h := Header(id);
    AppendSlices(h, EncodeLabels(Split(domain)) + TRAILER);
    assert h[0..2] == U16Bytes(id);
    assert h[2..12] == [0x01, 0x00, 0x00, 0x01, 0x00, 0x00, 0x00, 0x00, 0x00, 0x00];
    U16RoundTrip(id);
  }

  /** Every query ends with the terminator, QTYPE A and QCLASS IN. */
  lemma QueryTrailer(domain: seq<byte>, id: uint16)
    ensures var q := QueryMessage(domain, id);
      |q| >= 5 && q[|q| - 5..] == [0x00, 0x00, 0x01, 0x00, 0x01]
  {
    QueryParts(domain, id);
    var h, n := Header(id), EncodeLabels(Split(domain));
    Assoc(h, n, TRAILER);
    AppendSlices(h + n, TRAILER);
  }

  /**
   * From offset 12 the query spells the domain: a leading length byte for
   * the first label, then the domain with each dot replaced by the length
   * (modulo 256) of the label after it, then the zero terminator.
   */
  lemma QuestionLayout(domain: seq<byte>, id: uint16)
    ensures var q := QueryMessage(domain, id);
      && |q| == |domain| + 18
      && q[12] == RunLength(domain) % 0x100
      && q[13..|domain| + 13] == DotsToLengths(domain)
      && q[|domain| + 13] == 0x00
  {
    QueryParts(domain, id);
    EncodeSplitLayout(domain);
    var h, n := Header(id), EncodeLabels(Split(domain));
    AppendSlices(h, n + TRAILER);
    AppendSlices(n, TRAILER);
    assert |n| == |domain| + 1;
  }

  /** The empty domain is one empty label: a single zero length byte before the trailer. */
  lemma EmptyDomainEncoding(id: uint16)
    ensures QueryMessage([], id) == Header(id) + [0x00, 0x00, 0x00, 0x01, 0x00, 0x01]
  {
  }

  /** Reads the name of the question back: labels from offset 12, joined with dots. */
  function ReadQuestionName(q: seq<byte>): Option<seq<byte>>
  {
    if |q| < 12 then None
    else
      match DecodeLabels(q[12..])
      case None => None
      case Some(labels) => Some(Join(labels))
  }

  /** A domain whose labels are all non-empty and shorter than 256 bytes. */
  predicate WellFormedDomain(domain: seq<byte>)
  {
    var labels := Split(domain);
    forall i :: 0 <= i < |labels| ==> 0 < |labels[i]| < 0x100
  }

  /**
   * When every label is shorter than 256 bytes, reading the question name
   * back gives the labels before the first empty one, joined with dots: an
   * empty label's zero length byte reads as the end of the name.
   */
  lemma QuestionNameReadBack(domain: seq<byte>, id: uint16)
    requires forall i :: 0 <= i < |Split(domain)| ==> |Split(domain)[i]| < 0x100
    ensures ReadQuestionName(QueryMessage(domain, id)) == Some(Join(UpToEmpty(Split(domain))))
  {
    var labels := Split(domain);
    var tail := [0x00, 0x01, 0x00, 0x01];
    QueryParts(domain, id);
    AppendSlices(Header(id), EncodeLabels(labels) + TRAILER);
    assert TRAILER == [0x00] + tail;
    Assoc(EncodeLabels(labels), [0x00], tail);
    DecodeEncodeLabels(labels, tail);
  }

  /** For a well-formed domain, reading the question name back gives the domain. */
  lemma QuestionNameRoundTrip(domain: seq<byte>, id: uint16)
    requires WellFormedDomain(domain)
    ensures ReadQuestionName(QueryMessage(domain, id)) == Some(domain)
  {
    QuestionNameReadBack(domain, id);
    assert UpToEmpty(Split(domain)) == Split(domain);
    JoinSplit(domain);
  }

  /**
   * The length byte wraps: a single 256-byte label is written with length
   * byte 0, so reading the question back stops at once with the empty name.
   */
  lemma LongLabelReadsAsEmpty(domain: seq<byte>, id: uint16)
    requires |domain| == 0x100 && DOT !in domain
    ensures QueryMessage(domain, id)[12] == 0
    ensures ReadQuestionName(QueryMessage(domain, id)) == Some([])
  {
    JoinCons(domain, []);
    assert Join([domain]) == domain;
    SplitJoin([domain]);
    QueryParts(domain, id);
    AppendSlices(Header(id), EncodeLabels([domain]) + TRAILER);
    EncodeCons(domain, []);
    assert EncodeLabels([domain]) == [0] + domain;
    Assoc([0], domain, TRAILER);
  }
}
