# DNS-Lookup wire format, modelled in Dafny

DNS-Lookup resolves a list of domains concurrently by sending hand-built
DNS query datagrams over UDP and picking the answer out of the raw
response. This project models its wire-format core in `main.go`:

- `buildDNSQuery` (module `Query`): a 12-byte header (section 4.1.1 of
  RFC 1035) with the transaction ID, flags 0x0100, QDCOUNT 1 and zero
  answer, authority and additional counts; then one question (section
  4.1.2): the domain split on `.`, each label written as a length byte
  and its bytes (section 3.1), a zero terminator, QTYPE A and QCLASS IN.
  `BuildDnsQuery` is the imperative encoder (the header array filled in
  place, the question grown in a loop), proved equal to the function
  `QueryMessage`, about which the layout properties are proved.
- `parseDNSResponse` (module `Response`): the fixed-offset decoder that
  reads the address from the last 4 bytes, the TTL from the 4 bytes at
  len-10, and the class and type codes from the 2 bytes at len-12 and
  len-14, each truncated to its low byte by `uint8(...)`.
- `classParser` and `typeParser` (module `Tables`): the code-to-name maps
  of sections 3.2.4 and 3.2.2 of RFC 1035, with "" for unknown codes.
- `strings.Split(domain, ".")`, its inverse `strings.Join`, the label
  encoding and a reader of it (module `Labels`); big-endian integers and
  the `uint8` truncation (module `Wire`); Go's `(value, error)` returns as
  `Result` (module `Results`).

Domains are byte sequences (`seq<byte>`), as Go strings are, so a label's
length is its byte count. The random transaction ID is a parameter
`id < 1000`, standing in for `rand.Intn(1000)`.

## Model

| member | source | states |
|---|---|---|
| `Query.BuildDnsQuery` | main.go:45-73 | for every domain and every id below 1000 the encoder returns no error and exactly the message `QueryMessage(domain, id)`: header array filled by six `PutUint16` calls, then the question built label by label (loop invariant: the question so far is the encoding of the labels so far) |
| `Query.PutUint16` | main.go:54-59 | writes the two big-endian bytes of the value at the offset and leaves every other byte of the array unchanged |
| `Query.FillHeader` | main.go:53-59 | after the six `PutUint16` calls the 12-byte header array holds exactly `Header(id)`: ID, flags 0x0100, QDCOUNT 1, three zero counts |
| `Query.QueryParts` | main.go:67-72 | the query is the 12-byte header, the encoded labels, and the five bytes `00 00 01 00 01` |
| `Query.QueryLength` | main.go:53-72 | every query is exactly 18 bytes longer than its domain: 12 header bytes, domain length + 1 bytes of labels, terminator, QTYPE and QCLASS |
| `Query.HeaderLayout` | main.go:47-59 | bytes 0..1 hold the transaction ID big-endian (it reads back as the ID, below 1000, so byte 0 is at most 3); bytes 2..11 are `01 00 00 01 00 00 00 00 00 00` |
| `Query.QueryTrailer` | main.go:67-72 | every query ends with `00 00 01 00 01`: terminator, QTYPE A, QCLASS IN |
| `Query.QuestionLayout` | main.go:62-67 | from offset 12 the query is a length byte for the first label, then the domain with each dot replaced by the length (mod 256) of the label after it, then a zero byte |
| `Query.EmptyDomainEncoding` | main.go:62-72 | the empty domain splits into one empty label, written as a single `00` length byte before the terminator, QTYPE and QCLASS |
| `Query.QuestionNameReadBack` | main.go:63-67 | with every label under 256 bytes, reading the name back from offset 12 gives the labels before the first empty one joined with dots: an empty label's `00` byte ends the name early |
| `Query.QuestionNameRoundTrip` | main.go:63-67 | for a domain whose labels are all non-empty and shorter than 256 bytes, reading length-prefixed labels from offset 12 up to the first zero byte and joining them with dots gives back the domain |
| `Query.LongLabelReadsAsEmpty` | main.go:64 | the length byte wraps modulo 256: a one-label domain of 256 bytes gets length byte 0 and reads back as the empty name |
| `Labels.Split` | main.go:63 | `strings.Split` on `.` always returns at least one piece |
| `Labels.SplitNoDots` | main.go:63 | no piece of a split contains a dot |
| `Labels.DotEachIsJoin` | main.go:63 | writing a dot before every label of a non-empty list gives a dot followed by their join |
| `Labels.JoinSplit` | main.go:63 | joining the pieces of a split with dots gives back the original string |
| `Labels.SplitJoin` | main.go:63 | splitting the dot-join of one or more dot-free labels gives back exactly those labels |
| `Labels.EncodeLabelsAppend` | main.go:63-66 | one loop step: appending a label appends its length byte and its bytes to the encoding |
| `Labels.EncodeLabel` | main.go:64-65 | one label is written as one length byte followed by exactly the label's bytes |
| `Labels.EncodeLengthIsDotEachLength` | main.go:63-66 | the encoded labels are as long as the labels each preceded by a dot: one length byte per label |
| `Labels.EncodedLength` | main.go:63-66 | the encoded labels are one byte longer than the dotted name they come from |
| `Labels.RunLength` | main.go:63 | the count of bytes before the first dot never exceeds the name's length |
| `Labels.RunLengthStopsAtDot` | main.go:63 | the run before the first dot holds no dot, and a dot or the end of the name follows it |
| `Labels.DotsToLengths` | main.go:63-66 | the reference layout of an encoded name has the name's length |
| `Labels.DotsToLengthsKeeps` | main.go:63-66 | the reference layout keeps every non-dot byte of the name in place |
| `Labels.DotsToLengthsAtDot` | main.go:63-66 | the reference layout puts, where the name has a dot, the length mod 256 of the label that follows |
| `Labels.SplitHead` | main.go:63 | the first piece of a split is the run of bytes before the first dot |
| `Labels.EncodeSplitLayout` | main.go:63-66 | the encoded labels of a domain equal the leading length byte followed by the domain with each dot replaced by the next label's length mod 256 |
| `Labels.UpToEmpty` | main.go:64-67 | the labels before the first empty one: a prefix of the input, all non-empty, followed by an empty label or the end |
| `Labels.DecodeEncodeLabels` | main.go:63-67 | reading back encoded labels (each under 256 bytes) followed by a zero byte yields the labels up to the first empty one, whatever follows |
| `Tables.ClassName` | main.go:27-34 | the class name is one of "", IN, CS, CH, HS, and is "" exactly when the code is not 1..4 |
| `Tables.TypeName` | main.go:36-43 | the type name is one of "", A, NS, CNAME, MX, and is "" exactly when the code is not 1, 2, 5 or 15 |
| `Tables.ClassNameMatchesCode` | main.go:27-34 | `classParser` maps a code to a mnemonic exactly when RFC 1035's class table maps that mnemonic to the code |
| `Tables.TypeNameMatchesCode` | main.go:36-43 | `typeParser` maps a code to a mnemonic exactly when RFC 1035's type table maps that mnemonic to the code |
| `Response.ParseResponse` | main.go:75-90 | on any response of at least 14 bytes: no error, the name is the queried domain unchanged, the address is the last 4 bytes in order, the TTL is the big-endian value of bytes [len-10, len-6), and type and class names depend only on bytes len-13 and len-11 |
| `Response.ParseEncodedRecord` | main.go:77-86 | whatever precedes it, a final record (2-byte name, type, class, TTL, RDLENGTH, 4 bytes of RDATA) decodes to its RDATA, its TTL and the names of the low bytes of its type and class codes |
| `Response.ParseReadsOnly` | main.go:77-86 | two responses that agree on the ten bytes read (len-13, len-11, [len-10, len-6), [len-4, len)) decode alike: earlier bytes, the high bytes of type and class, and RDLENGTH never matter |
| `Response.ParseDependsOnTail` | main.go:77-86 | two responses with the same last 14 bytes decode alike |
| `Response.ParseTypicalAnswer` | main.go:75-90 | a final record of type 1, class 1, TTL 60 and address 192.0.2.1 decodes to A, IN, 60, 192.0.2.1 |
| `Response.ParseUnknownType` | main.go:83-84 | type code 99 decodes to the empty type name, with no error |
| `Wire.U16RoundTrip` | main.go:54 | reading the big-endian encoding of a 16-bit value gives the value back |
| `Wire.U16BytesOfRead` | main.go:83 | re-encoding a decoded 16-bit value gives back its two bytes |
| `Wire.U32RoundTrip` | main.go:82 | reading the big-endian encoding of a 32-bit value gives the value back |
| `Wire.Truncate8` | main.go:84 | `uint8(v)` leaves values below 256 unchanged |
| `Wire.Truncate8OfRead` | main.go:83-86 | `uint8` of a decoded 16-bit code is the code's second (low) byte |

## Left out

- `resolveDomain` (main.go:92-121): UDP dial, deadline, write and read are network I/O; its only logic, passing the bytes actually read to the decoder, is the decoder's input.
- `main` (main.go:123-153): the goroutine fan-out with `sync.WaitGroup` and the printing of results are concurrency and output.
- `NewCli` in cli.go: flag declarations for a command-line library.
- `rand.Intn(1000)`: the transaction ID is an input `id < 1000`.
- `Response.ParseResponse`: the address is kept as its 4 bytes; `net.IPv4` builds the 16-byte IPv4-in-IPv6 form and `IP.String()` formats it, both library code.
- Label lengths: labels are not limited to 63 bytes and are not rejected when empty or too long; the program writes `byte(len(label))`, which wraps modulo 256, and the model keeps that (see `Query.LongLabelReadsAsEmpty`), although section 2.3.4 of RFC 1035 limits labels to 63 bytes.
- Short responses: the program does not check the length and panics (index out of range, main.go:81-83) on a response under 14 bytes; `Response.ParseResponse` requires at least 14 bytes, so that panic is not modelled.
- Compression pointers (section 4.1.4 of RFC 1035), responses with several records, RDLENGTH other than 4 and the 63-byte label limit (section 2.3.4) are not implemented by the program and so not modelled.
