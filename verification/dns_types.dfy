/** The values the resolver works on: the DNS header, question and resource
    record as the resolver package hands them to main.go, and the decoded
    packet (the `DNSPacket` struct of main.go). Wire-level fields keep their
    DNS widths through bounded newtypes. */
module DnsTypes {

  newtype uint8 = x: int | 0 <= x < 0x100
  newtype uint16 = x: int | 0 <= x < 0x1_0000
  newtype uint32 = x: int | 0 <= x < 0x1_0000_0000

  /** A raw datagram as returned by the transport. */
  type Bytes = seq<uint8>

  /** Host address and authoritative name server types (RFC 1035, section 3.2.2). */
  const TypeA: uint16 := 1
  const TypeNS: uint16 := 2

  /** The Internet class (RFC 1035, section 3.2.4). */
  const ClassIN: uint16 := 1

  datatype Option<+T> = None | Some(value: T)

  /** The fixed 12-byte header: transaction id, flags and the four section counts. */
  datatype Header = Header(
    id: uint16,
    flags: uint16,
    qdCount: uint16,
    anCount: uint16,
    nsCount: uint16,
    arCount: uint16)

  datatype Question = Question(name: string, qtype: uint16, qclass: uint16)

  /** A resource record whose RDATA the parser has already rendered as text:
      a dotted quad for type A, a domain name for type NS. */
  datatype Record = Record(
    name: string,
    rtype: uint16,
    rclass: uint16,
    ttl: uint32,
    rdata: string)

  datatype Packet = Packet(
    header: Header,
    questions: seq<Question>,
    answers: seq<Record>,
    authorities: seq<Record>,
    additionals: seq<Record>)

  /** Every section holds exactly as many entries as the header announces. */
  predicate CountsMatch(p: Packet) {
    && |p.questions| == p.header.qdCount as int
    && |p.answers| == p.header.anCount as int
    && |p.authorities| == p.header.nsCount as int
    && |p.additionals| == p.header.arCount as int
  }
}
