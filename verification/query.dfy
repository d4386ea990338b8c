/** The outgoing query of `sendQuery` in main.go. The encoder (NewQuery) and
    the UDP client belong to code outside this model, so a query is kept as
    the structured message NewQuery would serialise plus the endpoint the
    client is opened on. */
module Query {
  import opened DnsTypes

  /** The fixed transaction id every query carries. */
  const QueryId: uint16 := 22

  /** Queries go to the standard DNS port. */
  const DnsPort: nat := 53

  /** A message addressed to a name server. */
  datatype Outgoing = Outgoing(server: string, port: nat, message: Packet)

  function NewHeader(id: uint16, flags: uint16, qdCount: uint16, anCount: uint16,
                     nsCount: uint16, arCount: uint16): Header
  {
    Header(id, flags, qdCount, anCount, nsCount, arCount)
  }

  function NewQuestion(name: string, qtype: uint16, qclass: uint16): Question {
    Question(name, qtype, qclass)
  }

  /** A query message: the header and a single question, no records. */
  function NewQuery(header: Header, question: Question): Packet {
    Packet(header, [question], [], [], [])
  }

  /** The shape every query of the resolver has: id 22, flags 0, a single
      question of class IN, no records, header counts matching, port 53. */
  predicate IsResolverQuery(q: Outgoing) {
    && q.port == DnsPort
    && q.message.header.id == QueryId
    && q.message.header.flags == 0
    && CountsMatch(q.message)
    && |q.message.questions| == 1
    && q.message.questions[0].qclass == ClassIN
    && q.message.answers == [] && q.message.authorities == [] && q.message.additionals == []
  }

  /** sendQuery: the query for (domainName, questionType) addressed to nameServer. */
  function SendQuery(nameServer: string, domainName: string, questionType: uint16): (q: Outgoing)
    ensures IsResolverQuery(q)
    ensures q.server == nameServer
    ensures q.message.questions[0].name == domainName
    ensures q.message.questions[0].qtype == questionType
  {
    var query := NewQuery(
      NewHeader(QueryId, 0, 1, 0, 0, 0),
      NewQuestion(domainName, questionType, ClassIN));
    Outgoing(nameServer, DnsPort, query)
  }

  /** Distinct (server, name, type) triples give distinct queries, so a
      repeated query means a repeated resolver state. */
  lemma SendQueryInjective(s1: string, d1: string, t1: uint16, s2: string, d2: string, t2: uint16)
    requires SendQuery(s1, d1, t1) == SendQuery(s2, d2, t2)
    ensures s1 == s2 && d1 == d2 && t1 == t2
  {
    assert SendQuery(s1, d1, t1).message.questions[0] == SendQuery(s2, d2, t2).message.questions[0];
  }
}
