# Iterative DNS resolver: delegation loop

This project models the resolver of `main.go`. The program resolves a
domain name to an IPv4 address by querying authoritative name servers
itself, starting from the root server 198.41.0.4.

One pass of its loop does four things:

1. It sends the query for the current (name server, domain name, question
   type).
2. It splits the response into its four sections, each with as many items as
   the header counts say.
3. It scans each record section for the first record of type A or NS.
4. It picks one of four moves, in fixed priority:
   - return the answer;
   - move to the glue address from the additional section;
   - resolve the authority's NS name from the root, and move to that address;
   - ask again unchanged.

The modules follow that structure:

- `DnsTypes` (`dns_types.dfy`): header, question, record and packet. DNS
  field widths are bounded newtypes. The constants A = 1, NS = 2 and IN = 1
  come from sections 3.2.2 and 3.2.4 of RFC 1035.
- `Selection` (`selection.dfy`): `getRecord` and its three wrappers. There is
  a recursive function, a loop version, and a reference definition that
  filters the section.
- `PacketDecode` (`packet_decode.dfy`): `getDnsPacketFromResponse`. It drives
  abstract header, question and record parsers from a cursor. There is a
  function version and a loop version.
- `Query` (`query.dfy`): the query that `sendQuery` builds and the port it
  goes to.
- `Delegation` (`delegation.dfy`): the decision body of `resolve` and the
  state change it causes.
- `Resolver` (`resolver.dfy`): the loop and its nested resolutions. It is
  written once over an arbitrary responder, a function from state to
  decision. It is then instantiated with transport, decode and decide. Fuel
  bounds the loop.

Three facts about `main.go` shape the model:

- A response with no answer, no glue and no referral makes it send the
  identical query to the same server again. There is no error for this
  case. While the server keeps giving the same response, which the model's
  transport as a function of the query does, the loop never ends.
  `Resolver.NoProgressRepeatsForever` proves this for every amount of fuel.
- One filter, "A or NS", is applied to all three sections. An NS name at the
  head of the additional section is therefore used as a server address. An
  NS name at the head of the answers is returned as the result, which
  `Selection.NameServerRecordIsAnAnswer` states.
- There is no cap on iterations or on nested resolutions. Fuel appears only
  in the model, and `Resolver.FuelMonotone` shows that a finished result
  does not depend on it.

## Model

| member | source | states |
|---|---|---|
| Selection.GetRecord | main.go:115-122 | The result is the RDATA of the first record in section order whose type is A or NS; it is "" when no record has either type, the empty section included |
| Selection.ScanRecords | main.go:115-122 | The `for ... range` scan with early return yields the RDATA of the first record of type A or NS, and "" when there is none |
| Selection.GetRecordIsFirstMatch | main.go:115-121 | getRecord equals an independent definition: the RDATA of the head of the A/NS records filtered from the section, or "" when there are none |
| Selection.SkipsOtherTypes | main.go:116-119 | Records of any other type in front of the first match are skipped: prepending them does not change the result |
| Selection.GetRecordAppend | main.go:115-121 | On a concatenation the first part decides when it holds an A/NS record; otherwise the second part does |
| Selection.EmptyResultMeans | main.go:115-121 | The result is "" exactly when there is no A/NS record, or when the first one has empty RDATA |
| Selection.GetAnswer | main.go:103-105 | The answer section goes through the same first-A-or-NS selection |
| Selection.GetNameServerIp | main.go:107-109 | The additional section goes through the same first-A-or-NS selection |
| Selection.GetNameServer | main.go:111-113 | The authority section goes through the same first-A-or-NS selection |
| Selection.NameServerRecordIsAnAnswer | main.go:103-119 | Because all sections share one filter, an NS record at the head of the answers is returned as the answer |
| PacketDecode.ReadItems | main.go:78-92 | Reading a section yields exactly the declared number of items; reading zero items leaves the cursor where it was |
| PacketDecode.ItemAtCursor | main.go:78-92 | Item i of a section is parsed exactly where the first i items end |
| PacketDecode.ReadItemsSplit | main.go:82-92 | Reading a + b items is reading a items, then b more from where the first a stopped |
| PacketDecode.ReadSection | main.go:78-80 | The counted loop that appends one parsed item per pass computes the same items and cursor as the recursive reading |
| PacketDecode.DecodePacket | main.go:63-101 | Decoding fails exactly when the header does not parse; otherwise the packet has that header and exactly QdCount questions, AnCount answers, NsCount authorities and ArCount additionals |
| PacketDecode.SectionsInOrder | main.go:78-92 | Questions are read right after the header; answers, authorities and additionals are consecutive slices of one run of records read right after the questions, in that order |
| PacketDecode.GetDnsPacketFromResponse | main.go:63-101 | The four counted loops produce the decoded packet, or none when the header parse fails |
| Query.SendQuery | main.go:53-61 | A query has id 22, flags 0, counts (1, 0, 0, 0) matching its sections, one question (name, type, IN), and is addressed to the name server on port 53 |
| Query.SendQueryInjective | main.go:53-57 | Different (server, name, type) triples give different queries, so a repeated query means a repeated state |
| Delegation.Decide | main.go:38-49 | A decision never carries an empty answer, glue address or NS name |
| Delegation.NextState | main.go:42-49 | A continuing iteration changes only the name server: glue sets it to the glue value, escalation sets it to the nested result, and "nothing usable" leaves the whole state unchanged |
| Delegation.AnswerTakesPriority | main.go:38-40 | A non-empty answer is returned whatever the authority and additional sections hold |
| Delegation.GlueBeforeReferral | main.go:42-45 | With no answer, a non-empty glue value becomes the next name server whatever the authorities hold |
| Delegation.ReferralLast | main.go:47-49 | With neither answer nor glue, a non-empty authority value is resolved as a name server name |
| Delegation.RepeatOnlyWhenNothingUsable | main.go:33-50 | The loop continues unchanged exactly when all three sections yield "", which includes sections with no A/NS records |
| Resolver.Iterate | main.go:33-50 | With positive fuel, the first query sent is the one for the current state; a result other than running out of fuel needs at least one pass (each branch is stated by the Resolver lemmas below) |
| Resolver.AnswerEndsResolution | main.go:38-40 | A response with an answer ends the resolution with that address after exactly one query |
| Resolver.HeaderFailureAborts | main.go:73-77 | An unparsable response header ends the whole resolution after that query |
| Resolver.GlueMovesToNextServer | main.go:42-45 | Glue continues the loop at the glue address with the same domain name and question type |
| Resolver.EscalationRestartsFromRoot | main.go:31-49 | A referral without glue runs a fresh type-A resolution of the NS name starting at 198.41.0.4; its address becomes the name server, with domain name and type unchanged; its failure is the outer failure |
| Resolver.NoProgressRepeatsForever | main.go:33-50 | When a response gives nothing usable and the server keeps giving that response, the loop never ends: for any fuel it runs out, having sent the identical query once per unit |
| Resolver.FuelMonotone | main.go:31-50 | A resolution that ends within some fuel ends identically, with the same queries, under any larger fuel |
| Resolver.EscalationMonotone | main.go:47-49 | The escalation case of fuel monotonicity: nested resolution and continuation are both stable under more fuel |
| Resolver.EveryQueryWellFormed | main.go:53-60 | Every query sent, nested ones included, has id 22, flags 0, one IN question and port 53 |
| Resolver.ResolvedFromAnAnswer | main.go:33-50 | A resolved value is always the Answer decision taken on the response to one of the queries sent; a glue or referral decision never ends the resolution |
| Resolver.DelegationChain | main.go:33-45 | A chain of glue referrals through n servers, where the last server answers, resolves to that answer with exactly n queries, one per server, in order |
| Resolver.Exchange | main.go:35-36 | The query of the state is sent and the reply decoded: there is no packet exactly when the reply's header does not parse; otherwise the packet carries that header and its section sizes match the header counts |
| Resolver.Respond | main.go:35-49 | There is no decision exactly when the response header does not parse; otherwise the decision is the one taken on the decoded packet |
| Resolver.Resolve | main.go:31-51 | The first query goes to the root server; a resolved value is non-empty and is the Answer decision taken on the decoded response to one of the queries sent |
| Resolver.ExampleReferralThenAnswer | main.go:31-45 | The root's decoded response has no answer, an NS record for a.iana-servers.net and an A glue record 199.43.135.53, and the glue server's response answers 93.184.216.34; resolution yields 93.184.216.34 after exactly two queries, the first to the root |

## Left out

- Command-line handling in `main`: the argument check, the usage message, the loop over domains and printing each result. This is process plumbing, not resolution.
- The progress `Printf` in the loop and the error message before exit. These are output only.
- The process exit on an unparsable header. It is modelled as the outcome `Aborted` of the resolution. The model does not say that the exit also stops the remaining command-line domains.
- The UDP client (`client.NewClient`, `SendQuery`). The transport is a function from the query to the response bytes. Timeouts, packet loss, and a server answering the same query differently over time are not modelled.
- The byte-level codec of the resolver package: `ParseHeader`, `ParseQuestion`, `ParseRecord`, the serialisation done by `NewQuery`, label compression and RDATA rendering. That package is not part of this model. The parsers are abstract functions over a cursor, and the query is kept as a structured message. Question and record parse errors are not modelled, because `main.go` never checks for them.
- Unbounded looping and recursion. These are bounded by fuel, and running out gives `OutOfFuel`, which is not a program behaviour. `Resolver.NoProgressRepeatsForever` and `Resolver.FuelMonotone` describe what the fuel bound hides.
