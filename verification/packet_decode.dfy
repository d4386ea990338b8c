/** Section splitting of a response (`getDnsPacketFromResponse` in main.go).
    The byte-level parsers live in the resolver package, which is not part of
    this model; they enter as functions that read from a cursor and hand back
    the cursor after what they consumed. The model fixes only how main.go
    drives them: one header, then exactly QdCount questions, AnCount answers,
    NsCount authorities and ArCount additionals, in that order, each read
    where the previous one stopped. */
module PacketDecode {
  import opened DnsTypes

  /** ParseHeader, ParseQuestion and ParseRecord. Only the header parser can
      fail; the other two return a value whatever the bytes are. */
  datatype Parsers = Parsers(
    header: Bytes -> Option<(Header, nat)>,
    question: (Bytes, nat) -> (Question, nat),
    record: (Bytes, nat) -> (Record, nat))

  /** `count` items read one after another from `pos`, with the cursor after
      the last. */
  function ReadItems<T>(parse: (Bytes, nat) -> (T, nat), buf: Bytes, pos: nat, count: nat): (r: (seq<T>, nat))
    ensures |r.0| == count
    ensures count == 0 ==> r.1 == pos
    decreases count
  {
    if count == 0 then ([], pos)
    else
      var (items, cursor) := ReadItems(parse, buf, pos, count - 1);
      var (item, next) := parse(buf, cursor);
      (items + [item], next)
  }

  /** Item `i` of a run is parsed exactly where the first `i` items end. */
  lemma {:induction false} ItemAtCursor<T>(parse: (Bytes, nat) -> (T, nat), buf: Bytes, pos: nat, count: nat, i: nat)
    requires i < count
    ensures ReadItems(parse, buf, pos, count).0[i] == parse(buf, ReadItems(parse, buf, pos, i).1).0
    decreases count
  {
    if i < count - 1 {
      ItemAtCursor(parse, buf, pos, count - 1, i);
    }
  }

  /** Reading `a + b` items is reading `a` items and then `b` more from
      where the first `a` stopped. */
  lemma {:induction false} ReadItemsSplit<T>(parse: (Bytes, nat) -> (T, nat), buf: Bytes, pos: nat, a: nat, b: nat)
    ensures var first := ReadItems(parse, buf, pos, a);
            var second := ReadItems(parse, buf, first.1, b);
            ReadItems(parse, buf, pos, a + b) == (first.0 + second.0, second.1)
    decreases b
  {
    var first := ReadItems(parse, buf, pos, a);
    if b == 0 {
      assert first.0 + [] == first.0;
    } else {
      ReadItemsSplit(parse, buf, pos, a, b - 1);
      var second := ReadItems(parse, buf, first.1, b - 1);
      assert first.0 + second.0 + [parse(buf, second.1).0] == first.0 + (second.0 + [parse(buf, second.1).0]);
    }
  }

  /** One `for range count` loop of getDnsPacketFromResponse. */
  method ReadSection<T>(parse: (Bytes, nat) -> (T, nat), buf: Bytes, pos: nat, count: nat)
    returns (items: seq<T>, cursor: nat)
    ensures (items, cursor) == ReadItems(parse, buf, pos, count)
  {
    items, cursor := [], pos;
    var i := 0;
    while i < count
      invariant 0 <= i <= count
      invariant (items, cursor) == ReadItems(parse, buf, pos, i)
    {
      var (item, next) := parse(buf, cursor);
      items := items + [item];
      cursor := next;
      i := i + 1;
    }
  }

  /** The decoded packet, or None where main.go gives up on an unparsable
      header (it prints an error and exits the process). */
  function DecodePacket(parsers: Parsers, buf: Bytes): (r: Option<Packet>)
    ensures r.None? <==> parsers.header(buf).None?
    ensures r.Some? ==> r.value.header == parsers.header(buf).value.0 && CountsMatch(r.value)
  {
    match parsers.header(buf)
    case None => None
    case Some((h, start)) =>
      var qs := ReadItems(parsers.question, buf, start, h.qdCount as nat);
      var an := ReadItems(parsers.record, buf, qs.1, h.anCount as nat);
      var ns := ReadItems(parsers.record, buf, an.1, h.nsCount as nat);
      var ar := ReadItems(parsers.record, buf, ns.1, h.arCount as nat);
      Some(Packet(h, qs.0, an.0, ns.0, ar.0))
  }

  /** The questions are read right after the header, and the three record
      sections are consecutive slices of one run of
      AnCount + NsCount + ArCount records read right after the questions. */
  lemma SectionsInOrder(parsers: Parsers, buf: Bytes)
    requires parsers.header(buf).Some?
    ensures
      var (h, start) := parsers.header(buf).value;
      var p := DecodePacket(parsers, buf).value;
      var qs := ReadItems(parsers.question, buf, start, h.qdCount as nat);
      var all := ReadItems(parsers.record, buf, qs.1, h.anCount as nat + h.nsCount as nat + h.arCount as nat).0;
      && p.questions == qs.0
      && p.answers == all[..h.anCount]
      && p.authorities == all[h.anCount..h.anCount as nat + h.nsCount as nat]
      && p.additionals == all[h.anCount as nat + h.nsCount as nat..]
  {
    var (h, start) := parsers.header(buf).value;
    var qs := ReadItems(parsers.question, buf, start, h.qdCount as nat);
    var an := ReadItems(parsers.record, buf, qs.1, h.anCount as nat);
    var ns := ReadItems(parsers.record, buf, an.1, h.nsCount as nat);
    var ar := ReadItems(parsers.record, buf, ns.1, h.arCount as nat);
    ReadItemsSplit(parsers.record, buf, qs.1, h.anCount as nat, h.nsCount as nat);
    ReadItemsSplit(parsers.record, buf, qs.1, h.anCount as nat + h.nsCount as nat, h.arCount as nat);
    var all := an.0 + ns.0 + ar.0;
    assert all[..h.anCount] == an.0;
    assert all[h.anCount..h.anCount as nat + h.nsCount as nat] == ns.0;
    assert all[h.anCount as nat + h.nsCount as nat..] == ar.0;
  }

  /** getDnsPacketFromResponse, with its four loops. */
  method GetDnsPacketFromResponse(parsers: Parsers, buf: Bytes) returns (r: Option<Packet>)
    ensures r == DecodePacket(parsers, buf)
  {
    var parsed := parsers.header(buf);
    if parsed.None? {
      return None;
    }
    var (h, start) := parsed.value;
    var questions, afterQuestions := ReadSection(parsers.question, buf, start, h.qdCount as nat);
    var answers, afterAnswers := ReadSection(parsers.record, buf, afterQuestions, h.anCount as nat);
    var authorities, afterAuthorities := ReadSection(parsers.record, buf, afterAnswers, h.nsCount as nat);
    var additionals, _ := ReadSection(parsers.record, buf, afterAuthorities, h.arCount as nat);
    return Some(Packet(h, questions, answers, authorities, additionals));
  }
}
