/** The iterative delegation loop of `resolve` in main.go. Each iteration
    sends the query for the current state, decodes the response and acts on
    the decision Delegation.Decide takes: return the answer, move to the glue
    server, resolve the NS name from the root, or ask again unchanged.

    The loop is written once over a `Responder`, the decision the response
    to a state's query leads to (None when the response header cannot be
    parsed), and then instantiated with the real chain transport, decode,
    decide (`Respond`). The facts about the loop hold for every responder.

    main.go loops and recurses without any bound. Here `fuel` bounds the
    depth of iterations and nested resolutions so that the functions are
    total; it is a proof device, not behaviour of the program: running out of
    it yields OutOfFuel, and FuelMonotone shows that any other result stays
    the same under more fuel. */
module Resolver {
  import opened DnsTypes
  import opened PacketDecode
  import opened Query
  import opened Delegation
  import opened Selection

  /** The root server every resolution starts from (a.root-servers.net). */
  const RootServer: string := "198.41.0.4"

  /** The state a resolution starts in. */
  function Start(domainName: string, questionType: uint16): State {
    State(RootServer, domainName, questionType)
  }

  /** The query sent in state s. */
  function QueryOf(s: State): Outgoing {
    SendQuery(s.nameServer, s.domainName, s.questionType)
  }

  /** How a resolution ends: with an address, with the process exit main.go
      performs on an unparsable header, or with the fuel spent. */
  datatype Outcome = Resolved(ip: string) | Aborted | OutOfFuel

  /** The outcome and every query sent, nested resolutions included, in order. */
  datatype Resolution = Resolution(outcome: Outcome, sent: seq<Outgoing>)

  /** The decision the response to the query of a state leads to. */
  type Responder = State -> Option<Decision>

  /** The body of `for { ... }` in resolve, from state s. */
  function Iterate(respond: Responder, s: State, fuel: nat): (r: Resolution)
    ensures fuel > 0 ==> |r.sent| > 0 && r.sent[0] == QueryOf(s)
    ensures r.outcome != OutOfFuel ==> fuel > 0
    decreases fuel
  {
    if fuel == 0 then Resolution(OutOfFuel, [])
    else
      var q := QueryOf(s);
      match respond(s)
      case None => Resolution(Aborted, [q])
      case Some(Answer(ip)) => Resolution(Resolved(ip), [q])
      case Some(Delegate(nsIp)) =>
        var rest := Iterate(respond, NextState(s, Delegate(nsIp), ""), fuel - 1);
        Resolution(rest.outcome, [q] + rest.sent)
      case Some(Escalate(nsDomain)) =>
        var nested := Iterate(respond, Start(nsDomain, TypeA), fuel - 1);
        if nested.outcome.Resolved? then
          var rest := Iterate(respond, NextState(s, Escalate(nsDomain), nested.outcome.ip), fuel - 1);
          Resolution(rest.outcome, [q] + nested.sent + rest.sent)
        else
          Resolution(nested.outcome, [q] + nested.sent)
      case Some(Repeat) =>
        var rest := Iterate(respond, NextState(s, Repeat, ""), fuel - 1);
        Resolution(rest.outcome, [q] + rest.sent)
  }

  // ---------------------------------------------------------------------
  // The loop, for every responder

  /** A response with an answer ends the resolution after that one query. */
  lemma AnswerEndsResolution(respond: Responder, s: State, ip: string, fuel: nat)
    requires fuel > 0 && respond(s) == Some(Answer(ip))
    ensures Iterate(respond, s, fuel) == Resolution(Resolved(ip), [QueryOf(s)])
  {
  }

  /** An unparsable response ends everything after that query. */
  lemma HeaderFailureAborts(respond: Responder, s: State, fuel: nat)
    requires fuel > 0 && respond(s) == None
    ensures Iterate(respond, s, fuel) == Resolution(Aborted, [QueryOf(s)])
  {
  }

  /** Glue moves the loop to the glue address; the domain name and question
      type stay as they were. */
  lemma GlueMovesToNextServer(respond: Responder, s: State, nsIp: string, fuel: nat)
    requires fuel > 0 && respond(s) == Some(Delegate(nsIp))
    ensures var rest := Iterate(respond, State(nsIp, s.domainName, s.questionType), fuel - 1);
            Iterate(respond, s, fuel) == Resolution(rest.outcome, [QueryOf(s)] + rest.sent)
  {
    assert NextState(s, Delegate(nsIp), "") == State(nsIp, s.domainName, s.questionType);
  }

  /** A referral without glue starts a fresh resolution of the NS name, of
      type A, from the root server; its address becomes the next name server
      and the domain name and question type stay as they were. If the nested
      resolution does not resolve, its outcome is the outer one. */
  lemma EscalationRestartsFromRoot(respond: Responder, s: State, nsDomain: string, fuel: nat)
    requires fuel > 0 && respond(s) == Some(Escalate(nsDomain))
    ensures var nested := Iterate(respond, State(RootServer, nsDomain, TypeA), fuel - 1);
            nested.outcome.Resolved? ==>
              var rest := Iterate(respond, State(nested.outcome.ip, s.domainName, s.questionType), fuel - 1);
              Iterate(respond, s, fuel) == Resolution(rest.outcome, [QueryOf(s)] + nested.sent + rest.sent)
    ensures var nested := Iterate(respond, State(RootServer, nsDomain, TypeA), fuel - 1);
            !nested.outcome.Resolved? ==>
              Iterate(respond, s, fuel) == Resolution(nested.outcome, [QueryOf(s)] + nested.sent)
  {
    var nested := Iterate(respond, Start(nsDomain, TypeA), fuel - 1);
    if nested.outcome.Resolved? {
      assert NextState(s, Escalate(nsDomain), nested.outcome.ip)
          == State(nested.outcome.ip, s.domainName, s.questionType);
    }
  }

  /** When the response gives nothing usable, the next iteration runs in the
      very same state, so the same query goes out again and again: the loop
      never ends, and any amount of fuel is spent on copies of one query. */
  lemma {:induction false} NoProgressRepeatsForever(respond: Responder, s: State, fuel: nat)
    requires respond(s) == Some(Repeat)
    ensures Iterate(respond, s, fuel).outcome == OutOfFuel
    ensures |Iterate(respond, s, fuel).sent| == fuel
    ensures forall i :: 0 <= i < fuel ==> Iterate(respond, s, fuel).sent[i] == QueryOf(s)
    decreases fuel
  {
    if fuel > 0 {
      NoProgressRepeatsForever(respond, s, fuel - 1);
    }
  }

  /** Fuel only cuts runs short: a resolution that ends within some fuel ends
      the same way, with the same queries, under any larger fuel. */
  lemma {:induction false} FuelMonotone(respond: Responder, s: State, fuel: nat, more: nat)
    requires fuel <= more
    requires Iterate(respond, s, fuel).outcome != OutOfFuel
    ensures Iterate(respond, s, more) == Iterate(respond, s, fuel)
    decreases fuel
  {
    match respond(s)
    case None =>
    case Some(Answer(_)) =>
    case Some(Delegate(nsIp)) =>
      FuelMonotone(respond, NextState(s, Delegate(nsIp), ""), fuel - 1, more - 1);
    case Some(Escalate(nsDomain)) =>
      EscalationMonotone(respond, s, nsDomain, fuel, more);
    case Some(Repeat) =>
      FuelMonotone(respond, s, fuel - 1, more - 1);
  }

  /** The escalation case of FuelMonotone. */
  lemma {:induction false} EscalationMonotone(respond: Responder, s: State, nsDomain: string, fuel: nat, more: nat)
    requires 0 < fuel <= more
    requires respond(s) == Some(Escalate(nsDomain))
    requires Iterate(respond, s, fuel).outcome != OutOfFuel
    ensures Iterate(respond, s, more) == Iterate(respond, s, fuel)
    decreases fuel, 0
  {
    var nested := Iterate(respond, Start(nsDomain, TypeA), fuel - 1);
    FuelMonotone(respond, Start(nsDomain, TypeA), fuel - 1, more - 1);
    if nested.outcome.Resolved? {
      FuelMonotone(respond, NextState(s, Escalate(nsDomain), nested.outcome.ip), fuel - 1, more - 1);
    }
  }

  /** Every query a resolution sends, nested ones included, has id 22, flags
      0, one question of class IN and goes to port 53. */
  lemma {:induction false} EveryQueryWellFormed(respond: Responder, s: State, fuel: nat)
    ensures forall i :: 0 <= i < |Iterate(respond, s, fuel).sent| ==>
      IsResolverQuery(Iterate(respond, s, fuel).sent[i])
    decreases fuel
  {
    if fuel > 0 {
      match respond(s)
      case None =>
      case Some(Answer(_)) =>
      case Some(Delegate(nsIp)) =>
        EveryQueryWellFormed(respond, NextState(s, Delegate(nsIp), ""), fuel - 1);
      case Some(Escalate(nsDomain)) =>
        var nested := Iterate(respond, Start(nsDomain, TypeA), fuel - 1);
        EveryQueryWellFormed(respond, Start(nsDomain, TypeA), fuel - 1);
        if nested.outcome.Resolved? {
          EveryQueryWellFormed(respond, NextState(s, Escalate(nsDomain), nested.outcome.ip), fuel - 1);
        }
      case Some(Repeat) =>
        EveryQueryWellFormed(respond, s, fuel - 1);
    }
  }

  /** A resolved value is always the Answer decision taken on the response
      to one of the queries sent: a glue or referral decision never ends the
      resolution, and nothing is invented. */
  lemma {:induction false} ResolvedFromAnAnswer(respond: Responder, s: State, fuel: nat)
    requires Iterate(respond, s, fuel).outcome.Resolved?
    ensures var r := Iterate(respond, s, fuel);
            exists t :: QueryOf(t) in r.sent && respond(t) == Some(Answer(r.outcome.ip))
    decreases fuel
  {
    var r := Iterate(respond, s, fuel);
    match respond(s)
    case Some(Answer(ip)) =>
      assert QueryOf(s) in r.sent;
    case Some(Delegate(nsIp)) =>
      var next := NextState(s, Delegate(nsIp), "");
      ResolvedFromAnAnswer(respond, next, fuel - 1);
      var t :| QueryOf(t) in Iterate(respond, next, fuel - 1).sent && respond(t) == Some(Answer(r.outcome.ip));
      assert QueryOf(t) in r.sent;
    case Some(Escalate(nsDomain)) =>
      var nested := Iterate(respond, Start(nsDomain, TypeA), fuel - 1);
      var next := NextState(s, Escalate(nsDomain), nested.outcome.ip);
      ResolvedFromAnAnswer(respond, next, fuel - 1);
      var t :| QueryOf(t) in Iterate(respond, next, fuel - 1).sent && respond(t) == Some(Answer(r.outcome.ip));
      assert QueryOf(t) in r.sent;
    case Some(Repeat) =>
      ResolvedFromAnAnswer(respond, s, fuel - 1);
      var t :| QueryOf(t) in Iterate(respond, s, fuel - 1).sent && respond(t) == Some(Answer(r.outcome.ip));
      assert QueryOf(t) in r.sent;
  }

  /** A chain of glue referrals through `servers` whose last server answers
      resolves to that answer with exactly one query per server, in order. */
  lemma {:induction false} DelegationChain(respond: Responder, servers: seq<string>, domainName: string,
                                           questionType: uint16, ip: string, fuel: nat)
    requires |servers| > 0 && fuel >= |servers|
    requires forall i :: 0 < i < |servers| ==>
      respond(State(servers[i - 1], domainName, questionType)) == Some(Delegate(servers[i]))
    requires respond(State(servers[|servers| - 1], domainName, questionType)) == Some(Answer(ip))
    ensures var r := Iterate(respond, State(servers[0], domainName, questionType), fuel);
            && r.outcome == Resolved(ip)
            && |r.sent| == |servers|
            && forall i :: 0 <= i < |servers| ==> r.sent[i] == QueryOf(State(servers[i], domainName, questionType))
    decreases |servers|
  {
    var s := State(servers[0], domainName, questionType);
    if |servers| > 1 {
      var tail := servers[1..];
      assert respond(s) == Some(Delegate(servers[1]));
      forall i | 0 < i < |tail|
        ensures respond(State(tail[i - 1], domainName, questionType)) == Some(Delegate(tail[i]))
      {
        assert tail[i - 1] == servers[i] && tail[i] == servers[i + 1];
      }
      DelegationChain(respond, tail, domainName, questionType, ip, fuel - 1);
      assert NextState(s, Delegate(servers[1]), "") == State(tail[0], domainName, questionType);
    }
  }

  // ---------------------------------------------------------------------
  // The loop of main.go: transport, decode, decide

  /** The collaborators of the loop: the UDP transport, as a function from the
      query sent to the datagram received, and the resolver package parsers. */
  datatype Env = Env(transport: Outgoing -> Bytes, parsers: Parsers)

  /** sendQuery followed by getDnsPacketFromResponse: the query of state s
      goes out, and the datagram that comes back is decoded. */
  function Exchange(env: Env, s: State): (r: Option<Packet>)
    ensures r.None? <==> env.parsers.header(env.transport(SendQuery(s.nameServer, s.domainName, s.questionType))).None?
    ensures r.Some? ==> CountsMatch(r.value)
    ensures r.Some? ==> r.value.header == env.parsers.header(env.transport(QueryOf(s))).value.0
  {
    DecodePacket(env.parsers, env.transport(QueryOf(s)))
  }

  /** The decision main.go takes on the response to the query of state s. */
  function Respond(env: Env, s: State): (d: Option<Decision>)
    ensures d.None? <==> env.parsers.header(env.transport(QueryOf(s))).None?
    ensures d.Some? ==> d.value == Decide(Exchange(env, s).value)
  {
    match Exchange(env, s)
    case None => None
    case Some(p) => Some(Decide(p))
  }

  /** resolve(domainName, questionType). The first query goes to the root
      server; a resolved value is never empty and is the Answer decision
      taken on the decoded response to one of the queries sent. */
  function Resolve(env: Env, domainName: string, questionType: uint16, fuel: nat): (r: Resolution)
    ensures fuel > 0 ==> |r.sent| > 0 && r.sent[0] == SendQuery(RootServer, domainName, questionType)
    ensures r.outcome.Resolved? ==> r.outcome.ip != ""
    ensures r.outcome.Resolved? ==>
      exists t :: QueryOf(t) in r.sent && Exchange(env, t).Some? && Decide(Exchange(env, t).value) == Answer(r.outcome.ip)
  {
    var r := Iterate(s => Respond(env, s), Start(domainName, questionType), fuel);
    if r.outcome.Resolved? then
      ResolvedFromAnAnswer(s => Respond(env, s), Start(domainName, questionType), fuel);
      r
    else r
  }

  /** The referral-then-answer example. The root's response to the query
      for example.com has no answer, an NS referral to a.iana-servers.net in
      the authorities and that server's glue address 199.43.135.53 in the
      additionals; the glue server's response answers 93.184.216.34.
      Resolving takes exactly two queries, the first to the root. */
  lemma ExampleReferralThenAnswer(env: Env, rootReply: Packet, glueReply: Packet, ttl: uint32, fuel: nat)
    requires fuel >= 2
    requires rootReply.answers == []
    requires rootReply.authorities == [Record("example.com", TypeNS, ClassIN, ttl, "a.iana-servers.net")]
    requires rootReply.additionals == [Record("a.iana-servers.net", TypeA, ClassIN, ttl, "199.43.135.53")]
    requires glueReply.answers == [Record("example.com", TypeA, ClassIN, ttl, "93.184.216.34")]
    requires Exchange(env, Start("example.com", TypeA)) == Some(rootReply)
    requires Exchange(env, State("199.43.135.53", "example.com", TypeA)) == Some(glueReply)
    ensures var r := Resolve(env, "example.com", TypeA, fuel);
            && r.outcome == Resolved("93.184.216.34")
            && r.sent == [SendQuery(RootServer, "example.com", TypeA), SendQuery("199.43.135.53", "example.com", TypeA)]
  {
    assert NoneSelectable(rootReply.answers);
    assert SelectedAt(rootReply.additionals, 0);
    assert Decide(rootReply) == Delegate("199.43.135.53");
    assert SelectedAt(glueReply.answers, 0);
    assert Decide(glueReply) == Answer("93.184.216.34");
    DelegationChain(s => Respond(env, s), [RootServer, "199.43.135.53"], "example.com", TypeA, "93.184.216.34", fuel);
  }
}
