/** The decision body of `resolve` in main.go: what one decoded response
    tells the delegation loop to do, in fixed priority. */
module Delegation {
  import opened DnsTypes
  import opened Selection

  /** The whole mutable state of one resolution. */
  datatype State = State(nameServer: string, domainName: string, questionType: uint16)

  /** What one decoded response tells the loop to do. */
  datatype Decision =
    | Answer(ip: string)           // return ip
    | Delegate(nsIp: string)       // continue with nsIp as name server
    | Escalate(nsDomain: string)   // resolve nsDomain from the root, continue with its address
    | Repeat                       // nothing usable: continue unchanged

  /** Answers first, then additionals (glue), then authorities (referral).
      The loop never proceeds on an empty value: "" from getRecord means
      "look at the next section". */
  function Decide(p: Packet): (d: Decision)
    ensures d.Answer? ==> d.ip != ""
    ensures d.Delegate? ==> d.nsIp != ""
    ensures d.Escalate? ==> d.nsDomain != ""
  {
    var ip := GetAnswer(p.answers);
    if ip != "" then Answer(ip)
    else
      var nsIp := GetNameServerIp(p.additionals);
      if nsIp != "" then Delegate(nsIp)
      else
        var nsDomain := GetNameServer(p.authorities);
        if nsDomain != "" then Escalate(nsDomain) else Repeat
  }

  /** The state the next iteration runs in, for the decisions that continue
      the loop; `resolved` is the address the nested resolution of an
      escalation produced. Only the name server ever changes. */
  function NextState(s: State, d: Decision, resolved: string): (t: State)
    requires !d.Answer?
    ensures t.domainName == s.domainName && t.questionType == s.questionType
    ensures d.Repeat? ==> t == s
    ensures d.Delegate? ==> t.nameServer == d.nsIp
    ensures d.Escalate? ==> t.nameServer == resolved
  {
    match d
    case Delegate(nsIp) => s.(nameServer := nsIp)
    case Escalate(_) => s.(nameServer := resolved)
    case Repeat => s
  }

  /** Priority, first: a non-empty answer is returned, whatever the
      authority and additional sections hold. */
  lemma AnswerTakesPriority(p: Packet, authorities: seq<Record>, additionals: seq<Record>, i: nat)
    requires SelectedAt(p.answers, i) && p.answers[i].rdata != ""
    ensures Decide(p) == Answer(p.answers[i].rdata)
    ensures Decide(p.(authorities := authorities, additionals := additionals)) == Decide(p)
  {
  }

  /** Priority, second: without an answer, a non-empty glue value is the next
      name server, whatever the authority section holds. */
  lemma GlueBeforeReferral(p: Packet, authorities: seq<Record>, i: nat)
    requires GetAnswer(p.answers) == ""
    requires SelectedAt(p.additionals, i) && p.additionals[i].rdata != ""
    ensures Decide(p) == Delegate(p.additionals[i].rdata)
    ensures Decide(p.(authorities := authorities)) == Decide(p)
  {
  }

  /** Priority, third: with neither answer nor glue, a non-empty NS value
      from the authorities is escalated. */
  lemma ReferralLast(p: Packet, i: nat)
    requires GetAnswer(p.answers) == "" && GetNameServerIp(p.additionals) == ""
    requires SelectedAt(p.authorities, i) && p.authorities[i].rdata != ""
    ensures Decide(p) == Escalate(p.authorities[i].rdata)
  {
  }

  /** The loop repeats unchanged exactly when all three sections yield "";
      sections without any A or NS record are one way to get there. */
  lemma RepeatOnlyWhenNothingUsable(p: Packet)
    ensures Decide(p) == Repeat <==>
      GetAnswer(p.answers) == "" && GetNameServerIp(p.additionals) == "" && GetNameServer(p.authorities) == ""
    ensures NoneSelectable(p.answers) && NoneSelectable(p.additionals) && NoneSelectable(p.authorities)
      ==> Decide(p) == Repeat
  {
  }
}
