/** Record selection in main.go: `getRecord` and its three wrappers
    `getAnswer`, `getNameServerIp` and `getNameServer`. Every section is
    scanned with the same filter: the first record of type A or type NS wins,
    whatever section it sits in. */
module Selection {
  import opened DnsTypes

  /** The filter of getRecord: type A or type NS. */
  predicate Selectable(rec: Record) {
    rec.rtype == TypeA || rec.rtype == TypeNS
  }

  /** Record `i` is the first selectable record of `records`. */
  predicate SelectedAt(records: seq<Record>, i: int) {
    && 0 <= i < |records|
    && Selectable(records[i])
    && forall j :: 0 <= j < i ==> !Selectable(records[j])
  }

  /** No record of the section passes the filter (true of the empty section). */
  predicate NoneSelectable(records: seq<Record>) {
    forall i :: 0 <= i < |records| ==> !Selectable(records[i])
  }

  /** Reference definition: the selectable records of a section, in section order. */
  function Matching(records: seq<Record>): (m: seq<Record>)
    ensures |m| <= |records|
    ensures forall k :: 0 <= k < |m| ==> Selectable(m[k])
  {
    if |records| == 0 then []
    else if Selectable(records[0]) then [records[0]] + Matching(records[1..])
    else Matching(records[1..])
  }

  /** Index of the first selectable record, |records| when there is none. */
  function FirstSelectable(records: seq<Record>): (k: nat)
    ensures k <= |records|
    ensures forall j :: 0 <= j < k ==> !Selectable(records[j])
    ensures k < |records| ==> Selectable(records[k])
  {
    if |records| == 0 then 0
    else if Selectable(records[0]) then 0
    else 1 + FirstSelectable(records[1..])
  }

  /** getRecord: the RDATA of the first A or NS record, or "" when there is none. */
  function GetRecord(records: seq<Record>): (r: string)
    ensures forall i :: SelectedAt(records, i) ==> r == records[i].rdata
    ensures NoneSelectable(records) ==> r == ""
  {
    if |records| == 0 then ""
    else if Selectable(records[0]) then records[0].rdata
    else
      var r := GetRecord(records[1..]);
      assert forall i :: SelectedAt(records, i) ==> SelectedAt(records[1..], i - 1);
      r
  }

  /** The `for ... range` scan of getRecord, as a loop. */
  method ScanRecords(records: seq<Record>) returns (r: string)
    ensures forall i :: SelectedAt(records, i) ==> r == records[i].rdata
    ensures NoneSelectable(records) ==> r == ""
  {
    var i := 0;
    while i < |records|
      invariant 0 <= i <= |records|
      invariant forall j :: 0 <= j < i ==> !Selectable(records[j])
    {
      if Selectable(records[i]) {
        assert SelectedAt(records, i);
        return records[i].rdata;
      }
      i := i + 1;
    }
    return "";
  }

  /** getAnswer: the answer section through the same filter. */
  function GetAnswer(answers: seq<Record>): (ip: string)
    ensures forall i :: SelectedAt(answers, i) ==> ip == answers[i].rdata
    ensures NoneSelectable(answers) ==> ip == ""
  {
    GetRecord(answers)
  }

  /** getNameServerIp: the additional section through the same filter. */
  function GetNameServerIp(additionals: seq<Record>): (nsIp: string)
    ensures forall i :: SelectedAt(additionals, i) ==> nsIp == additionals[i].rdata
    ensures NoneSelectable(additionals) ==> nsIp == ""
  {
    GetRecord(additionals)
  }

  /** getNameServer: the authority section through the same filter. */
  function GetNameServer(authorities: seq<Record>): (nsDomain: string)
    ensures forall i :: SelectedAt(authorities, i) ==> nsDomain == authorities[i].rdata
    ensures NoneSelectable(authorities) ==> nsDomain == ""
  {
    GetRecord(authorities)
  }

  /** Records of other types in front of the first match are skipped. */
  lemma {:induction false} SkipsOtherTypes(skipped: seq<Record>, rest: seq<Record>)
    requires NoneSelectable(skipped)
    ensures GetRecord(skipped + rest) == GetRecord(rest)
    decreases |skipped|
  {
    if |skipped| > 0 {
      var whole := skipped + rest;
      assert whole[0] == skipped[0] && !Selectable(whole[0]);
      assert whole[1..] == skipped[1..] + rest;
      assert GetRecord(whole) == GetRecord(whole[1..]);
      SkipsOtherTypes(skipped[1..], rest);
    } else {
      assert skipped + rest == rest;
    }
  }

  /** Scanning a concatenation: the first part decides when it holds a match,
      otherwise the second part does. */
  lemma {:induction false} GetRecordAppend(front: seq<Record>, back: seq<Record>)
    ensures FirstSelectable(front) < |front| ==> GetRecord(front + back) == GetRecord(front)
    ensures FirstSelectable(front) == |front| ==> GetRecord(front + back) == GetRecord(back)
    decreases |front|
  {
    if |front| > 0 {
      var whole := front + back;
      assert whole[0] == front[0];
      if !Selectable(front[0]) {
        assert whole[1..] == front[1..] + back;
        assert GetRecord(whole) == GetRecord(whole[1..]);
        GetRecordAppend(front[1..], back);
      }
    } else {
      assert front + back == back;
    }
  }

  /** getRecord agrees with the reference definition: the RDATA of the head
      of the matching records, "" when there are none. */
  lemma {:induction false} GetRecordIsFirstMatch(records: seq<Record>)
    ensures GetRecord(records) == (if Matching(records) == [] then "" else Matching(records)[0].rdata)
    decreases |records|
  {
    if |records| > 0 && !Selectable(records[0]) {
      GetRecordIsFirstMatch(records[1..]);
    }
  }

  /** getRecord returns "" exactly when no record matches or the first match
      carries empty RDATA: the caller cannot tell the two apart. */
  lemma EmptyResultMeans(records: seq<Record>)
    ensures GetRecord(records) == "" <==>
      NoneSelectable(records) || exists i :: SelectedAt(records, i) && records[i].rdata == ""
  {
    var k := FirstSelectable(records);
    if k < |records| {
      assert SelectedAt(records, k);
    }
  }

  /** The wrappers share one filter: an NS record at the head of the answer
      section is returned as the answer. */
  lemma NameServerRecordIsAnAnswer(answers: seq<Record>)
    requires |answers| > 0 && answers[0].rtype == TypeNS
    ensures GetAnswer(answers) == answers[0].rdata
  {
    assert SelectedAt(answers, 0);
  }
}
