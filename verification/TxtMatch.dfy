/** Matching a TXT answer section against a dns-01 challenge (section 8.4 of RFC 8555). */
module TxtMatch {
  import opened Common

  const MAX_CNAME_CHAIN := 8

  datatype RData = Cname(target: string) | Txt(chunks: seq<Octets>) | OtherData

  datatype Record = Record(name: string, data: RData)

  function Folded(name: string): string {
    ToLower(name)
  }

  /** Domain names compare without regard to case. */
  predicate SameName(a: string, b: string) {
    Folded(a) == Folded(b)
  }

  /** The target of the first CNAME record owned by `name`. */
  function FirstCname(answers: seq<Record>, name: string): (r: Option<string>)
    ensures r.Some? ==> exists i :: 0 <= i < |answers| && answers[i].data.Cname?
                                    && SameName(answers[i].name, name) && answers[i].data.target == r.value
    ensures r.None? <==> forall i :: 0 <= i < |answers| ==>
                                       !(answers[i].data.Cname? && SameName(answers[i].name, name))
  {
    if answers == [] then None
    else if answers[0].data.Cname? && SameName(answers[0].name, name) then Some(answers[0].data.target)
    else
      var r := FirstCname(answers[1..], name);
      assert forall i :: 1 <= i < |answers| ==> answers[i] == answers[1..][i - 1];
      r
  }

  // ----- What a match means -----

  /** The name exactly `hops` first-CNAME hops away from the query name. */
  function NameAfter(answers: seq<Record>, query: string, hops: nat): Option<string> {
    if hops == 0 then Some(query)
    else
      var previous := NameAfter(answers, query, hops - 1);
      if previous.None? then None else FirstCname(answers, previous.value)
  }

  predicate IsAfter(answers: seq<Record>, query: string, hops: nat, owner: string) {
    NameAfter(answers, query, hops).Some? && SameName(NameAfter(answers, query, hops).value, owner)
  }

  /** The owner is the query name or at most `limit` hops away from it. */
  predicate Reachable(answers: seq<Record>, query: string, limit: nat, owner: string) {
    exists hops :: 0 <= hops <= limit && IsAfter(answers, query, hops, owner)
  }

  predicate ProvesControl(answers: seq<Record>, query: string, expected: Octets, record: Record) {
    && record.data.Txt? && Concat(record.data.chunks) == expected
    && Reachable(answers, query, MAX_CNAME_CHAIN, record.name)
  }

  predicate TxtMatches(answers: seq<Record>, query: string, expected: Octets) {
    exists i :: 0 <= i < |answers| && ProvesControl(answers, query, expected, answers[i])
  }

  // ----- The walk -----

  predicate Contains(names: seq<string>, name: string) {
    exists j :: 0 <= j < |names| && SameName(names[j], name)
  }

  /** `names` are the names 0, 1, ... hops away. */
  predicate IsChain(answers: seq<Record>, query: string, names: seq<string>) {
    |names| > 0 && forall k :: 0 <= k < |names| ==> NameAfter(answers, query, k) == Some(names[k])
  }

  lemma FirstCnameIgnoresCase(answers: seq<Record>, a: string, b: string)
    requires SameName(a, b)
    ensures FirstCname(answers, a) == FirstCname(answers, b)
  {
  }

  lemma HopStaysInChain(answers: seq<Record>, query: string, names: seq<string>, name: string)
    requires IsChain(answers, query, names) && Contains(names, name)
    requires var next := FirstCname(answers, names[|names| - 1]);
             next.None? || Contains(names, next.value)
    ensures var next := FirstCname(answers, name); next.None? || Contains(names, next.value)
  {
    hide Folded;
    var j :| 0 <= j < |names| && SameName(names[j], name);
    FirstCnameIgnoresCase(answers, names[j], name);
    if j < |names| - 1 {
      assert NameAfter(answers, query, j) == Some(names[j]) && NameAfter(answers, query, j + 1) == Some(names[j + 1]);
    }
  }

  /** Once a hop leads back to a name already seen, or nowhere, no later hop leads to a new name:
      stopping there loses nothing. */
  lemma {:induction false} NothingNewAfterStop(answers: seq<Record>, query: string, names: seq<string>, hops: nat)
    requires IsChain(answers, query, names) && hops >= |names|
    requires var next := FirstCname(answers, names[|names| - 1]);
             next.None? || Contains(names, next.value)
    ensures var n := NameAfter(answers, query, hops); n.None? || Contains(names, n.value)
  {
    hide Folded;
    if hops > |names| {
      NothingNewAfterStop(answers, query, names, hops - 1);
      var previous := NameAfter(answers, query, hops - 1);
      if previous.Some? {
        HopStaysInChain(answers, query, names, previous.value);
      }
    } else {
      assert NameAfter(answers, query, hops - 1) == Some(names[|names| - 1]);
    }
  }

  /** The walk's owners are exactly the reachable ones. */
  lemma OwnersAreReachable(answers: seq<Record>, query: string, names: seq<string>, limit: nat, owner: string)
    requires IsChain(answers, query, names) && |names| <= limit + 1
    requires var next := FirstCname(answers, names[|names| - 1]);
             |names| == limit + 1 || next.None? || Contains(names, next.value)
    ensures Contains(names, owner) <==> Reachable(answers, query, limit, owner)
  {
    hide Folded;
    if Contains(names, owner) {
      var j :| 0 <= j < |names| && SameName(names[j], owner);
      assert NameAfter(answers, query, j) == Some(names[j]);
      assert IsAfter(answers, query, j, owner);
    }
    if Reachable(answers, query, limit, owner) {
      var hops :| 0 <= hops <= limit && IsAfter(answers, query, hops, owner);
      if hops < |names| {
        assert NameAfter(answers, query, hops) == Some(names[hops]);
      } else {
        NothingNewAfterStop(answers, query, names, hops);
        var j :| 0 <= j < |names| && SameName(names[j], NameAfter(answers, query, hops).value);
        assert SameName(names[j], owner);
      }
    }
  }

  /** `txt_answers_match`: collect the acceptable owners along the CNAME chain, stopping at the
      hop limit, at a missing link or at a name already seen, then look for a TXT record. Stopping
      at a seen name never changes the answer. */
  method TxtAnswersMatch(query: string, answers: seq<Record>, expected: Octets) returns (matched: bool)
    ensures matched <==> TxtMatches(answers, query, expected)
  {
    hide Folded;
    var owners := [query];
    var current := query;
    var hop := 0;
    var stopped := false;
    while hop < MAX_CNAME_CHAIN && !stopped
      invariant 0 <= hop <= MAX_CNAME_CHAIN
      invariant IsChain(answers, query, owners) && current == owners[|owners| - 1]
      invariant !stopped ==> |owners| == hop + 1
      invariant stopped ==> |owners| <= MAX_CNAME_CHAIN
      invariant stopped ==> var next := FirstCname(answers, current); next.None? || Contains(owners, next.value)
      decreases MAX_CNAME_CHAIN - hop, !stopped
    {
      var next := FirstCname(answers, current);
      if next.Some? && !Contains(owners, next.value) {
        assert NameAfter(answers, query, |owners| - 1) == Some(current);
        owners := owners + [next.value];
        current := next.value;
        hop := hop + 1;
      } else {
        stopped := true;
      }
    }
    matched := false;
    for i := 0 to |answers|
      invariant matched <==> exists k :: 0 <= k < i && ProvesControl(answers, query, expected, answers[k])
    {
      OwnersAreReachable(answers, query, owners, MAX_CNAME_CHAIN, answers[i].name);
      if answers[i].data.Txt? && Contains(owners, answers[i].name) && Concat(answers[i].data.chunks) == expected {
        matched := true;
        assert ProvesControl(answers, query, expected, answers[i]);
      }
    }
  }

  // ----- Laws of the answer section -----

  lemma {:induction false} FirstCnameOfLonger(answers: seq<Record>, more: seq<Record>, name: string)
    requires FirstCname(answers, name).Some?
    ensures FirstCname(answers + more, name) == FirstCname(answers, name)
  {
    if !(answers[0].data.Cname? && SameName(answers[0].name, name)) {
      FirstCnameOfLonger(answers[1..], more, name);
      assert (answers + more)[1..] == answers[1..] + more;
    }
  }

  lemma {:induction false} NameAfterOfLonger(answers: seq<Record>, more: seq<Record>, query: string, hops: nat)
    requires NameAfter(answers, query, hops).Some?
    ensures NameAfter(answers + more, query, hops) == NameAfter(answers, query, hops)
  {
    if hops > 0 {
      NameAfterOfLonger(answers, more, query, hops - 1);
      FirstCnameOfLonger(answers, more, NameAfter(answers, query, hops - 1).value);
    }
  }

  /** Records appended to the section never undo a match. */
  lemma AppendingKeepsMatch(answers: seq<Record>, more: seq<Record>, query: string, expected: Octets)
    requires TxtMatches(answers, query, expected)
    ensures TxtMatches(answers + more, query, expected)
  {
    var i :| 0 <= i < |answers| && ProvesControl(answers, query, expected, answers[i]);
    var hops :| 0 <= hops <= MAX_CNAME_CHAIN && IsAfter(answers, query, hops, answers[i].name);
    NameAfterOfLonger(answers, more, query, hops);
    assert IsAfter(answers + more, query, hops, answers[i].name);
    assert (answers + more)[i] == answers[i];
    assert ProvesControl(answers + more, query, expected, (answers + more)[i]);
  }

  /** All CNAME records of this owner name the same target. */
  ghost predicate TargetsAgree(answers: seq<Record>, name: string) {
    forall r, r' :: r in answers && r' in answers && r.data.Cname? && r'.data.Cname?
                    && SameName(r.name, name) && SameName(r'.name, name)
                    ==> SameName(r.data.target, r'.data.target)
  }

  /** No owner whose CNAME the walk may follow has two targets. */
  ghost predicate SingleTargets(answers: seq<Record>, query: string) {
    forall hops: nat :: hops < MAX_CNAME_CHAIN && NameAfter(answers, query, hops).Some? ==>
      TargetsAgree(answers, NameAfter(answers, query, hops).value)
  }

  ghost predicate SameRecords(a: seq<Record>, b: seq<Record>) {
    forall r :: r in a <==> r in b
  }

  lemma FirstCnameOfReordered(a: seq<Record>, b: seq<Record>, m: string, n: string)
    requires SameRecords(a, b) && TargetsAgree(a, m) && SameName(m, n)
    ensures FirstCname(a, m).Some? <==> FirstCname(b, n).Some?
    ensures FirstCname(a, m).Some? ==> SameName(FirstCname(a, m).value, FirstCname(b, n).value)
  {
    hide Folded;
    if FirstCname(a, m).Some? {
      var i :| 0 <= i < |a| && a[i].data.Cname? && SameName(a[i].name, m) && a[i].data.target == FirstCname(a, m).value;
      assert a[i] in b;
    }
    if FirstCname(b, n).Some? {
      var j :| 0 <= j < |b| && b[j].data.Cname? && SameName(b[j].name, n) && b[j].data.target == FirstCname(b, n).value;
      assert b[j] in a;
    }
  }

  lemma {:induction false} NameAfterOfReordered(a: seq<Record>, b: seq<Record>, query: string, hops: nat)
    requires SameRecords(a, b) && SingleTargets(a, query) && hops <= MAX_CNAME_CHAIN
    ensures NameAfter(a, query, hops).Some? <==> NameAfter(b, query, hops).Some?
    ensures NameAfter(a, query, hops).Some? ==>
              SameName(NameAfter(a, query, hops).value, NameAfter(b, query, hops).value)
  {
    hide Folded, TargetsAgree, FirstCname, SameRecords;
    if hops > 0 {
      NameAfterOfReordered(a, b, query, hops - 1);
      if NameAfter(a, query, hops - 1).Some? {
        FirstCnameOfReordered(a, b, NameAfter(a, query, hops - 1).value, NameAfter(b, query, hops - 1).value);
      }
    }
  }

  /** When no owner the walk can reach has two CNAME targets, the order (and repetition) of records
      does not matter; what other owners have does not either. */
  lemma OrderDoesNotMatter(a: seq<Record>, b: seq<Record>, query: string, expected: Octets)
    requires SameRecords(a, b) && SingleTargets(a, query)
    ensures TxtMatches(a, query, expected) <==> TxtMatches(b, query, expected)
  {
    hide TxtMatches, SingleTargets;
    forall hops: nat, owner | hops <= MAX_CNAME_CHAIN
      ensures IsAfter(a, query, hops, owner) <==> IsAfter(b, query, hops, owner)
    {
      NameAfterOfReordered(a, b, query, hops);
    }
    ReorderedMatches(a, b, query, expected);
    ReorderedMatches(b, a, query, expected);
  }

  lemma ReorderedMatches(a: seq<Record>, b: seq<Record>, query: string, expected: Octets)
    requires SameRecords(a, b)
    requires forall hops: nat, owner :: hops <= MAX_CNAME_CHAIN ==>
               (IsAfter(a, query, hops, owner) <==> IsAfter(b, query, hops, owner))
    ensures TxtMatches(a, query, expected) ==> TxtMatches(b, query, expected)
  {
    hide IsAfter;
    if TxtMatches(a, query, expected) {
      var i :| 0 <= i < |a| && ProvesControl(a, query, expected, a[i]);
      var hops :| 0 <= hops <= MAX_CNAME_CHAIN && IsAfter(a, query, hops, a[i].name);
      assert IsAfter(b, query, hops, a[i].name);
      assert a[i] in b;
      var j :| 0 <= j < |b| && b[j] == a[i];
      assert ProvesControl(b, query, expected, b[j]);
    }
  }

  // ----- How far the walk goes -----

  /** A chain of CNAME records along the names, and a digest below the last of them. */
  function ChainSection(names: seq<string>, k: nat): seq<Record>
    requires k < |names|
  {
    if k == 0 then [] else ChainSection(names, k - 1) + [Record(names[k - 1], Cname(names[k]))]
  }

  predicate AllDifferent(names: seq<string>) {
    forall i, j :: 0 <= i < j < |names| ==> !SameName(names[i], names[j])
  }

  lemma {:induction false} ChainOwners(names: seq<string>, k: nat, r: Record)
    requires k < |names| && r in ChainSection(names, k)
    ensures exists i :: 0 <= i < k && r == Record(names[i], Cname(names[i + 1]))
  {
    if r in ChainSection(names, k - 1) {
      ChainOwners(names, k - 1, r);
    } else {
      assert r == Record(names[k - 1], Cname(names[k - 1 + 1]));
    }
  }

  lemma {:induction false} ChainHas(names: seq<string>, k: nat, i: nat)
    requires i < k < |names|
    ensures Record(names[i], Cname(names[i + 1])) in ChainSection(names, k)
  {
    if i < k - 1 {
      ChainHas(names, k - 1, i);
    }
  }

  lemma HopAlongChain(names: seq<string>, k: nat, answers: seq<Record>, found: Record, i: nat)
    requires i < k < |names| && AllDifferent(names) && !found.data.Cname?
    requires answers == ChainSection(names, k) + [found]
    ensures FirstCname(answers, names[i]) == Some(names[i + 1])
  {
    hide Folded;
    ChainHas(names, k, i);
    var n: nat :| n < |ChainSection(names, k)| && ChainSection(names, k)[n] == Record(names[i], Cname(names[i + 1]));
    assert answers[n] == Record(names[i], Cname(names[i + 1]));
    var r := FirstCname(answers, names[i]);
    assert r.Some?;
    var m :| 0 <= m < |answers| && answers[m].data.Cname? && SameName(answers[m].name, names[i])
             && answers[m].data.target == r.value;
    assert answers[m] in ChainSection(names, k);
    ChainOwners(names, k, answers[m]);
  }

  lemma {:induction false} AlongChain(names: seq<string>, k: nat, answers: seq<Record>, found: Record, hops: nat)
    requires k < |names| && AllDifferent(names) && !found.data.Cname? && hops <= k
    requires answers == ChainSection(names, k) + [found]
    ensures NameAfter(answers, names[0], hops) == Some(names[hops])
  {
    hide Folded, ChainSection, FirstCname;
    if hops > 0 {
      AlongChain(names, k, answers, found, hops - 1);
      HopAlongChain(names, k, answers, found, hops - 1);
    }
  }

  /** A digest below the last name of a chain of different names is found exactly when the chain has
      at most eight hops. */
  lemma ChainsOfEight(names: seq<string>, k: nat, expected: Octets)
    requires k < |names| && AllDifferent(names)
    ensures TxtMatches(ChainSection(names, k) + [Record(names[k], Txt([expected]))], names[0], expected) <==> k <= 8
  {
    hide Folded, ChainSection, FirstCname;
    var found := Record(names[k], Txt([expected]));
    var answers := ChainSection(names, k) + [found];
    ConcatOne(expected);
    AlongChain(names, k, answers, found, k);
    var last := |ChainSection(names, k)|;
    assert answers[last] == found;
    if k <= 8 {
      assert IsAfter(answers, names[0], k, names[k]);
      assert ProvesControl(answers, names[0], expected, answers[last]);
    } else {
      forall hops: nat | hops <= 8
        ensures !IsAfter(answers, names[0], hops, names[k])
      {
        AlongChain(names, k, answers, found, hops);
      }
      OnlyTheEnd(names, k, answers, found);
    }
  }

  lemma OnlyTheEnd(names: seq<string>, k: nat, answers: seq<Record>, found: Record)
    requires k < |names| && answers == ChainSection(names, k) + [found]
    ensures forall i :: 0 <= i < |answers| && answers[i].data.Txt? ==> answers[i] == found
  {
    forall i | 0 <= i < |answers| && answers[i].data.Txt?
      ensures answers[i] == found
    {
      if i < |ChainSection(names, k)| {
        assert answers[i] in ChainSection(names, k);
        ChainOwners(names, k, answers[i]);
      }
    }
  }

  lemma FirstHopMatches(answers: seq<Record>, query: string, i: nat, owner: string, expected: Octets)
    requires FirstCname(answers, query) == Some(owner)
    requires i < |answers| && answers[i] == Record(owner, Txt([expected]))
    ensures TxtMatches(answers, query, expected)
  {
    hide Folded;
    assert Concat([expected]) == expected;
    assert NameAfter(answers, query, 0) == Some(query);
    assert NameAfter(answers, query, 1) == Some(owner);
    assert IsAfter(answers, query, 1, owner);
    assert ProvesControl(answers, query, expected, answers[i]);
  }

  lemma SecondHopStops(answers: seq<Record>, query: string, owner: string, other: string)
    requires FirstCname(answers, query) == Some(owner) && FirstCname(answers, owner) == None
    requires !SameName(query, other) && !SameName(owner, other) && !SameName(query, owner)
    ensures !Reachable(answers, query, MAX_CNAME_CHAIN, other)
  {
    var names := [query, owner];
    assert NameAfter(answers, query, 0) == Some(query);
    assert NameAfter(answers, query, 1) == Some(owner);
    assert IsChain(answers, query, names);
    OwnersAreReachable(answers, query, names, MAX_CNAME_CHAIN, other);
  }

  /** With two CNAME records for one owner the order does matter, for any three different names and
      any digest: only the first record is followed, so the digest below one target is found in one
      order and not in the other. */
  lemma OrderMattersWithTwoTargets(query: string, x: string, y: string, expected: Octets)
    requires !SameName(query, x) && !SameName(query, y) && !SameName(x, y)
    ensures var toX, toY := Record(query, Cname(x)), Record(query, Cname(y));
            var found := Record(x, Txt([expected]));
            TxtMatches([toX, toY, found], query, expected) && !TxtMatches([toY, toX, found], query, expected)
  {
    hide Folded;
    var toX, toY, found := Record(query, Cname(x)), Record(query, Cname(y)), Record(x, Txt([expected]));
    var a, b := [toX, toY, found], [toY, toX, found];
    assert FirstCname(a, query) == Some(x);
    FirstHopMatches(a, query, 2, x, expected);
    assert FirstCname(b, query) == Some(y) && FirstCname(b, y) == None;
    SecondHopStops(b, query, y, x);
  }

  // ----- Letter case -----

  /** The same record but for the letter case of its names. */
  predicate SameRecord(a: Record, b: Record) {
    && EqualFold(a.name, b.name)
    && match a.data
       case Cname(target) => b.data.Cname? && EqualFold(target, b.data.target)
       case _ => a.data == b.data
  }

  predicate SameSection(answers: seq<Record>, others: seq<Record>) {
    |answers| == |others| && forall i :: 0 <= i < |answers| ==> SameRecord(answers[i], others[i])
  }

  predicate SameAnswer(a: Option<string>, b: Option<string>) {
    match (a, b)
    case (Some(x), Some(y)) => EqualFold(x, y)
    case (None, None) => true
    case _ => false
  }

  lemma SameNameIsEqualFold(a: string, b: string)
    ensures SameName(a, b) <==> EqualFold(a, b)
  {
    ToLowerFolds(a, b);
  }

  /** Names that are equal up to case compare alike with any name that is. */
  lemma SameNameKept(a: string, a': string, b: string, b': string)
    requires EqualFold(a, a') && EqualFold(b, b')
    ensures SameName(a, b) <==> SameName(a', b')
  {
    SameNameIsEqualFold(a, a');
    SameNameIsEqualFold(b, b');
  }

  lemma {:induction false} FirstCnameKept(answers: seq<Record>, others: seq<Record>, name: string, name': string)
    requires SameSection(answers, others) && EqualFold(name, name')
    ensures SameAnswer(FirstCname(answers, name), FirstCname(others, name'))
  {
    hide SameName, EqualFold;
    if answers != [] {
      assert SameRecord(answers[0], others[0]);
      SameNameKept(answers[0].name, others[0].name, name, name');
      assert forall i :: 0 <= i < |answers[1..]| ==> answers[1..][i] == answers[i + 1] && others[1..][i] == others[i + 1];
      FirstCnameKept(answers[1..], others[1..], name, name');
    }
  }

  lemma {:induction false} NameAfterKept(answers: seq<Record>, others: seq<Record>, query: string, query': string, hops: nat)
    requires SameSection(answers, others) && EqualFold(query, query')
    ensures SameAnswer(NameAfter(answers, query, hops), NameAfter(others, query', hops))
  {
    hide EqualFold, FirstCname, SameSection;
    if hops > 0 {
      NameAfterKept(answers, others, query, query', hops - 1);
      var previous, previous' := NameAfter(answers, query, hops - 1), NameAfter(others, query', hops - 1);
      if previous.Some? {
        FirstCnameKept(answers, others, previous.value, previous'.value);
      }
    }
  }

  lemma ProofKept(
    answers: seq<Record>, others: seq<Record>, query: string, query': string, expected: Octets, i: nat)
    requires SameSection(answers, others) && EqualFold(query, query')
    requires i < |answers| && ProvesControl(answers, query, expected, answers[i])
    ensures ProvesControl(others, query', expected, others[i])
  {
    hide EqualFold, FirstCname, SameName, NameAfter, Concat;
    assert SameRecord(answers[i], others[i]);
    var hops :| 0 <= hops <= MAX_CNAME_CHAIN && IsAfter(answers, query, hops, answers[i].name);
    NameAfterKept(answers, others, query, query', hops);
    SameNameKept(NameAfter(answers, query, hops).value, NameAfter(others, query', hops).value,
                 answers[i].name, others[i].name);
    assert IsAfter(others, query', hops, others[i].name);
  }

  lemma FoldIsSymmetric(a: string, b: string)
    ensures EqualFold(a, b) <==> EqualFold(b, a)
  {
  }

  lemma SectionsAreSymmetric(answers: seq<Record>, others: seq<Record>)
    requires SameSection(answers, others)
    ensures SameSection(others, answers)
  {
    hide EqualFold;
    forall i | 0 <= i < |others|
      ensures SameRecord(others[i], answers[i])
    {
      assert SameRecord(answers[i], others[i]);
      FoldIsSymmetric(answers[i].name, others[i].name);
      if answers[i].data.Cname? {
        FoldIsSymmetric(answers[i].data.target, others[i].data.target);
      }
    }
  }

  /** The letter case of the query, the owners and the CNAME targets never decides a match. */
  lemma CaseDoesNotMatter(answers: seq<Record>, others: seq<Record>, query: string, query': string, expected: Octets)
    requires SameSection(answers, others) && EqualFold(query, query')
    ensures TxtMatches(answers, query, expected) <==> TxtMatches(others, query', expected)
  {
    hide EqualFold, ProvesControl;
    if TxtMatches(answers, query, expected) {
      var i :| 0 <= i < |answers| && ProvesControl(answers, query, expected, answers[i]);
      ProofKept(answers, others, query, query', expected, i);
    }
    if TxtMatches(others, query', expected) {
      var i :| 0 <= i < |others| && ProvesControl(others, query', expected, others[i]);
      SectionsAreSymmetric(answers, others);
      FoldIsSymmetric(query, query');
      ProofKept(others, answers, query', query, expected, i);
    }
  }
}
