/** The checks in front of issuance: the order, its authorizations, the CSR's names, and the
    names as they are forwarded to and read by the CA (sections 7.1.6 and 7.4 of RFC 8555,
    section 7 of RFC 8738). */
module Finalize {
  import opened Common
  import opened IpAddresses
  import opened Identifiers

  type RowId = nat

  /** Row statuses of orders, authorizations and challenges. */
  datatype Status = Pending | Processing | Ready | Valid | Invalid

  datatype OrderRow = OrderRow(account: RowId, status: Status, identifiers: seq<Identifier>, expires: int)

  datatype AuthzRow = AuthzRow(id: RowId, order: RowId, identifier: AuthzIdentifier, status: Status, expires: int)

  datatype ChallengeRow = ChallengeRow(authz: RowId, challengeType: string, status: Status)

  datatype FinalizeError = OrderNotReady | Unauthorized

  // ----- check_order_finalizable -----

  function RowKeys(authzs: seq<AuthzRow>): (keys: seq<AuthzKey>)
    ensures |keys| == |authzs| && forall i :: 0 <= i < |authzs| ==> keys[i] == Key(authzs[i].identifier)
  {
    seq(|authzs|, i requires 0 <= i < |authzs| => Key(authzs[i].identifier))
  }

  /** The authorizations match the order's identifiers one-to-one: as many rows with each key as
      identifiers with that key. */
  ghost predicate Bound(ip: IpText, ids: seq<Identifier>, authzs: seq<AuthzRow>)
    requires AllParse(ip, ids)
  {
    multiset(RowKeys(authzs)) == multiset(Keys(Parsed(ip, ids)))
  }

  predicate UsableRow(a: AuthzRow, now: int) {
    a.status == Valid && a.expires > now
  }

  predicate ProvenByHttp01(authz: RowId, challenges: seq<ChallengeRow>) {
    exists i :: 0 <= i < |challenges| && challenges[i] == ChallengeRow(authz, HTTP_01, Valid)
  }

  ghost predicate AllUsable(authzs: seq<AuthzRow>, now: int) {
    forall i :: 0 <= i < |authzs| ==> UsableRow(authzs[i], now)
  }

  ghost predicate AllAddressesProven(authzs: seq<AuthzRow>, challenges: seq<ChallengeRow>) {
    forall i :: 0 <= i < |authzs| && authzs[i].identifier.idType == "ip" ==> ProvenByHttp01(authzs[i].id, challenges)
  }

  /** The verdict, as the documentation orders it: order state, then binding, then status and
      expiry, then the method of address proofs. */
  ghost function Verdict(ip: IpText, order: OrderRow, ids: seq<Identifier>, authzs: seq<AuthzRow>,
                         challenges: seq<ChallengeRow>, now: int): Result<(), FinalizeError> {
    if order.status != Ready || order.expires <= now then Err(OrderNotReady)
    else if !Acceptable(ip, ids) || !Bound(ip, ids, authzs) then Err(Unauthorized)
    else if !AllUsable(authzs, now) then Err(OrderNotReady)
    else if !AllAddressesProven(authzs, challenges) then Err(Unauthorized)
    else Ok(())
  }

  /** The elements of a sequence. */
  function Elements<T(==)>(s: seq<T>): (r: set<T>)
    ensures forall x <- s :: x in r
  {
    set x | x in s
  }

  lemma {:induction false} DistinctIsSet<T>(s: seq<T>)
    requires Distinct(s)
    ensures multiset(s) == multiset(Elements(s)) && |Elements(s)| == |s|
  {
    if s != [] {
      var last := |s| - 1;
      DistinctIsSet(s[..last]);
      assert s == s[..last] + [s[last]];
      assert Elements(s) == Elements(s[..last]) + {s[last]};
      assert s[last] !in Elements(s[..last]);
    }
  }

  lemma SubsetOfSameSize<T>(a: set<T>, b: set<T>)
    requires a <= b && |a| == |b|
    ensures a == b
  {
    assert |b - a| == |b| - |a|;
    assert b == a + (b - a);
  }

  /** Removing each row's key from the expected ones succeeds to the end exactly for a one-to-one
      match. */
  lemma RemovedAllIsBound(keys: seq<AuthzKey>, expected: seq<AuthzKey>)
    requires Distinct(expected) && Distinct(keys) && |keys| == |expected|
    requires forall k :: k in keys ==> k in expected
    ensures multiset(keys) == multiset(expected)
  {
    DistinctIsSet(keys);
    DistinctIsSet(expected);
    SubsetOfSameSize(Elements(keys), Elements(expected));
  }

  lemma BoundIsDistinct(keys: seq<AuthzKey>, expected: seq<AuthzKey>, i: nat)
    requires Distinct(expected) && multiset(keys) == multiset(expected) && i < |keys|
    ensures keys[i] in expected && keys[i] !in keys[..i] && |keys| == |expected|
  {
    DistinctIsSet(expected);
    assert |multiset(keys)| == |multiset(expected)|;
    assert keys[i] in multiset(expected);
    forall j | 0 <= j < i
      ensures keys[j] != keys[i]
    {
      RepeatCounted(keys, j, i);
    }
  }

  lemma RepeatCounted<T>(t: seq<T>, i: nat, j: nat)
    requires i < j < |t|
    ensures t[i] == t[j] ==> multiset(t)[t[i]] >= 2
  {
    assert t == t[..i] + [t[i]] + t[i + 1..j] + [t[j]] + t[j + 1..];
  }

  // ----- The verdict in plain terms -----

  predicate OrderIsLive(order: OrderRow, now: int) {
    order.status == Ready && now < order.expires
  }

  /** Some row is the authorization of identifier `a`. */
  predicate HasRow(a: AuthzIdentifier, authzs: seq<AuthzRow>) {
    exists j :: 0 <= j < |authzs| && SameIdentifier(a, authzs[j].identifier)
  }

  /** As many rows as identifiers, and a row for each; since no two identifiers are the same, that
      is one row each. */
  predicate OneRowEach(ip: IpText, ids: seq<Identifier>, authzs: seq<AuthzRow>)
    requires AllParse(ip, ids)
  {
    |authzs| == |ids| && forall i :: 0 <= i < |ids| ==> HasRow(Parsed(ip, ids)[i], authzs)
  }

  predicate RowsAreLive(authzs: seq<AuthzRow>, now: int) {
    forall j :: 0 <= j < |authzs| ==> authzs[j].status == Valid && now < authzs[j].expires
  }

  /** The challenge list holds a valid http-01 challenge of this row. */
  predicate HasHttp01(row: AuthzRow, challenges: seq<ChallengeRow>) {
    exists k :: 0 <= k < |challenges| && challenges[k].authz == row.id
                && challenges[k].challengeType == "http-01" && challenges[k].status == Valid
  }

  predicate AddressesByHttp01(authzs: seq<AuthzRow>, challenges: seq<ChallengeRow>) {
    forall j :: 0 <= j < |authzs| && authzs[j].identifier.idType == "ip" ==> HasHttp01(authzs[j], challenges)
  }

  lemma {:induction false} ElementsOf<T>(s: seq<T>)
    ensures |Elements(s)| <= |s|
    ensures |Elements(s)| == |s| ==> Distinct(s)
  {
    if s != [] {
      var last := |s| - 1;
      ElementsOf(s[..last]);
      assert s == s[..last] + [s[last]];
      assert Elements(s) == Elements(s[..last]) + {s[last]};
    }
  }

  lemma HasRowIsKey(a: AuthzIdentifier, authzs: seq<AuthzRow>)
    ensures HasRow(a, authzs) <==> Key(a) in RowKeys(authzs)
  {
    hide Key, SameIdentifier;
    forall j | 0 <= j < |authzs|
      ensures RowKeys(authzs)[j] == Key(a) <==> SameIdentifier(a, authzs[j].identifier)
    {
      KeyIsSameIdentifier(a, authzs[j].identifier);
    }
  }

  lemma OneRowEachIsBound(ip: IpText, ids: seq<Identifier>, authzs: seq<AuthzRow>)
    requires Acceptable(ip, ids)
    ensures Bound(ip, ids, authzs) <==> OneRowEach(ip, ids, authzs)
  {
    hide ParseIdentifier, Key, HasRow;
    var keys, rows := Keys(Parsed(ip, ids)), RowKeys(authzs);
    forall i | 0 <= i < |ids|
      ensures HasRow(Parsed(ip, ids)[i], authzs) <==> keys[i] in rows
    {
      HasRowIsKey(Parsed(ip, ids)[i], authzs);
    }
    if Bound(ip, ids, authzs) {
      assert |multiset(rows)| == |multiset(keys)|;
      forall i | 0 <= i < |ids|
        ensures keys[i] in rows
      {
        assert keys[i] in multiset(rows);
      }
    }
    if OneRowEach(ip, ids, authzs) {
      RowsCoverKeys(rows, keys);
    }
  }

  lemma RowsCoverKeys(rows: seq<AuthzKey>, keys: seq<AuthzKey>)
    requires Distinct(keys) && |rows| == |keys| && Elements(keys) <= Elements(rows)
    ensures multiset(rows) == multiset(keys)
  {
    DistinctIsSet(keys);
    ElementsOf(rows);
    CardinalityOfSubset(Elements(keys), Elements(rows));
    SubsetOfSameSize(Elements(keys), Elements(rows));
    DistinctIsSet(rows);
  }

  lemma CardinalityOfSubset<T>(a: set<T>, b: set<T>)
    requires a <= b
    ensures |a| <= |b|
  {
    assert |b - a| == |b| - |a|;
  }

  /** The verdict by its first failing guard, in plain terms. */
  lemma VerdictExactly(ip: IpText, order: OrderRow, ids: seq<Identifier>, authzs: seq<AuthzRow>,
                       challenges: seq<ChallengeRow>, now: int)
    ensures var r := Verdict(ip, order, ids, authzs, challenges, now);
            if !OrderIsLive(order, now) then r == Err(OrderNotReady)
            else if !Acceptable(ip, ids) || !OneRowEach(ip, ids, authzs) then r == Err(Unauthorized)
            else if !RowsAreLive(authzs, now) then r == Err(OrderNotReady)
            else if !AddressesByHttp01(authzs, challenges) then r == Err(Unauthorized)
            else r == Ok(())
  {
    hide Acceptable, Bound, OneRowEach;
    if Acceptable(ip, ids) {
      OneRowEachIsBound(ip, ids, authzs);
    }
    AllUsableIsLive(authzs, now);
    forall j | 0 <= j < |authzs|
      ensures HasHttp01(authzs[j], challenges) <==> ProvenByHttp01(authzs[j].id, challenges)
    {
      Http01IsProof(authzs[j], challenges);
    }
  }

  lemma AllUsableIsLive(authzs: seq<AuthzRow>, now: int)
    ensures AllUsable(authzs, now) <==> RowsAreLive(authzs, now)
  {
    if AllUsable(authzs, now) {
      forall j | 0 <= j < |authzs|
        ensures authzs[j].status == Valid && now < authzs[j].expires
      {
        assert UsableRow(authzs[j], now);
      }
    }
  }

  lemma Http01IsProof(row: AuthzRow, challenges: seq<ChallengeRow>)
    ensures HasHttp01(row, challenges) <==> ProvenByHttp01(row.id, challenges)
  {
    if HasHttp01(row, challenges) {
      var k :| 0 <= k < |challenges| && challenges[k].authz == row.id
               && challenges[k].challengeType == "http-01" && challenges[k].status == Valid;
      assert challenges[k] == ChallengeRow(row.id, HTTP_01, Valid);
    }
    if ProvenByHttp01(row.id, challenges) {
      var k :| 0 <= k < |challenges| && challenges[k] == ChallengeRow(row.id, HTTP_01, Valid);
      assert challenges[k].authz == row.id;
    }
  }

  /** `check_order_finalizable`: accepted exactly when the order is live, has one row for each of its
      identifiers and no other, all live, and each address row has a valid http-01 challenge of its
      own in the list; otherwise the first of these that fails names the error. */
  method CheckOrderFinalizable(ip: IpText, order: OrderRow, ids: seq<Identifier>, authzs: seq<AuthzRow>,
                               challenges: seq<ChallengeRow>, now: int) returns (r: Result<(), FinalizeError>)
    ensures r == Verdict(ip, order, ids, authzs, challenges, now)
    ensures r.Ok? <==>
              && OrderIsLive(order, now) && Acceptable(ip, ids) && OneRowEach(ip, ids, authzs)
              && RowsAreLive(authzs, now) && AddressesByHttp01(authzs, challenges)
    ensures r == Err(OrderNotReady) <==>
              || !OrderIsLive(order, now)
              || (Acceptable(ip, ids) && OneRowEach(ip, ids, authzs) && !RowsAreLive(authzs, now))
  {
    hide ParseIdentifier, Key, SameIdentifier, OneRowEach, AddressesByHttp01, RowsAreLive;
    VerdictExactly(ip, order, ids, authzs, challenges, now);
    if order.status != Ready || order.expires <= now {
      return Err(OrderNotReady);
    }
    var expected := ValidateOrderIdentifiers(ip, ids);
    if expected.Err? {
      return Err(Unauthorized);
    }
    r := BindRows(expected.value, authzs);
    if r.Err? {
      return;
    }
    for i := 0 to |authzs|
      invariant forall k :: 0 <= k < i ==> UsableRow(authzs[k], now)
    {
      if authzs[i].status != Valid || authzs[i].expires <= now {
        assert !UsableRow(authzs[i], now);
        return Err(OrderNotReady);
      }
    }
    for i := 0 to |authzs|
      invariant forall k :: 0 <= k < i && authzs[k].identifier.idType == "ip" ==> ProvenByHttp01(authzs[k].id, challenges)
    {
      if authzs[i].identifier.idType == "ip" && !ProvenByHttp01(authzs[i].id, challenges) {
        return Err(Unauthorized);
      }
    }
    return Ok(());
  }

  /** Pass 1 of `check_order_finalizable`: strike each row's key from the expected keys. */
  method BindRows(expected: seq<AuthzIdentifier>, authzs: seq<AuthzRow>) returns (r: Result<(), FinalizeError>)
    requires Distinct(Keys(expected))
    ensures r == if multiset(RowKeys(authzs)) == multiset(Keys(expected)) then Ok(()) else Err(Unauthorized)
  {
    hide Key;
    var keys := Keys(expected);
    ghost var rows := RowKeys(authzs);
    var expectedKeys := set k | k in keys;
    assert expectedKeys == Elements(keys);
    DistinctIsSet(keys);
    if |authzs| != |expectedKeys| {
      assert |multiset(rows)| != |multiset(keys)|;
      return Err(Unauthorized);
    }
    for i := 0 to |authzs|
      invariant expectedKeys == Elements(keys) - Elements(rows[..i])
      invariant Distinct(rows[..i]) && forall k :: k in rows[..i] ==> k in keys
    {
      var key := Key(authzs[i].identifier);
      assert key == rows[i] && rows[..i + 1] == rows[..i] + [rows[i]];
      if key !in expectedKeys {
        if multiset(rows) == multiset(keys) {
          BoundIsDistinct(rows, keys, i);
          assert false;
        }
        return Err(Unauthorized);
      }
      expectedKeys := expectedKeys - {key};
    }
    assert rows[..|authzs|] == rows;
    RemovedAllIsBound(rows, keys);
    return Ok(());
  }

  /** The binding is a bijection: every identifier has exactly one row with its key, every row
      exactly one identifier. */
  lemma BindingIsOneToOne(ip: IpText, ids: seq<Identifier>, authzs: seq<AuthzRow>, i: nat)
    requires Acceptable(ip, ids) && Bound(ip, ids, authzs)
    ensures |authzs| == |ids|
    ensures i < |ids| ==> exists j :: RowOf(ip, ids, authzs, i, j)
                                      && forall j' :: RowOf(ip, ids, authzs, i, j') ==> j' == j
    ensures i < |authzs| ==> exists j :: RowOf(ip, ids, authzs, j, i)
                                         && forall j' :: RowOf(ip, ids, authzs, j', i) ==> j' == j
  {
    hide ParseIdentifier, Key;
    var keys, rows := Keys(Parsed(ip, ids)), RowKeys(authzs);
    DistinctIsSet(keys);
    assert |multiset(rows)| == |multiset(keys)|;
    forall a, b | 0 <= a < b < |rows|
      ensures rows[a] != rows[b]
    {
      BoundIsDistinct(rows, keys, b);
      assert rows[a] == rows[..b][a];
    }
    if i < |ids| {
      assert keys[i] in multiset(rows);
      var j :| 0 <= j < |rows| && rows[j] == keys[i];
      assert RowOf(ip, ids, authzs, i, j);
    }
    if i < |authzs| {
      assert rows[i] in multiset(keys);
      var j :| 0 <= j < |keys| && keys[j] == rows[i];
      assert RowOf(ip, ids, authzs, j, i);
    }
  }

  /** Row `j` is the authorization of identifier `i`: same type, case-folded value and flag. */
  predicate RowOf(ip: IpText, ids: seq<Identifier>, authzs: seq<AuthzRow>, i: nat, j: nat)
    requires AllParse(ip, ids)
  {
    i < |ids| && j < |authzs| && RowKeys(authzs)[j] == Keys(Parsed(ip, ids))[i]
  }

  // ----- Order independence -----

  function Map<T, U>(f: T -> U, s: seq<T>): (r: seq<U>)
    ensures |r| == |s| && forall i :: 0 <= i < |s| ==> r[i] == f(s[i])
  {
    seq(|s|, i requires 0 <= i < |s| => f(s[i]))
  }

  /** `rest` is `s` without the element at `j`. */
  ghost predicate IsWithout<T>(s: seq<T>, j: nat, rest: seq<T>) {
    j < |s| && rest == s[..j] + s[j + 1..]
  }

  lemma WithoutOne<T>(s: seq<T>, j: nat, rest: seq<T>)
    requires IsWithout(s, j, rest)
    ensures multiset(s) == multiset(rest) + multiset{s[j]} && |rest| == |s| - 1
  {
    assert s == s[..j] + [s[j]] + s[j + 1..];
  }

  lemma MapWithoutOne<T, U>(f: T -> U, s: seq<T>, j: nat, rest: seq<T>)
    requires IsWithout(s, j, rest)
    ensures multiset(Map(f, s)) == multiset(Map(f, rest)) + multiset{f(s[j])}
  {
    assert Map(f, s)[..j] + Map(f, s)[j + 1..] == Map(f, rest);
    WithoutOne(Map(f, s), j, Map(f, rest));
  }

  /** Mapping rearranged sequences gives rearranged sequences. */
  lemma {:induction false} MapKeepsMultiset<T, U>(f: T -> U, s: seq<T>, t: seq<T>)
    requires multiset(s) == multiset(t)
    ensures multiset(Map(f, s)) == multiset(Map(f, t))
    decreases |s|, 1
  {
    if s == [] {
      assert |multiset(t)| == |t|;
    } else {
      assert s[0] in multiset(t);
      var j :| 0 <= j < |t| && t[j] == s[0];
      var sRest, tRest := s[..0] + s[1..], t[..j] + t[j + 1..];
      MapStep(f, s, sRest, t, j, tRest);
    }
  }

  lemma {:induction false} MapStep<T, U>(f: T -> U, s: seq<T>, sRest: seq<T>, t: seq<T>, j: nat, tRest: seq<T>)
    requires multiset(s) == multiset(t)
    requires IsWithout(s, 0, sRest) && IsWithout(t, j, tRest) && t[j] == s[0]
    ensures multiset(Map(f, s)) == multiset(Map(f, t))
    decreases |s|, 0
  {
    hide IsWithout;
    WithoutOne(s, 0, sRest);
    WithoutOne(t, j, tRest);
    assert multiset(sRest) == multiset(s) - multiset{s[0]} == multiset(tRest);
    MapKeepsMultiset(f, sRest, tRest);
    MapWithoutOne(f, s, 0, sRest);
    MapWithoutOne(f, t, j, tRest);
  }

  /** Being free of repetitions is a matter of multiplicities. */
  lemma DistinctIgnoresOrder<T>(s: seq<T>, t: seq<T>)
    requires Distinct(s) && multiset(s) == multiset(t)
    ensures Distinct(t) && |s| == |t|
  {
    DistinctIsSet(s);
    assert |multiset(s)| == |multiset(t)|;
    forall i, j | 0 <= i < j < |t|
      ensures t[i] != t[j]
    {
      RepeatCounted(t, i, j);
    }
  }

  /** The key of an identifier, or a placeholder for one that does not parse. */
  function KeyOf(ip: IpText, id: Identifier): AuthzKey {
    if ParseIdentifier(ip, id).Ok? then Key(ParseIdentifier(ip, id).value) else ("", "", false)
  }

  lemma AcceptableIgnoresOrder(ip: IpText, ids: seq<Identifier>, ids': seq<Identifier>)
    requires multiset(ids) == multiset(ids') && Acceptable(ip, ids)
    ensures Acceptable(ip, ids')
    ensures multiset(Keys(Parsed(ip, ids))) == multiset(Keys(Parsed(ip, ids')))
  {
    hide ParseIdentifier, Key;
    forall i | 0 <= i < |ids'|
      ensures ParseIdentifier(ip, ids'[i]).Ok?
    {
      assert ids'[i] in multiset(ids);
    }
    var f := id => KeyOf(ip, id);
    MapKeepsMultiset(f, ids, ids');
    assert Map(f, ids) == Keys(Parsed(ip, ids));
    assert Map(f, ids') == Keys(Parsed(ip, ids'));
    DistinctIgnoresOrder(Keys(Parsed(ip, ids)), Keys(Parsed(ip, ids')));
  }

  lemma RowsIgnoreOrder(authzs: seq<AuthzRow>, authzs': seq<AuthzRow>, challenges: seq<ChallengeRow>,
                        challenges': seq<ChallengeRow>, now: int)
    requires multiset(authzs) == multiset(authzs') && multiset(challenges) == multiset(challenges')
    ensures AllUsable(authzs, now) ==> AllUsable(authzs', now)
    ensures AllAddressesProven(authzs, challenges) ==> AllAddressesProven(authzs', challenges')
  {
    forall i | 0 <= i < |authzs'|
      ensures AllUsable(authzs, now) ==> UsableRow(authzs'[i], now)
      ensures AllAddressesProven(authzs, challenges) && authzs'[i].identifier.idType == "ip"
              ==> ProvenByHttp01(authzs'[i].id, challenges')
    {
      assert authzs'[i] in multiset(authzs);
      var j :| 0 <= j < |authzs| && authzs[j] == authzs'[i];
      if ProvenByHttp01(authzs[j].id, challenges) {
        var c :| 0 <= c < |challenges| && challenges[c] == ChallengeRow(authzs[j].id, HTTP_01, Valid);
        assert challenges[c] in multiset(challenges');
      }
    }
  }

  /** The verdict, error kind included, does not depend on the order in which the identifiers, the
      authorizations or the challenges are listed. */
  lemma VerdictIgnoresOrder(ip: IpText, order: OrderRow, ids: seq<Identifier>, ids': seq<Identifier>,
                            authzs: seq<AuthzRow>, authzs': seq<AuthzRow>,
                            challenges: seq<ChallengeRow>, challenges': seq<ChallengeRow>, now: int)
    requires multiset(ids) == multiset(ids') && multiset(authzs) == multiset(authzs')
    requires multiset(challenges) == multiset(challenges')
    ensures Verdict(ip, order, ids, authzs, challenges, now) == Verdict(ip, order, ids', authzs', challenges', now)
  {
    hide ParseIdentifier, Key, Acceptable;
    if Acceptable(ip, ids) {
      AcceptableIgnoresOrder(ip, ids, ids');
    } else if Acceptable(ip, ids') {
      AcceptableIgnoresOrder(ip, ids', ids);
      assert false;
    }
    var f := (a: AuthzRow) => Key(a.identifier);
    MapKeepsMultiset(f, authzs, authzs');
    assert Map(f, authzs) == RowKeys(authzs) && Map(f, authzs') == RowKeys(authzs');
    RowsIgnoreOrder(authzs, authzs', challenges, challenges', now);
    RowsIgnoreOrder(authzs', authzs, challenges', challenges, now);
  }

  // ----- validate_csr_identifiers -----

  type NormalName = (string, string)

  /** Type and name as they are compared: types without case, DNS names without case. */
  function Normalized(idType: string, value: string): NormalName {
    var t := ToLower(idType);
    (t, if t == "dns" then ToLower(value) else value)
  }

  /** The normalised name of a textual SAN an ACME order could authorize. */
  function SanName(san: string): Option<NormalName> {
    match StripPrefix(san, "DNS:")
    case Some(dns) => Some(Normalized("dns", dns))
    case None =>
      match StripPrefix(san, "IP:")
      case Some(ip) => Some(Normalized("ip", ip))
      case None => None
  }

  function OrderNames(ids: seq<Identifier>): set<NormalName> {
    set i | 0 <= i < |ids| :: Normalized(ids[i].idType, ids[i].value)
  }

  /** Every SAN names a DNS name or an address, and together they are exactly the order's. */
  ghost predicate CsrMatches(ids: seq<Identifier>, sans: seq<string>) {
    && (forall i :: 0 <= i < |sans| ==> SanName(sans[i]).Some? && SanName(sans[i]).value in OrderNames(ids))
    && (forall n :: n in OrderNames(ids) ==> exists i :: 0 <= i < |sans| && SanName(sans[i]) == Some(n))
  }

  /** The SAN names the identifier: a DNS name up to letter case, an address to the octet. */
  predicate Names(san: string, id: Identifier) {
    || (EqualFold(id.idType, "dns") && "DNS:" <= san && EqualFold(san[4..], id.value))
    || (EqualFold(id.idType, "ip") && san == "IP:" + id.value)
  }

  predicate NamesSome(san: string, ids: seq<Identifier>) {
    exists m :: 0 <= m < |ids| && Names(san, ids[m])
  }

  predicate IsNamed(id: Identifier, sans: seq<string>) {
    exists i :: 0 <= i < |sans| && Names(sans[i], id)
  }

  /** Every SAN names an identifier, and every identifier is named. */
  predicate AsksExactly(ids: seq<Identifier>, sans: seq<string>) {
    && (forall i :: 0 <= i < |sans| ==> NamesSome(sans[i], ids))
    && (forall m :: 0 <= m < |ids| ==> IsNamed(ids[m], sans))
  }

  lemma NamesExactly(san: string, id: Identifier)
    ensures Names(san, id) <==> SanName(san) == Some(Normalized(id.idType, id.value))
  {
    ToLowerFolds(id.idType, "dns");
    ToLowerFolds(id.idType, "ip");
    TypeTexts();
    var dns, ip := StripPrefix(san, "DNS:"), StripPrefix(san, "IP:");
    assert "DNS:" <= san ==> san == "DNS:" + san[4..];
    assert "IP:" <= san ==> san == "IP:" + san[3..];
    assert dns.Some? <==> "DNS:" <= san;
    assert ip.Some? <==> "IP:" <= san;
    if dns.Some? {
      assert dns.value == san[4..] && san[0] == 'D';
      ToLowerFolds(san[4..], id.value);
    } else if ip.Some? {
      assert ip.value == san[3..];
    }
    assert san == "IP:" + id.value ==> san[0] == 'I' && san[3..] == id.value && "IP:" <= san;
  }

  lemma TypeTexts()
    ensures ToLower("dns") == "dns" && ToLower("ip") == "ip"
  {
  }

  lemma NamesSomeIsIn(san: string, ids: seq<Identifier>)
    ensures NamesSome(san, ids) <==> SanName(san).Some? && SanName(san).value in OrderNames(ids)
  {
    hide Normalized, SanName, Names;
    forall m | 0 <= m < |ids|
      ensures Names(san, ids[m]) <==> SanName(san) == Some(Normalized(ids[m].idType, ids[m].value))
    {
      NamesExactly(san, ids[m]);
    }
  }

  lemma IsNamedIsAsked(id: Identifier, sans: seq<string>)
    ensures IsNamed(id, sans) <==>
            exists i :: 0 <= i < |sans| && SanName(sans[i]) == Some(Normalized(id.idType, id.value))
  {
    hide Normalized, SanName, Names;
    forall i | 0 <= i < |sans|
      ensures Names(sans[i], id) <==> SanName(sans[i]) == Some(Normalized(id.idType, id.value))
    {
      NamesExactly(sans[i], id);
    }
  }

  lemma AsksExactlyIsMatch(ids: seq<Identifier>, sans: seq<string>)
    ensures CsrMatches(ids, sans) <==> AsksExactly(ids, sans)
  {
    hide Normalized, SanName, NamesSome, IsNamed;
    forall i | 0 <= i < |sans|
      ensures NamesSome(sans[i], ids) <==> SanName(sans[i]).Some? && SanName(sans[i]).value in OrderNames(ids)
    {
      NamesSomeIsIn(sans[i], ids);
    }
    forall m | 0 <= m < |ids|
      ensures IsNamed(ids[m], sans) <==>
              exists i :: 0 <= i < |sans| && SanName(sans[i]) == Some(Normalized(ids[m].idType, ids[m].value))
    {
      IsNamedIsAsked(ids[m], sans);
    }
    assert forall m :: 0 <= m < |ids| ==> Normalized(ids[m].idType, ids[m].value) in OrderNames(ids);
  }

  /** `validate_csr_identifiers` */
  method ValidateCsrIdentifiers(ids: seq<Identifier>, sans: seq<string>) returns (r: Result<(), FinalizeError>)
    ensures r == if CsrMatches(ids, sans) then Ok(()) else Err(Unauthorized)
    ensures r.Ok? <==> AsksExactly(ids, sans)
  {
    hide Normalized, SanName, AsksExactly;
    AsksExactlyIsMatch(ids, sans);
    var authorized := set i | 0 <= i < |ids| :: Normalized(ids[i].idType, ids[i].value);
    var requested: set<NormalName> := {};
    for i := 0 to |sans|
      invariant forall k :: 0 <= k < i ==> SanName(sans[k]).Some? && SanName(sans[k]).value in requested
      invariant forall n :: n in requested ==> exists k :: 0 <= k < i && SanName(sans[k]) == Some(n)
    {
      var name := SanName(sans[i]);
      if name.None? {
        return Err(Unauthorized);
      }
      requested := requested + {name.value};
      assert forall n :: n in requested && n != name.value ==> exists k :: 0 <= k < i && SanName(sans[k]) == Some(n);
    }
    assert authorized == OrderNames(ids);
    assert CsrMatches(ids, sans) <==> requested <= authorized && authorized <= requested;
    if authorized != requested {
      return Err(Unauthorized);
    }
    return Ok(());
  }

  // ----- Forwarding to the CA -----

  datatype ProtoSan = DnsName(text: string) | Rfc822Name(text: string) | Uri(text: string)
                    | IpAddress(text: string) | DirectoryName(text: string)

  /** One arm of `convert_sans_to_proto`; an unknown kind is skipped. */
  function ProtoOf(san: string): Option<ProtoSan> {
    if StripPrefix(san, "DNS:").Some? then Some(DnsName(StripPrefix(san, "DNS:").value))
    else if StripPrefix(san, "email:").Some? then Some(Rfc822Name(StripPrefix(san, "email:").value))
    else if StripPrefix(san, "URI:").Some? then Some(Uri(StripPrefix(san, "URI:").value))
    else if StripPrefix(san, "IP:").Some? then Some(IpAddress(StripPrefix(san, "IP:").value))
    else if StripPrefix(san, "DirName:").Some? then Some(DirectoryName(StripPrefix(san, "DirName:").value))
    else None
  }

  function ProtoSans(sans: seq<string>): seq<ProtoSan> {
    if sans == [] then []
    else
      var last := ProtoOf(sans[|sans| - 1]);
      ProtoSans(sans[..|sans| - 1]) + (if last.Some? then [last.value] else [])
  }

  /** `convert_sans_to_proto` */
  method ConvertSansToProto(sans: seq<string>) returns (protoSans: seq<ProtoSan>)
    ensures protoSans == ProtoSans(sans)
  {
    hide ProtoOf;
    protoSans := [];
    for i := 0 to |sans|
      invariant protoSans == ProtoSans(sans[..i])
    {
      assert sans[..i + 1][..i] == sans[..i];
      var san := ProtoOf(sans[i]);
      if san.None? {
        continue;
      }
      protoSans := protoSans + [san.value];
    }
    assert sans[..|sans|] == sans;
  }

  datatype CaSan = CaDnsName(text: string) | CaRfc822Name(text: string) | CaUri(text: string)
                 | CaIpAddress(address: IpAddr) | CaDirectoryName(text: string)

  datatype CaError = InvalidIpAddress

  /** `convert_san`, on the CA's side */
  function ConvertSan(ip: IpText, san: ProtoSan): Result<CaSan, CaError> {
    match san
    case DnsName(dns) => Ok(CaDnsName(dns))
    case Rfc822Name(email) => Ok(CaRfc822Name(email))
    case Uri(uri) => Ok(CaUri(uri))
    case IpAddress(text) =>
      (match ip.parse(text)
       case None => Err(InvalidIpAddress)
       case Some(a) => Ok(CaIpAddress(a)))
    case DirectoryName(dn) => Ok(CaDirectoryName(dn))
  }

  /** The normalised name a forwarded SAN carries. */
  function ProtoName(san: ProtoSan): Option<NormalName> {
    match san
    case DnsName(dns) => Some(Normalized("dns", dns))
    case IpAddress(ip) => Some(Normalized("ip", ip))
    case _ => None
  }

  const UB_COMMON_NAME := 64

  /** `derived_cn_from_sans`: the first DNS SAN of 1 to 64 octets. */
  function DerivedCn(sans: seq<string>): Option<string> {
    if sans == [] then None
    else
      var dns := StripPrefix(sans[0], "DNS:");
      if dns.Some? && 1 <= |dns.value| <= UB_COMMON_NAME then dns else DerivedCn(sans[1..])
  }

  datatype Subject = Subject(commonName: Option<string>, other: Option<string>)

  /** `resolve_proto_subject`; the conversion of a non-empty subject is not modelled beyond
      forwarding it. */
  function ResolveSubject(subject: Subject, sans: seq<string>): Subject {
    if subject == Subject(None, None) && DerivedCn(sans).Some? then Subject(DerivedCn(sans), None) else subject
  }

  /** A DNS SAN of 1 to 64 octets after its prefix. */
  predicate IsCnSan(san: string) {
    "DNS:" <= san && 5 <= |san| <= 68
  }

  predicate FirstCnSan(sans: seq<string>, k: nat) {
    k < |sans| && IsCnSan(sans[k]) && forall j :: 0 <= j < k ==> !IsCnSan(sans[j])
  }

  lemma {:induction false} DerivedCnIsFirstUsable(sans: seq<string>)
    ensures DerivedCn(sans).Some? ==> exists k: nat :: FirstCnSan(sans, k) && sans[k] == "DNS:" + DerivedCn(sans).value
    ensures DerivedCn(sans).None? ==> forall k :: 0 <= k < |sans| ==> !IsCnSan(sans[k])
  {
    if sans != [] {
      CnSanStripped(sans[0]);
      if IsCnSan(sans[0]) {
        assert FirstCnSan(sans, 0);
      } else {
        DerivedCnIsFirstUsable(sans[1..]);
        hide IsCnSan;
        assert forall k :: 1 <= k < |sans| ==> sans[k] == sans[1..][k - 1];
        if DerivedCn(sans).Some? {
          var k: nat :| FirstCnSan(sans[1..], k) && sans[1..][k] == "DNS:" + DerivedCn(sans).value;
          assert FirstCnSan(sans, k + 1);
        }
      }
    }
  }

  lemma CnSanStripped(san: string)
    ensures var dns := StripPrefix(san, "DNS:");
            && (IsCnSan(san) <==> dns.Some? && 1 <= |dns.value| <= UB_COMMON_NAME)
            && (dns.Some? ==> san == "DNS:" + dns.value)
  {
    assert "DNS:" <= san ==> san == "DNS:" + san[4..];
  }

  /** Only an empty subject gets a derived common name; any other is forwarded as it is. */
  lemma SubjectIsKept(subject: Subject, sans: seq<string>)
    ensures subject != Subject(None, None) ==> ResolveSubject(subject, sans) == subject
    ensures ResolveSubject(Subject(None, None), sans) == Subject(DerivedCn(sans), None)
  {
  }

  lemma {:induction false} NothingDropped(sans: seq<string>)
    requires forall i :: 0 <= i < |sans| ==> ProtoOf(sans[i]).Some?
    ensures |ProtoSans(sans)| == |sans|
    ensures forall i :: 0 <= i < |sans| ==> ProtoOf(sans[i]) == Some(ProtoSans(sans)[i])
  {
    hide ProtoOf;
    if sans != [] {
      NothingDropped(sans[..|sans| - 1]);
    }
  }

  lemma NamedSanIsForwarded(san: string)
    requires SanName(san).Some?
    ensures ProtoOf(san).Some? && ProtoName(ProtoOf(san).value) == SanName(san)
  {
    if StripPrefix(san, "DNS:").None? {
      assert san[0] == 'I';
    }
  }

  /** An order name of type `ip` is the text of an accepted address identifier. */
  lemma OrderAddressParses(ip: IpText, ids: seq<Identifier>, value: string)
    requires Acceptable(ip, ids) && Normalized("ip", value) in OrderNames(ids)
    ensures ip.parse(value).Some?
  {
    var i :| 0 <= i < |ids| && Normalized(ids[i].idType, ids[i].value) == Normalized("ip", value);
    ParseKeepsIdentifier(ip, ids[i]);
    assert ToLower("ip") == "ip" && ToLower("dns") == "dns";
  }

  /** An accepted CSR is forwarded whole: no SAN is dropped, each is a DNS name or an address, the
      CA can read each, and the forwarded names are exactly the order's, up to DNS letter case. A
      common name derived for an empty subject has 1 to 64 octets and is one of the order's
      names. */
  lemma AcceptedCsrForwarded(ip: IpText, ids: seq<Identifier>, sans: seq<string>)
    requires Acceptable(ip, ids) && CsrMatches(ids, sans)
    ensures var forwarded := ProtoSans(sans);
            && |forwarded| == |sans|
            && (forall i :: 0 <= i < |forwarded| ==>
                  && (forwarded[i].DnsName? || forwarded[i].IpAddress?)
                  && ConvertSan(ip, forwarded[i]).Ok?
                  && ProtoName(forwarded[i]).Some? && ProtoName(forwarded[i]).value in OrderNames(ids))
            && (forall n :: n in OrderNames(ids) ==> exists i :: 0 <= i < |forwarded| && ProtoName(forwarded[i]) == Some(n))
    ensures var cn := ResolveSubject(Subject(None, None), sans).commonName;
            cn.Some? ==> 1 <= |cn.value| <= 64 && Normalized("dns", cn.value) in OrderNames(ids)
  {
    hide Normalized, ProtoOf, SanName, Acceptable;
    forall i | 0 <= i < |sans|
      ensures ProtoOf(sans[i]).Some? && ProtoName(ProtoOf(sans[i]).value) == SanName(sans[i])
    {
      NamedSanIsForwarded(sans[i]);
    }
    NothingDropped(sans);
    var forwarded := ProtoSans(sans);
    forall i | 0 <= i < |forwarded|
      ensures ProtoName(forwarded[i]) == SanName(sans[i]) && ConvertSan(ip, forwarded[i]).Ok?
    {
      if forwarded[i].IpAddress? {
        OrderAddressParses(ip, ids, forwarded[i].text);
      }
    }
    forall n | n in OrderNames(ids)
      ensures exists i :: 0 <= i < |forwarded| && ProtoName(forwarded[i]) == Some(n)
    {
      var i :| 0 <= i < |sans| && SanName(sans[i]) == Some(n);
      assert ProtoName(forwarded[i]) == Some(n);
    }
    DerivedCnIsFirstUsable(sans);
    var cn := DerivedCn(sans);
    if cn.Some? {
      var i: nat :| FirstCnSan(sans, i) && sans[i] == "DNS:" + cn.value;
      DnsSanName(cn.value);
      assert SanName(sans[i]).value in OrderNames(ids);
    }
  }

  lemma DnsSanName(dns: string)
    ensures SanName("DNS:" + dns) == Some(Normalized("dns", dns))
  {
    var stripped := StripPrefix("DNS:" + dns, "DNS:");
    Peel("DNS:", dns, "DNS:", stripped.value);
  }

  /** What the CA reads of a SAN: the name it will certify is the identifier's, a DNS name up to
      letter case, or the address whose text the identifier is. */
  predicate CaReads(ip: IpText, san: ProtoSan, id: Identifier) {
    match ConvertSan(ip, san)
    case Ok(CaDnsName(name)) => id.idType == "dns" && EqualFold(name, id.value)
    case Ok(CaIpAddress(address)) => id.idType == "ip" && ip.parse(id.value) == Some(address)
    case _ => false
  }

  lemma NamedIsRead(ip: IpText, ids: seq<Identifier>, san: string, m: nat)
    requires Acceptable(ip, ids) && m < |ids| && Names(san, ids[m])
    ensures ProtoOf(san).Some? && CaReads(ip, ProtoOf(san).value, ids[m])
  {
    ParseKeepsIdentifier(ip, ids[m]);
    assert ids[m].idType == "dns" || ids[m].idType == "ip";
    TypesDiffer();
    if ids[m].idType == "dns" {
      assert san == "DNS:" + san[4..];
      Peel("DNS:", san[4..], "DNS:", StripPrefix(san, "DNS:").value);
    } else {
      assert san == "IP:" + ids[m].value && san[0] == 'I';
      assert StripPrefix(san, "DNS:").None? && StripPrefix(san, "email:").None? && StripPrefix(san, "URI:").None?;
      Peel("IP:", ids[m].value, "IP:", StripPrefix(san, "IP:").value);
    }
  }

  lemma TypesDiffer()
    ensures !EqualFold("dns", "ip") && !EqualFold("ip", "dns") && EqualFold("dns", "dns") && EqualFold("ip", "ip")
  {
  }

  predicate CaReadsSome(ip: IpText, san: ProtoSan, ids: seq<Identifier>) {
    exists m :: 0 <= m < |ids| && CaReads(ip, san, ids[m])
  }

  predicate IsReadByCa(ip: IpText, id: Identifier, sans: seq<ProtoSan>) {
    exists i :: 0 <= i < |sans| && CaReads(ip, sans[i], id)
  }

  /** From the CSR to the CA: of an accepted CSR, the CA reads one name for each SAN, each an
      identifier of the order, and every identifier of the order is among them. */
  lemma CaReadsExactly(ip: IpText, ids: seq<Identifier>, sans: seq<string>)
    requires Acceptable(ip, ids) && AsksExactly(ids, sans)
    ensures var forwarded := ProtoSans(sans);
            && |forwarded| == |sans|
            && (forall i :: 0 <= i < |forwarded| ==> CaReadsSome(ip, forwarded[i], ids))
            && (forall m :: 0 <= m < |ids| ==> IsReadByCa(ip, ids[m], forwarded))
  {
    hide Acceptable, NamesSome, IsNamed, CaReadsSome, IsReadByCa, ProtoOf;
    forall i | 0 <= i < |sans|
      ensures ProtoOf(sans[i]).Some? && CaReadsSome(ip, ProtoOf(sans[i]).value, ids)
    {
      SomeIsRead(ip, ids, sans[i]);
    }
    NothingDropped(sans);
    forall m | 0 <= m < |ids|
      ensures IsReadByCa(ip, ids[m], ProtoSans(sans))
    {
      NamedIsReadByCa(ip, ids, sans, m);
    }
  }

  lemma SomeIsRead(ip: IpText, ids: seq<Identifier>, san: string)
    requires Acceptable(ip, ids) && NamesSome(san, ids)
    ensures ProtoOf(san).Some? && CaReadsSome(ip, ProtoOf(san).value, ids)
  {
    hide Acceptable, Names, ProtoOf, CaReads;
    var m :| 0 <= m < |ids| && Names(san, ids[m]);
    NamedIsRead(ip, ids, san, m);
  }

  lemma NamedIsReadByCa(ip: IpText, ids: seq<Identifier>, sans: seq<string>, m: nat)
    requires Acceptable(ip, ids) && m < |ids| && IsNamed(ids[m], sans)
    requires |ProtoSans(sans)| == |sans| && forall i :: 0 <= i < |sans| ==> ProtoOf(sans[i]) == Some(ProtoSans(sans)[i])
    ensures IsReadByCa(ip, ids[m], ProtoSans(sans))
  {
    hide Acceptable, Names, ProtoOf, CaReads, ProtoSans;
    var i :| 0 <= i < |sans| && Names(sans[i], ids[m]);
    NamedIsRead(ip, ids, sans[i], m);
  }
}
