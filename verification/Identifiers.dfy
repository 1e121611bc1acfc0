/** newOrder identifiers: parsing, challenge offers and the whole-list check (sections 7.1.3,
    7.1.4 and 7.4 of RFC 8555, sections 3 and 7 of RFC 8738). */
module Identifiers {
  import opened Common
  import opened DnsNames
  import opened IpAddresses

  const MAX_ORDER_IDENTIFIERS := 100
  const WILDCARD_PREFIX := "*."
  const HTTP_01 := "http-01"
  const DNS_01 := "dns-01"
  const TLS_ALPN_01 := "tls-alpn-01"

  datatype Identifier = Identifier(idType: string, value: string)

  /** What an authorization is created for: for `*.example.com`, the base domain and the flag. */
  datatype AuthzIdentifier = AuthzIdentifier(idType: string, value: string, wildcard: bool)

  datatype IdentifierError = Unsupported | Rejected | Malformed

  // ----- One identifier -----

  function ParseDns(ip: IpText, value: string): Result<AuthzIdentifier, IdentifierError> {
    if |value| > MAX_DOMAIN_LEN then Err(Malformed)
    else
      var stripped := StripPrefix(value, WILDCARD_PREFIX);
      var wildcard := stripped.Some?;
      var domain := if wildcard then stripped.value else value;
      if '*' in domain then Err(Rejected)
      else if ViolationOf(ip, domain).Some? then Err(Malformed)
      else if wildcard && '.' !in domain then Err(Rejected)
      else if wildcard && Dns01QueryName(ip, domain).Err? then Err(Malformed)
      else Ok(AuthzIdentifier("dns", domain, wildcard))
  }

  function ParseIp(ip: IpText, value: string): Result<AuthzIdentifier, IdentifierError> {
    match ip.parse(value)
    case None => Err(Malformed)
    case Some(a) =>
      if ip.print_(a) != value then Err(Malformed)
      else if a.V6? && IsIpv4Embedded(a.segments) then Err(Rejected)
      else Ok(AuthzIdentifier("ip", value, false))
  }

  /** `parse_order_identifier` */
  function ParseIdentifier(ip: IpText, id: Identifier): Result<AuthzIdentifier, IdentifierError> {
    if id.idType == "dns" then ParseDns(ip, id.value)
    else if id.idType == "ip" then ParseIp(ip, id.value)
    else Err(Unsupported)
  }

  type AuthzKey = (string, string, bool)

  /** What authorizations are matched by: type, case-folded value and wildcard flag. */
  function Key(a: AuthzIdentifier): AuthzKey {
    (a.idType, ToLower(a.value), a.wildcard)
  }

  /** The order identifier an authorization identifier stands for. */
  function OrderForm(a: AuthzIdentifier): Identifier {
    Identifier(a.idType, if a.wildcard then WILDCARD_PREFIX + a.value else a.value)
  }

  /** Parsing loses nothing: the order identifier is recovered, a wildcard's base has at least two
      labels and a query name, and every accepted name is a `dns` identifier without `*`. */
  lemma ParseKeepsIdentifier(ip: IpText, id: Identifier)
    requires ParseIdentifier(ip, id).Ok?
    ensures var a := ParseIdentifier(ip, id).value;
            && OrderForm(a) == id && a.idType in {"dns", "ip"}
            && (a.idType == "dns" ==> IsDnsIdentifier(ip, a.value) && '*' !in a.value)
            && (a.wildcard ==> a.idType == "dns" && '.' in a.value && |a.value| <= MAX_DNS01_LEN)
            && (a.idType == "ip" ==> ip.parse(a.value).Some? && ip.print_(ip.parse(a.value).value) == a.value)
  {
    var a := ParseIdentifier(ip, id).value;
    if a.idType == "dns" {
      NoViolationIffIdentifier(ip, a.value);
      if a.wildcard {
        Dns01QueryNameExact(ip, a.value);
      }
    }
  }

  lemma LowerOfConcat(a: string, b: string)
    ensures ToLower(a + b) == ToLower(a) + ToLower(b)
  {
  }

  /** Equal keys mean the same order identifier up to letter case, and the other way round. */
  lemma KeyDeterminesIdentifier(ip: IpText, a: Identifier, b: Identifier)
    requires ParseIdentifier(ip, a).Ok? && ParseIdentifier(ip, b).Ok?
    ensures Key(ParseIdentifier(ip, a).value) == Key(ParseIdentifier(ip, b).value)
            <==> a.idType == b.idType && EqualFold(a.value, b.value)
  {
    hide ParseIdentifier, ToLower, EqualFold;
    ParseKeepsIdentifier(ip, a);
    ParseKeepsIdentifier(ip, b);
    var x, y := ParseIdentifier(ip, a).value, ParseIdentifier(ip, b).value;
    ToLowerFolds(a.value, b.value);
    LowerOfConcat(WILDCARD_PREFIX, x.value);
    LowerOfConcat(WILDCARD_PREFIX, y.value);
    StarStaysFirst(x, y);
    StarStaysFirst(y, x);
    if ToLower(a.value) == ToLower(b.value) && a.idType == b.idType && x.wildcard && y.wildcard {
      Peel(ToLower(WILDCARD_PREFIX), ToLower(x.value), ToLower(WILDCARD_PREFIX), ToLower(y.value));
    }
  }

  /** Lower-casing does not make a wildcard out of another name. */
  lemma StarStaysFirst(x: AuthzIdentifier, y: AuthzIdentifier)
    ensures x.wildcard && !y.wildcard && '*' !in y.value ==> ToLower(OrderForm(x).value) != ToLower(OrderForm(y).value)
  {
    assert x.wildcard ==> ToLower(OrderForm(x).value)[0] == '*';
    forall i | 0 <= i < |y.value|
      ensures '*' !in y.value ==> ToLower(y.value)[i] != '*'
    {
      assert y.value[i] in y.value;
    }
  }

  /** The same type, wildcard flag, and value up to letter case. */
  predicate SameIdentifier(a: AuthzIdentifier, b: AuthzIdentifier) {
    a.idType == b.idType && a.wildcard == b.wildcard && EqualFold(a.value, b.value)
  }

  lemma KeyIsSameIdentifier(a: AuthzIdentifier, b: AuthzIdentifier)
    ensures Key(a) == Key(b) <==> SameIdentifier(a, b)
  {
    ToLowerFolds(a.value, b.value);
  }

  /** What is accepted, and as what: a name of at most 253 octets without `*`, a wildcard of a base
      name that has a dot and at most 237 octets, or the canonical text of an address that is not an
      IPv4 address inside ::ffff:0:0/96 or ::/96. */
  lemma ParsesExactly(ip: IpText, id: Identifier, a: AuthzIdentifier)
    ensures ParseIdentifier(ip, id) == Ok(a) <==>
            || (id.idType == "dns" && a == AuthzIdentifier("dns", id.value, false)
                && IsDnsIdentifier(ip, id.value) && '*' !in id.value)
            || (id.idType == "dns" && a.idType == "dns" && a.wildcard && id.value == "*." + a.value && |id.value| <= 253
                && IsDnsIdentifier(ip, a.value) && '*' !in a.value && '.' in a.value && |a.value| <= 237)
            || (id.idType == "ip" && a == AuthzIdentifier("ip", id.value, false)
                && ip.parse(id.value).Some? && ip.print_(ip.parse(id.value).value) == id.value
                && !IsEmbedded(ip.parse(id.value).value))
  {
    hide ViolationOf, LabelRules, Dns01QueryName, IsIpv4Embedded, Bits;
    if id.idType == "dns" {
      var stripped := StripPrefix(id.value, WILDCARD_PREFIX);
      var domain := if stripped.Some? then stripped.value else id.value;
      NoViolationIffIdentifier(ip, domain);
      Dns01QueryNameExact(ip, domain);
      if stripped.Some? {
        assert id.value[0] == '*' && id.value[0] in id.value;
        assert a.wildcard && id.value == "*." + a.value ==> a.value == domain;
      }
      assert IsDnsIdentifier(ip, domain) ==> |domain| <= 253;
    } else if id.idType == "ip" && ip.parse(id.value).Some? && ip.parse(id.value).value.V6? {
      EmbeddedIsPrefixTest(ip.parse(id.value).value.segments);
    }
  }

  predicate IsEmbedded(a: IpAddr) {
    && a.V6?
    && var n := Bits(a.segments);
       0xffff_0000_0000 <= n < 0x1_0000_0000_0000 || 2 <= n < 0x1_0000_0000
  }

  /** Why anything else is refused: an unknown type is unsupported; a misplaced `*`, a wildcard of a
      single label and an embedded IPv4 address are rejected; the rest is malformed. */
  lemma RefusedExactly(ip: IpText, id: Identifier)
    requires ParseIdentifier(ip, id).Err?
    ensures var e := ParseIdentifier(ip, id).error;
            && (e == Unsupported <==> id.idType != "dns" && id.idType != "ip")
            && (e == Rejected <==>
                  || (id.idType == "dns" && |id.value| <= 253 && '*' in id.value[if "*." <= id.value then 2 else 0..])
                  || (id.idType == "dns" && |id.value| <= 253 && "*." <= id.value
                      && IsDnsIdentifier(ip, id.value[2..]) && '.' !in id.value[2..])
                  || (id.idType == "ip" && ip.parse(id.value).Some?
                      && ip.print_(ip.parse(id.value).value) == id.value && IsEmbedded(ip.parse(id.value).value)))
  {
    hide ViolationOf, LabelRules, Dns01QueryName, IsIpv4Embedded, Bits;
    if id.idType == "dns" {
      var stripped := StripPrefix(id.value, WILDCARD_PREFIX);
      var domain := if stripped.Some? then stripped.value else id.value;
      assert "*." <= id.value ==> id.value == "*." + id.value[2..];
      assert stripped.Some? <==> "*." <= id.value;
      assert domain == id.value[if "*." <= id.value then 2 else 0..];
      NoViolationIffIdentifier(ip, domain);
    } else if id.idType == "ip" && ip.parse(id.value).Some? && ip.parse(id.value).value.V6? {
      EmbeddedIsPrefixTest(ip.parse(id.value).value.segments);
    }
  }

  // ----- Challenges -----

  /** `challenge_types` */
  function ChallengeTypes(ip: IpText, a: AuthzIdentifier): (types: seq<string>)
    ensures types != []
  {
    if a.idType == "ip" then [HTTP_01]
    else if a.wildcard then [DNS_01]
    else if Dns01QueryName(ip, a.value).Err? then [HTTP_01, TLS_ALPN_01]
    else [HTTP_01, DNS_01, TLS_ALPN_01]
  }

  datatype PermissionError = NotPermitted | BadIdentifier

  /** `check_challenge_permitted`, on the identifier columns of an authorization row. */
  function CheckPermitted(a: AuthzIdentifier, challengeType: string): Result<(), PermissionError> {
    if a.wildcard && challengeType != DNS_01 then Err(NotPermitted)
    else if a.idType == "ip" && challengeType != HTTP_01 then Err(NotPermitted)
    else if '*' in a.value then Err(BadIdentifier)
    else Ok(())
  }

  /** A wildcard is validated by dns-01 only, an address by http-01 only, and a stored name with a
      `*` by nothing. */
  lemma PermittedExactly(a: AuthzIdentifier, challengeType: string)
    ensures CheckPermitted(a, challengeType).Ok? <==>
            && (a.wildcard ==> challengeType == "dns-01")
            && (a.idType == "ip" ==> challengeType == "http-01")
            && '*' !in a.value
    ensures CheckPermitted(a, challengeType) == Err(BadIdentifier) ==> '*' in a.value
  {
  }

  lemma AddressHasNoStar(s: string)
    requires IsAddressText(s)
    ensures '*' !in s
  {
  }

  /** What an accepted identifier is offered can be validated: the offer is non-empty and
      permitted, it is exactly what is permitted for a wildcard and for an address, and for any other
      name it is http-01, tls-alpn-01 and, when the query name exists, dns-01. */
  lemma OffersArePermitted(ip: IpText, id: Identifier, challengeType: string)
    requires ip.Valid() && ParseIdentifier(ip, id).Ok?
    ensures var a := ParseIdentifier(ip, id).value;
            var offered := ChallengeTypes(ip, a);
            && offered != []
            && (challengeType in offered ==> CheckPermitted(a, challengeType).Ok?)
            && (a.wildcard || a.idType == "ip" ==>
                  (challengeType in offered <==> CheckPermitted(a, challengeType).Ok?))
            && Distinct(offered)
            && (a.idType == "dns" && !a.wildcard ==>
                  (challengeType in offered <==>
                     challengeType == "http-01" || challengeType == "tls-alpn-01"
                     || (challengeType == "dns-01" && |a.value| <= 237)))
  {
    hide ViolationOf, LabelRules, Dns01QueryName, IsAddressText;
    ParseKeepsIdentifier(ip, id);
    var a := ParseIdentifier(ip, id).value;
    Dns01QueryNameExact(ip, a.value);
    if a.idType == "ip" {
      AddressHasNoStar(a.value);
    }
  }

  // ----- The whole list -----

  predicate AllParse(ip: IpText, ids: seq<Identifier>) {
    forall i :: 0 <= i < |ids| ==> ParseIdentifier(ip, ids[i]).Ok?
  }

  /** The parses, in request order. */
  function Parsed(ip: IpText, ids: seq<Identifier>): (out: seq<AuthzIdentifier>)
    requires AllParse(ip, ids)
    ensures |out| == |ids| && forall i :: 0 <= i < |ids| ==> ParseIdentifier(ip, ids[i]) == Ok(out[i])
  {
    seq(|ids|, i requires 0 <= i < |ids| => ParseIdentifier(ip, ids[i]).value)
  }

  function Keys(authzs: seq<AuthzIdentifier>): (keys: seq<AuthzKey>)
    ensures |keys| == |authzs| && forall i :: 0 <= i < |authzs| ==> keys[i] == Key(authzs[i])
  {
    seq(|authzs|, i requires 0 <= i < |authzs| => Key(authzs[i]))
  }

  predicate Distinct<T(==)>(s: seq<T>) {
    forall i, j :: 0 <= i < j < |s| ==> s[i] != s[j]
  }

  /** Every entry parses and no two share a key. */
  predicate Clean(ip: IpText, ids: seq<Identifier>) {
    AllParse(ip, ids) && Distinct(Keys(Parsed(ip, ids)))
  }

  /** The lists newOrder accepts. */
  predicate Acceptable(ip: IpText, ids: seq<Identifier>) {
    1 <= |ids| <= MAX_ORDER_IDENTIFIERS && Clean(ip, ids)
  }

  /** Entry `i` is the first the list is refused for, with this error. */
  ghost predicate FirstRefused(ip: IpText, ids: seq<Identifier>, i: nat, e: IdentifierError)
    requires i < |ids|
  {
    && Clean(ip, ids[..i])
    && match ParseIdentifier(ip, ids[i])
       case Err(error) => e == error
       case Ok(a) => Key(a) in Keys(Parsed(ip, ids[..i])) && e == Malformed
  }

  /** `validate_order_identifiers`: exactly the acceptable lists pass, with their parses in
      request order; any other list is refused for its size or for its first bad entry. */
  method ValidateOrderIdentifiers(ip: IpText, ids: seq<Identifier>)
    returns (r: Result<seq<AuthzIdentifier>, IdentifierError>)
    ensures r.Ok? <==> Acceptable(ip, ids)
    ensures r.Ok? ==> r.value == Parsed(ip, ids)
    ensures r.Err? && !(1 <= |ids| <= 100) ==> r.error == Malformed
    ensures r.Err? && 1 <= |ids| <= 100 ==>
              exists i :: 0 <= i < |ids| && FirstRefused(ip, ids, i, r.error)
  {
    hide ParseIdentifier, Key;
    if ids == [] {
      return Err(Malformed);
    }
    if |ids| > MAX_ORDER_IDENTIFIERS {
      return Err(Malformed);
    }
    var seen: set<AuthzKey> := {};
    var out: seq<AuthzIdentifier> := [];
    for i := 0 to |ids|
      invariant Clean(ip, ids[..i])
      invariant out == Parsed(ip, ids[..i])
      invariant seen == set k | k in Keys(out)
    {
      var authz := ParseIdentifier(ip, ids[i]);
      if authz.Err? {
        assert FirstRefused(ip, ids, i, authz.error);
        return Err(authz.error);
      }
      var key := Key(authz.value);
      if key in seen {
        DuplicateNotClean(ip, ids, i);
        assert FirstRefused(ip, ids, i, Malformed);
        return Err(Malformed);
      }
      ExtendClean(ip, ids, i);
      assert Keys(out + [authz.value]) == Keys(out) + [key];
      seen := seen + {key};
      out := out + [authz.value];
    }
    assert ids[..|ids|] == ids;
    return Ok(out);
  }

  lemma ExtendClean(ip: IpText, ids: seq<Identifier>, i: nat)
    requires i < |ids| && Clean(ip, ids[..i]) && ParseIdentifier(ip, ids[i]).Ok?
    requires Key(ParseIdentifier(ip, ids[i]).value) !in Keys(Parsed(ip, ids[..i]))
    ensures Clean(ip, ids[..i + 1])
    ensures Parsed(ip, ids[..i + 1]) == Parsed(ip, ids[..i]) + [ParseIdentifier(ip, ids[i]).value]
  {
    hide ParseIdentifier, Key;
    var longer := ids[..i + 1];
    assert longer == ids[..i] + [ids[i]];
    assert AllParse(ip, longer);
    var keys := Keys(Parsed(ip, longer));
    forall j, k | 0 <= j < k < |keys|
      ensures keys[j] != keys[k]
    {
      assert keys[j] == Keys(Parsed(ip, ids[..i]))[j];
      if k < i {
        assert keys[k] == Keys(Parsed(ip, ids[..i]))[k];
      }
    }
  }

  lemma DuplicateNotClean(ip: IpText, ids: seq<Identifier>, i: nat)
    requires i < |ids| && Clean(ip, ids[..i]) && ParseIdentifier(ip, ids[i]).Ok?
    requires Key(ParseIdentifier(ip, ids[i]).value) in Keys(Parsed(ip, ids[..i]))
    ensures !Clean(ip, ids)
  {
    hide ParseIdentifier, Key;
    if AllParse(ip, ids) {
      var j :| 0 <= j < i && Keys(Parsed(ip, ids[..i]))[j] == Key(ParseIdentifier(ip, ids[i]).value);
      assert Keys(Parsed(ip, ids))[j] == Keys(Parsed(ip, ids))[i];
    }
  }

  /** An accepted list maps one-to-one to its authorization keys. */
  lemma AcceptedKeysOneToOne(ip: IpText, ids: seq<Identifier>, i: nat, j: nat)
    requires Acceptable(ip, ids) && i < |ids| && j < |ids|
    ensures Key(ParseIdentifier(ip, ids[i]).value) == Key(ParseIdentifier(ip, ids[j]).value) <==> i == j
    ensures i != j ==> ids[i] != ids[j]
  {
    var keys := Keys(Parsed(ip, ids));
    assert keys[i] == Key(ParseIdentifier(ip, ids[i]).value) && keys[j] == Key(ParseIdentifier(ip, ids[j]).value);
  }
}
