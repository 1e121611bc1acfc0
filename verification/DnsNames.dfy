/** Acceptable `dns` identifiers and the dns-01 query name built from one (sections 2.3.4 and
    3.1 of RFC 1035, section 8.4 of RFC 8555). */
module DnsNames {
  import opened Common
  import opened IpAddresses

  const ACME_CHALLENGE_LABEL := "_acme-challenge"
  const MAX_DOMAIN_LEN := 253
  const MAX_LABEL_LEN := 63
  const MAX_WIRE_LEN := 255

  /** The longest identifier whose query name fits the wire. */
  const MAX_DNS01_LEN := 237

  // ----- Labels -----

  /** `split('.')` */
  function Split(s: string): (labels: seq<string>)
    ensures |labels| >= 1
    ensures forall l :: l in labels ==> '.' !in l
  {
    if s == "" then [""]
    else
      var rest := Split(s[1..]);
      if s[0] == '.' then [""] + rest else [[s[0]] + rest[0]] + rest[1..]
  }

  function Join(labels: seq<string>): string
    requires |labels| >= 1
  {
    if |labels| == 1 then labels[0] else labels[0] + "." + Join(labels[1..])
  }

  lemma {:induction false} JoinSplit(s: string)
    ensures Join(Split(s)) == s
  {
    if s != "" {
      JoinSplit(s[1..]);
      var rest := Split(s[1..]);
      if s[0] == '.' {
        assert Split(s)[1..] == rest;
      } else {
        assert Split(s)[1..] == rest[1..];
        assert Split(s)[0] == [s[0]] + rest[0];
      }
    }
  }

  lemma {:induction false} SplitOfLabel(s: string)
    requires '.' !in s
    ensures Split(s) == [s]
  {
    if s != "" {
      SplitOfLabel(s[1..]);
      assert [s[0]] + s[1..] == s;
    }
  }

  lemma {:induction false} SplitAtDot(part: string, s: string)
    requires '.' !in part
    ensures Split(part + "." + s) == [part] + Split(s)
  {
    var whole := part + "." + s;
    if part == "" {
      assert whole[1..] == s;
    } else {
      SplitAtDot(part[1..], s);
      assert whole[1..] == part[1..] + "." + s;
      assert [whole[0]] + part[1..] == part;
    }
  }

  /** Splitting is undone by joining from both sides. */
  lemma {:induction false} SplitJoin(labels: seq<string>)
    requires |labels| >= 1 && forall l :: l in labels ==> '.' !in l
    ensures Split(Join(labels)) == labels
  {
    if |labels| == 1 {
      SplitOfLabel(labels[0]);
    } else {
      SplitJoin(labels[1..]);
      SplitAtDot(labels[0], Join(labels[1..]));
    }
  }

  predicate IsDigit(c: char) { '0' <= c <= '9' }

  predicate IsAlphanumeric(c: char) { IsDigit(c) || 'a' <= c <= 'z' || 'A' <= c <= 'Z' }

  /** `is_ldh_label` */
  predicate IsLdhLabel(part: string) {
    && 0 < |part| <= MAX_LABEL_LEN
    && part[0] != '-' && part[|part| - 1] != '-'
    && forall i :: 0 <= i < |part| ==> IsAlphanumeric(part[i]) || part[i] == '-'
  }

  predicate AllDigits(s: string) {
    forall i :: 0 <= i < |s| ==> IsDigit(s[i])
  }

  // ----- Identifier rules -----

  datatype Violation = Syntax | IpLiteral

  /** The label rules of an identifier that is not an address literal. */
  predicate LabelRules(d: string) {
    var labels := Split(d);
    && (forall l :: l in labels ==> IsLdhLabel(l))
    && !AllDigits(labels[|labels| - 1])
  }

  /** An acceptable `dns` identifier. */
  predicate IsDnsIdentifier(ip: IpText, d: string) {
    |d| <= MAX_DOMAIN_LEN && ip.parse(d).None? && LabelRules(d)
  }

  /** A letter or a digit, by octet. */
  predicate IsLetDig(c: char) {
    48 <= c as int <= 57 || 65 <= c as int <= 90 || 97 <= c as int <= 122
  }

  /** The label syntax of section 2.3.1 of RFC 1035, with digits allowed in front. */
  predicate IsLabel(s: string) {
    && 1 <= |s| <= 63 && IsLetDig(s[0]) && IsLetDig(s[|s| - 1])
    && forall i :: 0 <= i < |s| ==> IsLetDig(s[i]) || s[i] as int == 45
  }

  lemma LdhIsLabel(s: string)
    ensures IsLdhLabel(s) <==> IsLabel(s)
  {
  }

  /** An acceptable name is exactly up to 253 octets of labels joined by dots, the last of them not
      all digits, that are not an address literal. */
  lemma IdentifierIsLabels(ip: IpText, d: string)
    ensures IsDnsIdentifier(ip, d) <==>
            && |d| <= 253 && ip.parse(d) == None
            && exists labels :: AreLabels(labels) && Join(labels) == d
  {
    JoinSplit(d);
    if IsDnsIdentifier(ip, d) {
      SplitAreLabels(d);
      assert AreLabels(Split(d)) && Join(Split(d)) == d;
    }
    forall labels | AreLabels(labels) && Join(labels) == d
      ensures LabelRules(d)
    {
      LabelsAreSplit(labels);
    }
  }

  predicate AreLabels(labels: seq<string>) {
    && labels != []
    && (forall i :: 0 <= i < |labels| ==> IsLabel(labels[i]))
    && HasNonNumeral(labels[|labels| - 1])
  }

  predicate HasNonNumeral(s: string) {
    exists j :: 0 <= j < |s| && !(48 <= s[j] as int <= 57)
  }

  lemma NotAllDigits(s: string)
    ensures HasNonNumeral(s) <==> !AllDigits(s)
  {
    if !AllDigits(s) {
      var j :| 0 <= j < |s| && !IsDigit(s[j]);
    }
  }

  lemma SplitAreLabels(d: string)
    requires LabelRules(d)
    ensures AreLabels(Split(d))
  {
    hide Split, IsLdhLabel, IsLabel, HasNonNumeral, AllDigits;
    var labels := Split(d);
    NotAllDigits(labels[|labels| - 1]);
    forall i | 0 <= i < |labels|
      ensures IsLabel(labels[i])
    {
      assert labels[i] in labels;
      LdhIsLabel(labels[i]);
    }
  }

  lemma LabelsAreSplit(labels: seq<string>)
    requires AreLabels(labels)
    ensures LabelRules(Join(labels))
  {
    hide Split, Join, IsLdhLabel, HasNonNumeral, AllDigits;
    NotAllDigits(labels[|labels| - 1]);
    forall l | l in labels
      ensures IsLdhLabel(l) && '.' !in l
    {
      LdhIsLabel(l);
    }
    SplitJoin(labels);
  }

  function ViolationOf(ip: IpText, d: string): (v: Option<Violation>) {
    if d == "" || d[|d| - 1] == '.' || |d| > MAX_DOMAIN_LEN then Some(Syntax)
    else if ip.parse(d).Some? then Some(IpLiteral)
    else if LabelRules(d) then None
    else Some(Syntax)
  }

  lemma {:induction false} TrailingDotLabel(d: string)
    requires d != "" && d[|d| - 1] == '.'
    ensures Split(d)[|Split(d)| - 1] == ""
  {
    if |d| == 1 {
      assert d[1..] == "";
    } else {
      TrailingDotLabel(d[1..]);
    }
  }

  /** The early checks refuse nothing the label rules would accept: the rules alone decide. */
  lemma NoViolationIffIdentifier(ip: IpText, d: string)
    ensures ViolationOf(ip, d) == None <==> IsDnsIdentifier(ip, d)
  {
    if d == "" {
      assert Split(d)[0] == "";
    } else if d[|d| - 1] == '.' {
      TrailingDotLabel(d);
      assert !IsLdhLabel(Split(d)[|Split(d)| - 1]);
    }
  }

  /** `dns_identifier_violation`: check every label in turn, remembering the last. */
  method DnsIdentifierViolation(ip: IpText, d: string) returns (v: Option<Violation>)
    ensures v == ViolationOf(ip, d)
    ensures v.None? <==> IsDnsIdentifier(ip, d)
  {
    NoViolationIffIdentifier(ip, d);
    if d == "" || d[|d| - 1] == '.' || |d| > MAX_DOMAIN_LEN {
      return Some(Syntax);
    }
    if ip.parse(d).Some? {
      return Some(IpLiteral);
    }
    var lastLabel := "";
    var labels := Split(d);
    for i := 0 to |labels|
      invariant forall l :: l in labels[..i] ==> IsLdhLabel(l)
      invariant i > 0 ==> lastLabel == labels[i - 1]
    {
      if !IsLdhLabel(labels[i]) {
        return Some(Syntax);
      }
      lastLabel := labels[i];
    }
    assert labels[..|labels|] == labels;
    if AllDigits(lastLabel) {
      return Some(Syntax);
    }
    return None;
  }

  // ----- The query name -----

  /** Octets of a name on the wire: a length octet per label and the root's. */
  function WireLen(labels: seq<string>): nat {
    if labels == [] then 1 else |labels[0]| + 1 + WireLen(labels[1..])
  }

  /** Parse a fully qualified name without escapes: labels of 1 to 63 octets, 255 octets in all. */
  function NameFromAscii(text: string): Option<seq<string>> {
    if text == "" || text[|text| - 1] != '.' then None
    else
      var labels := Split(text[..|text| - 1]);
      if (forall l :: l in labels ==> 0 < |l| <= MAX_LABEL_LEN) && WireLen(labels) <= MAX_WIRE_LEN
      then Some(labels) else None
  }

  datatype QueryNameError = BadName | AddressLiteral

  /** `dns01_query_name` */
  function Dns01QueryName(ip: IpText, d: string): Result<seq<string>, QueryNameError> {
    match ViolationOf(ip, d)
    case Some(Syntax) => Err(BadName)
    case Some(IpLiteral) => Err(AddressLiteral)
    case None =>
      match NameFromAscii(ACME_CHALLENGE_LABEL + "." + d + ".")
      case None => Err(BadName)
      case Some(name) => Ok(name)
  }

  lemma {:induction false} WireLenOfSplit(d: string)
    ensures WireLen(Split(d)) == |d| + 2
  {
    if d != "" {
      WireLenOfSplit(d[1..]);
      var rest := Split(d[1..]);
      if d[0] == '.' {
        assert Split(d)[1..] == rest;
      } else {
        assert Split(d)[1..] == rest[1..];
      }
    }
  }

  /** The parsed query name of an acceptable identifier: 18 octets longer than its text. */
  lemma QueryNameOf(ip: IpText, d: string)
    requires IsDnsIdentifier(ip, d)
    ensures |d| <= MAX_DOMAIN_LEN
    ensures NameFromAscii(ACME_CHALLENGE_LABEL + "." + d + ".") ==
            if |d| <= MAX_DNS01_LEN then Some([ACME_CHALLENGE_LABEL] + Split(d)) else None
    ensures WireLen([ACME_CHALLENGE_LABEL] + Split(d)) == |d| + 18
  {
    hide Split, Join, IsLdhLabel, AllDigits, WireLen;
    var text := ACME_CHALLENGE_LABEL + "." + d + ".";
    assert text[..|text| - 1] == ACME_CHALLENGE_LABEL + "." + d;
    SplitAtDot(ACME_CHALLENGE_LABEL, d);
    WireLenOfSplit(d);
    QueryLabels(Split(d));
  }

  lemma QueryLabels(labels: seq<string>)
    requires forall l :: l in labels ==> IsLdhLabel(l)
    ensures WireLen([ACME_CHALLENGE_LABEL] + labels) == WireLen(labels) + 16
    ensures forall l :: l in [ACME_CHALLENGE_LABEL] + labels ==> 0 < |l| <= MAX_LABEL_LEN
  {
    assert ([ACME_CHALLENGE_LABEL] + labels)[1..] == labels;
  }

  /** The query name exists for exactly the acceptable identifiers of at most 237 octets, however
      they split into labels, because the name takes 18 octets more on the wire than in text. The
      labels after `_acme-challenge` rejoin to the identifier octet for octet. */
  lemma Dns01QueryNameExact(ip: IpText, d: string)
    ensures Dns01QueryName(ip, d).Ok? <==> IsDnsIdentifier(ip, d) && |d| <= 237
    ensures Dns01QueryName(ip, d) == Err(AddressLiteral) <==>
              1 <= |d| <= 253 && d[|d| - 1] != '.' && ip.parse(d).Some?
    ensures Dns01QueryName(ip, d).Ok? ==>
              var name := Dns01QueryName(ip, d).value;
              && |name| >= 2 && name[0] == "_acme-challenge" && Join(name[1..]) == d
              && WireLen(name) == |d| + 18
  {
    NoViolationIffIdentifier(ip, d);
    if IsDnsIdentifier(ip, d) {
      QueryNameOf(ip, d);
      JoinSplit(d);
    }
  }

  /** The bound is tight whatever the labels: an acceptable identifier of 238 to 253 octets has no
      query name although it is a valid name. */
  lemma LongIdentifiersHaveNoQueryName(ip: IpText, d: string)
    requires IsDnsIdentifier(ip, d) && |d| > MAX_DNS01_LEN
    ensures Dns01QueryName(ip, d) == Err(BadName)
    ensures WireLen([ACME_CHALLENGE_LABEL] + Split(d)) > MAX_WIRE_LEN && WireLen(Split(d)) <= MAX_WIRE_LEN
  {
    Dns01QueryNameExact(ip, d);
    NoViolationIffIdentifier(ip, d);
    WireLenOfSplit(d);
    assert ([ACME_CHALLENGE_LABEL] + Split(d))[1..] == Split(d);
  }
}
