/** Printing distinguished names in the string form of RFC 4514, and a reader that undoes it. */
module DistinguishedName {
  import opened Common

  // ----- Escaped text -----

  /** One character of a text, and whether a backslash stands before it as its escape. */
  datatype Piece = Piece(c: char, escaped: bool)

  /** Read a text from the left: a backslash escapes the character after it. */
  function Pieces(text: string): seq<Piece> {
    if text == "" then []
    else if text[0] == '\\' && |text| >= 2 then [Piece(text[1], true)] + Pieces(text[2..])
    else [Piece(text[0], false)] + Pieces(text[1..])
  }

  function TextOf(p: Piece): string {
    if p.escaped then ['\\', p.c] else [p.c]
  }

  function Text(ps: seq<Piece>): string {
    if ps == [] then "" else TextOf(ps[0]) + Text(ps[1..])
  }

  predicate Readable(ps: seq<Piece>) {
    forall i :: 0 <= i < |ps| ==> ps[i].c == '\\' ==> ps[i].escaped
  }

  /** Text whose backslashes are all escapes or escaped reads back piece by piece. */
  lemma {:induction false} PiecesOfText(ps: seq<Piece>)
    requires Readable(ps)
    ensures Pieces(Text(ps)) == ps
  {
    if ps != [] {
      PiecesOfText(ps[1..]);
      var rest := Text(ps[1..]);
      assert (TextOf(ps[0]) + rest)[|TextOf(ps[0])|..] == rest;
    }
  }

  lemma {:induction false} TextAppend(ps: seq<Piece>, qs: seq<Piece>)
    ensures Text(ps + qs) == Text(ps) + Text(qs)
  {
    hide TextOf;
    if ps == [] {
      assert ps + qs == qs;
    } else {
      var whole := ps + qs;
      assert whole[0] == ps[0] && whole[1..] == ps[1..] + qs;
      TextAppend(ps[1..], qs);
      assert Text(whole) == TextOf(ps[0]) + (Text(ps[1..]) + Text(qs));
    }
  }

  lemma TextSnoc(ps: seq<Piece>, p: Piece)
    ensures Text(ps + [p]) == Text(ps) + TextOf(p)
  {
    TextAppend(ps, [p]);
    assert [p][1..] == [];
  }

  function Chars(ps: seq<Piece>): string {
    seq(|ps|, i requires 0 <= i < |ps| => ps[i].c)
  }

  // ----- Escaping a value -----

  predicate Special(c: char) {
    c in {',', '+', '"', '\\', '<', '>', ';'}
  }

  /** Escaped as it is copied: the special characters, and a leading `#` or space. */
  predicate EscapedInPlace(value: string, i: nat)
    requires i < |value|
  {
    Special(value[i]) || (i == 0 && (value[i] == '#' || value[i] == ' '))
  }

  /** ... and a trailing space, unless a backslash stands before it. */
  predicate EscapedAt(value: string, i: nat)
    requires i < |value|
  {
    EscapedInPlace(value, i) ||
    (i == |value| - 1 && value[i] == ' ' && !(i > 0 && value[i - 1] == '\\'))
  }

  function InPlace(value: string): (ps: seq<Piece>)
    ensures |ps| == |value|
  {
    seq(|value|, i requires 0 <= i < |value| => Piece(value[i], EscapedInPlace(value, i)))
  }

  function Marked(value: string): (ps: seq<Piece>)
    ensures |ps| == |value|
  {
    seq(|value|, i requires 0 <= i < |value| => Piece(value[i], EscapedAt(value, i)))
  }

  lemma LastChar(ps: seq<Piece>)
    requires ps != []
    ensures Text(ps) != "" && Text(ps)[|Text(ps)| - 1] == ps[|ps| - 1].c
    ensures Text(ps) == Text(ps[..|ps| - 1]) + TextOf(ps[|ps| - 1])
  {
    assert ps == ps[..|ps| - 1] + [ps[|ps| - 1]];
    TextSnoc(ps[..|ps| - 1], ps[|ps| - 1]);
  }

  lemma EmptyText(ps: seq<Piece>)
    requires |ps| == 0
    ensures Text(ps) == ""
  {
  }

  /** What the trailing-space step makes of the copied text. */
  lemma TrailingStep(value: string)
    ensures var e := Text(InPlace(value));
            var bare := |e| >= 1 && e[|e| - 1] == ' ' && !(|e| >= 2 && e[|e| - 2] == '\\');
            Text(Marked(value)) == if bare then e[..|e| - 1] + ['\\', ' '] else e
  {
    hide Text;
    var ps, qs := InPlace(value), Marked(value);
    if value == "" {
      EmptyText(ps);
      EmptyText(qs);
    } else {
      var n := |value| - 1;
      assert ps[..n] == qs[..n];
      LastChar(ps);
      LastChar(qs);
      if n > 0 {
        LastChar(ps[..n]);
      } else {
        EmptyText(ps[..n]);
      }
    }
  }

  method EscapeRdnValue(value: string) returns (escaped: string)
    ensures escaped == Text(Marked(value))
  {
    escaped := "";
    for i := 0 to |value|
      invariant escaped == Text(InPlace(value)[..i])
      invariant escaped == "" <==> i == 0
    {
      var c := value[i];
      assert InPlace(value)[..i + 1] == InPlace(value)[..i] + [InPlace(value)[i]];
      TextSnoc(InPlace(value)[..i], InPlace(value)[i]);
      if Special(c) {
        escaped := escaped + ['\\', c];
      } else if c == '#' && escaped == "" {
        escaped := escaped + ['\\', c];
      } else if c == ' ' && escaped == "" {
        escaped := escaped + ['\\', c];
      } else {
        escaped := escaped + [c];
      }
    }
    assert InPlace(value)[..|value|] == InPlace(value);
    TrailingStep(value);
    var len := |escaped|;
    if len >= 1 && escaped[len - 1] == ' ' && !(len >= 2 && escaped[len - 2] == '\\') {
      escaped := escaped[..len - 1] + ['\\'] + escaped[len - 1..];
    }
  }

  lemma MarkedReadable(value: string)
    ensures Readable(Marked(value)) && Chars(Marked(value)) == value
  {
  }

  /** The characters that section 2.4 of RFC 4514 wants escaped wherever they stand: the quotation
      mark, plus, comma, semicolon, the angle brackets, the backslash and NUL, by code. */
  predicate MustBeEscaped(c: char) {
    c as int in {0x22, 0x2B, 0x2C, 0x3B, 0x3C, 0x3E, 0x5C, 0}
  }

  /** Section 2.4 of RFC 4514: unescaped, a value has none of these, does not start with `#` or a
      space and does not end with a space. */
  predicate Conforms(text: string) {
    var ps := Pieces(text);
    && (forall i :: 0 <= i < |ps| && !ps[i].escaped ==> !MustBeEscaped(ps[i].c))
    && (ps != [] && !ps[0].escaped ==> ps[0].c != '#' && ps[0].c != ' ')
    && (ps != [] && !ps[|ps| - 1].escaped ==> ps[|ps| - 1].c != ' ')
  }

  predicate EndsWithBackslashSpace(value: string) {
    |value| >= 2 && value[|value| - 2] == '\\' && value[|value| - 1] == ' '
  }

  lemma SpecialIsNeeded(c: char)
    ensures MustBeEscaped(c) <==> Special(c) || c == '\0'
  {
  }

  /** Nothing is escaped without need: where the printer puts a backslash, section 2.4 asks for it. */
  lemma EscapedOnlyIfNeeded(value: string, i: nat)
    requires i < |value| && Marked(value)[i].escaped
    ensures || MustBeEscaped(value[i])
            || (i == 0 && (value[i] == '#' || value[i] == ' '))
            || (i == |value| - 1 && value[i] == ' ')
  {
    SpecialIsNeeded(value[i]);
  }

  /** The printed value meets section 2.4 exactly when the value has no NUL and does not end with a
      backslash and a space. */
  lemma ConformsExactly(value: string)
    ensures Conforms(Text(Marked(value))) <==> '\0' !in value && !EndsWithBackslashSpace(value)
  {
    hide MustBeEscaped;
    MarkedReadable(value);
    PiecesOfText(Marked(value));
    var ps := Marked(value);
    forall c: char
      ensures MustBeEscaped(c) <==> Special(c) || c == '\0'
    {
      SpecialIsNeeded(c);
    }
    if EndsWithBackslashSpace(value) {
      assert !ps[|ps| - 1].escaped && ps[|ps| - 1].c == ' ';
    } else if '\0' in value {
      var i :| 0 <= i < |value| && value[i] == '\0';
      assert !ps[i].escaped && ps[i].c == '\0';
    }
  }

  /** A value whose trailing space is printed bare. */
  lemma BareTrailingSpace()
    ensures Text(Marked("\\ ")) == "\\\\ " && !Conforms("\\\\ ")
  {
    var ps := Marked("\\ ");
    assert ps == [Piece('\\', true), Piece(' ', false)];
    assert ps[1..] == [Piece(' ', false)] && ps[1..][1..] == [];
    assert Text(ps[1..]) == " ";
    ConformsExactly("\\ ");
  }

  // ----- Names -----

  datatype Name = Name(
    commonName: Option<string>, organization: Option<string>, organizationalUnit: Option<string>,
    locality: Option<string>, stateOrProvince: Option<string>, country: Option<string>,
    serialNumber: Option<string>)

  datatype Attribute = Attribute(kind: string, value: string)

  function Optional(kind: string, value: Option<string>): seq<Attribute> {
    if value.Some? then [Attribute(kind, value.value)] else []
  }

  /** The attributes present, in printing order. */
  function Attributes(dn: Name): seq<Attribute> {
    Optional("CN", dn.commonName) + Optional("OU", dn.organizationalUnit) + Optional("O", dn.organization)
    + Optional("L", dn.locality) + Optional("ST", dn.stateOrProvince) + Optional("C", dn.country)
    + Optional("SERIALNUMBER", dn.serialNumber)
  }

  function Plain(text: string): (ps: seq<Piece>)
    ensures |ps| == |text|
  {
    seq(|text|, i requires 0 <= i < |text| => Piece(text[i], false))
  }

  function PrintedPart(a: Attribute): string {
    a.kind + "=" + Text(Marked(a.value))
  }

  function Join(parts: seq<string>): string {
    if parts == [] then ""
    else if |parts| == 1 then parts[0]
    else parts[0] + "," + Join(parts[1..])
  }

  function PrintedParts(attrs: seq<Attribute>): (parts: seq<string>)
    ensures |parts| == |attrs|
  {
    seq(|attrs|, i requires 0 <= i < |attrs| => PrintedPart(attrs[i]))
  }

  function Printed(dn: Name): string {
    Join(PrintedParts(Attributes(dn)))
  }

  method PushPart(parts: seq<string>, kind: string, value: Option<string>, ghost attrs: seq<Attribute>)
    returns (parts': seq<string>)
    requires parts == PrintedParts(attrs)
    ensures parts' == PrintedParts(attrs + Optional(kind, value))
  {
    parts' := parts;
    if value.Some? {
      var escaped := EscapeRdnValue(value.value);
      parts' := parts + [kind + "=" + escaped];
    }
  }

  method ToStringRfc4514(dn: Name) returns (text: string)
    ensures text == Printed(dn)
  {
    hide PrintedParts, Join, Optional;
    ghost var attrs := [];
    var parts := [];
    assert parts == PrintedParts(attrs);
    assert attrs + Optional("CN", dn.commonName) == Optional("CN", dn.commonName);
    parts := PushPart(parts, "CN", dn.commonName, attrs);
    attrs := attrs + Optional("CN", dn.commonName);
    parts := PushPart(parts, "OU", dn.organizationalUnit, attrs);
    attrs := attrs + Optional("OU", dn.organizationalUnit);
    parts := PushPart(parts, "O", dn.organization, attrs);
    attrs := attrs + Optional("O", dn.organization);
    parts := PushPart(parts, "L", dn.locality, attrs);
    attrs := attrs + Optional("L", dn.locality);
    parts := PushPart(parts, "ST", dn.stateOrProvince, attrs);
    attrs := attrs + Optional("ST", dn.stateOrProvince);
    parts := PushPart(parts, "C", dn.country, attrs);
    attrs := attrs + Optional("C", dn.country);
    parts := PushPart(parts, "SERIALNUMBER", dn.serialNumber, attrs);
    attrs := attrs + Optional("SERIALNUMBER", dn.serialNumber);
    text := Join(parts);
  }

  // ----- The reader -----

  predicate IsBare(p: Piece, c: char) {
    p == Piece(c, false)
  }

  /** Split at the unescaped commas. */
  function SplitPieces(ps: seq<Piece>): (parts: seq<seq<Piece>>)
    ensures parts != []
  {
    if ps == [] then [[]]
    else
      var rest := SplitPieces(ps[1..]);
      if IsBare(ps[0], ',') then [[]] + rest else [[ps[0]] + rest[0]] + rest[1..]
  }

  /** The text before the first `=`, and the text after it without its escapes. */
  function ReadPart(ps: seq<Piece>): Option<Attribute> {
    if ps == [] then None
    else if IsBare(ps[0], '=') then Some(Attribute("", Chars(ps[1..])))
    else
      var rest := ReadPart(ps[1..]);
      if rest.None? then None else Some(Attribute([ps[0].c] + rest.value.kind, rest.value.value))
  }

  function ReadParts(parts: seq<seq<Piece>>): Option<seq<Attribute>> {
    if parts == [] then Some([])
    else
      var first, rest := ReadPart(parts[0]), ReadParts(parts[1..]);
      if first.None? || rest.None? then None else Some([first.value] + rest.value)
  }

  function ReadAttributes(text: string): Option<seq<Attribute>> {
    if text == "" then Some([]) else ReadParts(SplitPieces(Pieces(text)))
  }

  function Find(attrs: seq<Attribute>, kind: string): Option<string> {
    if attrs == [] then None
    else if attrs[0].kind == kind then Some(attrs[0].value)
    else Find(attrs[1..], kind)
  }

  function Read(text: string): Option<Name> {
    var attrs := ReadAttributes(text);
    if attrs.None? then None
    else
      Some(Name(Find(attrs.value, "CN"), Find(attrs.value, "O"), Find(attrs.value, "OU"), Find(attrs.value, "L"),
                Find(attrs.value, "ST"), Find(attrs.value, "C"), Find(attrs.value, "SERIALNUMBER")))
  }

  // ----- The round trip -----

  /** An attribute type: no character that the reader or the printer treats specially. */
  predicate IsKind(kind: string) {
    forall i :: 0 <= i < |kind| ==> kind[i] != '=' && kind[i] != ',' && kind[i] != '\\'
  }

  function PartPieces(a: Attribute): seq<Piece> {
    Plain(a.kind) + [Piece('=', false)] + Marked(a.value)
  }

  function JoinPieces(attrs: seq<Attribute>): seq<Piece> {
    if attrs == [] then []
    else if |attrs| == 1 then PartPieces(attrs[0])
    else PartPieces(attrs[0]) + [Piece(',', false)] + JoinPieces(attrs[1..])
  }

  lemma {:induction false} TextOfPlain(text: string)
    ensures Text(Plain(text)) == text
  {
    if text != "" {
      TextOfPlain(text[1..]);
      assert Plain(text)[1..] == Plain(text[1..]);
    }
  }

  lemma PartIsPieces(a: Attribute)
    ensures Text(PartPieces(a)) == PrintedPart(a)
  {
    TextOfPlain(a.kind);
    TextSnoc(Plain(a.kind), Piece('=', false));
    TextAppend(Plain(a.kind) + [Piece('=', false)], Marked(a.value));
  }

  lemma {:induction false} JoinIsPieces(attrs: seq<Attribute>)
    ensures Text(JoinPieces(attrs)) == Join(PrintedParts(attrs))
  {
    if attrs != [] {
      PartIsPieces(attrs[0]);
      if |attrs| > 1 {
        JoinIsPieces(attrs[1..]);
        assert PrintedParts(attrs)[1..] == PrintedParts(attrs[1..]);
        TextSnoc(PartPieces(attrs[0]), Piece(',', false));
        TextAppend(PartPieces(attrs[0]) + [Piece(',', false)], JoinPieces(attrs[1..]));
      }
    }
  }

  predicate Kinds(attrs: seq<Attribute>) {
    forall i :: 0 <= i < |attrs| ==> IsKind(attrs[i].kind)
  }

  predicate NoBareComma(ps: seq<Piece>) {
    forall i :: 0 <= i < |ps| ==> !IsBare(ps[i], ',')
  }

  lemma PartIsReadable(a: Attribute)
    requires IsKind(a.kind)
    ensures Readable(PartPieces(a)) && NoBareComma(PartPieces(a))
  {
  }

  lemma {:induction false} JoinIsReadable(attrs: seq<Attribute>)
    requires Kinds(attrs)
    ensures Readable(JoinPieces(attrs))
  {
    if attrs != [] {
      PartIsReadable(attrs[0]);
      if |attrs| > 1 {
        JoinIsReadable(attrs[1..]);
      }
    }
  }

  lemma {:induction false} SplitFirst(part: seq<Piece>, rest: seq<Piece>)
    requires NoBareComma(part)
    ensures SplitPieces(part) == [part]
    ensures SplitPieces(part + [Piece(',', false)] + rest) == [part] + SplitPieces(rest)
  {
    var whole := part + [Piece(',', false)] + rest;
    if part == [] {
      assert whole[1..] == rest;
    } else {
      SplitFirst(part[1..], rest);
      assert whole[1..] == part[1..] + [Piece(',', false)] + rest;
      assert [part[0]] + part[1..] == part;
    }
  }

  lemma {:induction false} PartIsRead(kind: string, value: string)
    requires IsKind(kind)
    ensures ReadPart(PartPieces(Attribute(kind, value))) == Some(Attribute(kind, value))
  {
    var ps := PartPieces(Attribute(kind, value));
    if kind == "" {
      assert ps[1..] == Marked(value);
      MarkedReadable(value);
    } else {
      PartIsRead(kind[1..], value);
      assert ps[1..] == PartPieces(Attribute(kind[1..], value));
      assert [kind[0]] + kind[1..] == kind;
    }
  }

  lemma {:induction false} PartsAreRead(attrs: seq<Attribute>)
    requires attrs != [] && Kinds(attrs)
    ensures ReadParts(SplitPieces(JoinPieces(attrs))) == Some(attrs)
  {
    var a := attrs[0];
    PartIsReadable(a);
    PartIsRead(a.kind, a.value);
    assert a == Attribute(a.kind, a.value);
    if |attrs| == 1 {
      SplitFirst(PartPieces(a), []);
      assert attrs == [a];
      var parts := [PartPieces(a)];
      assert ReadParts(parts[1..]) == Some([]);
      assert [a] + [] == [a];
    } else {
      SplitFirst(PartPieces(a), JoinPieces(attrs[1..]));
      PartsAreRead(attrs[1..]);
      var parts := SplitPieces(JoinPieces(attrs[1..]));
      assert ([PartPieces(a)] + parts)[1..] == parts;
      assert [a] + attrs[1..] == attrs;
    }
  }

  lemma AttributesAreRead(attrs: seq<Attribute>)
    requires Kinds(attrs)
    ensures ReadAttributes(Join(PrintedParts(attrs))) == Some(attrs)
  {
    if attrs != [] {
      JoinIsPieces(attrs);
      JoinIsReadable(attrs);
      PiecesOfText(JoinPieces(attrs));
      PartsAreRead(attrs);
      assert JoinPieces(attrs) != [];
      LastChar(JoinPieces(attrs));
    }
  }

  lemma {:induction false} FindInBoth(a: seq<Attribute>, b: seq<Attribute>, kind: string)
    ensures Find(a + b, kind) == if Find(a, kind).Some? then Find(a, kind) else Find(b, kind)
  {
    if a == [] {
      assert a + b == b;
    } else {
      FindInBoth(a[1..], b, kind);
      assert (a + b)[1..] == a[1..] + b;
    }
  }

  /** Look a type up in the seven optional attributes. */
  lemma FindAmong(dn: Name, kind: string)
    ensures Find(Attributes(dn), kind) ==
            (if kind == "CN" then dn.commonName else if kind == "OU" then dn.organizationalUnit
             else if kind == "O" then dn.organization else if kind == "L" then dn.locality
             else if kind == "ST" then dn.stateOrProvince else if kind == "C" then dn.country
             else if kind == "SERIALNUMBER" then dn.serialNumber else None)
  {
    var cn, ou, o := Optional("CN", dn.commonName), Optional("OU", dn.organizationalUnit), Optional("O", dn.organization);
    var l, st, c := Optional("L", dn.locality), Optional("ST", dn.stateOrProvince), Optional("C", dn.country);
    FindInBoth(cn, ou, kind);
    FindInBoth(cn + ou, o, kind);
    FindInBoth(cn + ou + o, l, kind);
    FindInBoth(cn + ou + o + l, st, kind);
    FindInBoth(cn + ou + o + l + st, c, kind);
    FindInBoth(cn + ou + o + l + st + c, Optional("SERIALNUMBER", dn.serialNumber), kind);
  }

  lemma SevenKinds()
    ensures IsKind("CN") && IsKind("OU") && IsKind("O") && IsKind("L") && IsKind("ST") && IsKind("C")
    ensures IsKind("SERIALNUMBER")
  {
  }

  lemma KindsOfName(dn: Name)
    ensures Kinds(Attributes(dn))
  {
    SevenKinds();
    hide IsKind;
  }

  /** For every distinguished name, whatever characters its values hold, reading back what is
      printed gives the same name. */
  lemma PrintingIsUndone(dn: Name)
    ensures Read(Printed(dn)) == Some(dn)
  {
    hide Attributes, ReadAttributes, Find;
    KindsOfName(dn);
    AttributesAreRead(Attributes(dn));
    FindAmong(dn, "CN");
    FindAmong(dn, "OU");
    FindAmong(dn, "O");
    FindAmong(dn, "L");
    FindAmong(dn, "ST");
    FindAmong(dn, "C");
    FindAmong(dn, "SERIALNUMBER");
  }

  /** Which type each attribute prints under, and in which order. */
  lemma FullNameAttributes(dn: Name)
    requires dn.commonName.Some? && dn.organization.Some? && dn.organizationalUnit.Some? && dn.locality.Some?
    requires dn.stateOrProvince.Some? && dn.country.Some? && dn.serialNumber.Some?
    ensures Attributes(dn) ==
            [Attribute("CN", dn.commonName.value), Attribute("OU", dn.organizationalUnit.value),
             Attribute("O", dn.organization.value), Attribute("L", dn.locality.value),
             Attribute("ST", dn.stateOrProvince.value), Attribute("C", dn.country.value),
             Attribute("SERIALNUMBER", dn.serialNumber.value)]
  {
  }

  /** How attributes are written and joined, on a name with two of them. */
  lemma TwoAttributesText(cn: string, o: string)
    ensures Printed(Name(Some(cn), Some(o), None, None, None, None, None))
            == "CN=" + Text(Marked(cn)) + "," + ("O=" + Text(Marked(o)))
  {
    hide Text, Marked;
    var dn := Name(Some(cn), Some(o), None, None, None, None, None);
    assert Attributes(dn) == [Attribute("CN", cn), Attribute("O", o)];
    var parts := PrintedParts(Attributes(dn));
    assert "CN" + "=" == "CN=" && "O" + "=" == "O=";
    assert |parts| == 2 && parts[1..] == [parts[1]];
    assert parts[0] == "CN=" + Text(Marked(cn));
    assert parts[1] == "O=" + Text(Marked(o));
    assert Join(parts[1..]) == parts[1];
    assert Join(parts) == parts[0] + "," + parts[1];
    Assoc("CN=" + Text(Marked(cn)), ",", "O=" + Text(Marked(o)));
  }

  /** Distinct names print differently. */
  lemma PrintingIsInjective(a: Name, b: Name)
    requires Printed(a) == Printed(b)
    ensures a == b
  {
    PrintingIsUndone(a);
    PrintingIsUndone(b);
  }
}
