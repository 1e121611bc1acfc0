/** Small shared vocabulary: options, results and operations on octet strings. */
module Common {

  /** Text and raw octets alike are sequences of octets, one character per octet. */
  type Octets = string

  datatype Option<+T> = None | Some(value: T)

  datatype Result<+T, +E> = Ok(value: T) | Err(error: E)

  function LowerChar(c: char): char {
    if 'A' <= c <= 'Z' then (c as int - 'A' as int + 'a' as int) as char else c
  }

  /** ASCII lower-casing, octet by octet. */
  function ToLower(s: string): (r: string)
    ensures |r| == |s|
    ensures forall i :: 0 <= i < |s| ==> r[i] == LowerChar(s[i])
  {
    seq(|s|, i requires 0 <= i < |s| => LowerChar(s[i]))
  }

  /** The same octet, or the two cases of one ASCII letter. */
  predicate SameLetter(x: char, y: char) {
    || x == y
    || (65 <= x as int <= 90 && y as int == x as int + 32)
    || (65 <= y as int <= 90 && x as int == y as int + 32)
  }

  /** Equal without regard to ASCII case. */
  predicate EqualFold(a: string, b: string) {
    |a| == |b| && forall i :: 0 <= i < |a| ==> SameLetter(a[i], b[i])
  }

  /** Lower-casing equates exactly the texts that differ in ASCII case only. */
  lemma ToLowerFolds(a: string, b: string)
    ensures ToLower(a) == ToLower(b) <==> EqualFold(a, b)
  {
    if ToLower(a) == ToLower(b) {
      forall i | 0 <= i < |a|
        ensures |a| == |b| && SameLetter(a[i], b[i])
      {
        assert |ToLower(a)| == |ToLower(b)| && ToLower(a)[i] == ToLower(b)[i];
      }
    }
  }

  // ----- Concatenation -----

  function Concat(chunks: seq<Octets>): Octets {
    if chunks == [] then "" else chunks[0] + Concat(chunks[1..])
  }

  lemma {:induction false} ConcatAppend(a: seq<Octets>, b: seq<Octets>)
    ensures Concat(a + b) == Concat(a) + Concat(b)
  {
    if a == [] {
      assert a + b == b;
    } else {
      ConcatAppend(a[1..], b);
      assert (a + b)[1..] == a[1..] + b;
      Assoc(a[0], Concat(a[1..]), Concat(b));
    }
  }

  lemma ConcatOne(chunk: Octets)
    ensures Concat([chunk]) == chunk
  {
    assert [chunk][1..] == [];
  }

  /** The text after `prefix`, when the text starts with it. */
  function StripPrefix(s: string, prefix: string): (r: Option<string>)
    ensures r.Some? <==> exists rest :: s == prefix + rest
    ensures r.Some? ==> s == prefix + r.value
  {
    if prefix <= s then
      assert s == prefix + s[|prefix|..];
      Some(s[|prefix|..])
    else
      assert forall rest :: s == prefix + rest ==> prefix <= s;
      None
  }

  lemma Assoc<T>(a: seq<T>, b: seq<T>, c: seq<T>)
    ensures a + (b + c) == (a + b) + c
  {
  }

  /** Equal-length prefixes of equal texts are equal, and so are the remainders. */
  lemma Peel<T>(a: seq<T>, b: seq<T>, a': seq<T>, b': seq<T>)
    requires |a| == |a'| && a + b == a' + b'
    ensures a == a' && b == b'
  {
    assert a == (a + b)[..|a|];
    assert a' == (a' + b')[..|a|];
    assert b == (a + b)[|a|..];
    assert b' == (a' + b')[|a|..];
  }

  /** Equal-length suffixes of equal texts are equal, and so are the remainders. */
  lemma PeelBack<T>(a: seq<T>, b: seq<T>, a': seq<T>, b': seq<T>)
    requires |b| == |b'| && a + b == a' + b'
    ensures a == a' && b == b'
  {
    assert |a + b| == |a' + b'|;
    Peel(a, b, a', b');
  }
}
