/**
 The canonical query string and the string to sign of a signed Aliyun DNS
 request. Text is its UTF-8 bytes.
 */
module CanonicalQuery {
  import opened Prelude
  import opened Text

  type Bytes = seq<Byte>
  type Pair = (Bytes, Bytes)

  const PERCENT: Byte := 37
  const AMPERSAND: Byte := 38
  const SLASH: Byte := 47
  const EQUALS: Byte := 61
  const GET: Bytes := [71, 69, 84]

  // ---- percent encoding ----

  predicate Unreserved(b: Byte) {
    48 <= b <= 57 || 65 <= b <= 90 || 97 <= b <= 122 || b == 45 || b == 46 || b == 95 || b == 126
  }

  /** An upper-case hexadecimal digit. */
  function HexDigit(n: nat): Byte
    requires n < 16
  {
    if n < 10 then 48 + n else 55 + n
  }

  function HexValue(b: Byte): Option<nat> {
    if 48 <= b <= 57 then Some(b - 48) else if 65 <= b <= 70 then Some(b - 55) else None
  }

  function EncodeByte(b: Byte): Bytes {
    if Unreserved(b) then [b] else [PERCENT, HexDigit(b / 16), HexDigit(b % 16)]
  }

  function Encode(s: Bytes): Bytes {
    if s == [] then [] else EncodeByte(s[0]) + Encode(s[1..])
  }

  lemma {:induction false} EncodeAppend(s: Bytes, b: Byte)
    ensures Encode(s + [b]) == Encode(s) + EncodeByte(b)
  {
    if s == [] {
      assert Encode([b]) == EncodeByte(b) + Encode([b][1..]);
    } else {
      assert (s + [b])[1..] == s[1..] + [b];
      EncodeAppend(s[1..], b);
    }
  }

  method PercentEncode(input: Bytes) returns (out: Bytes)
    ensures out == Encode(input)
  {
    out := [];
    for i := 0 to |input|
      invariant out == Encode(input[..i])
    {
      var b := input[i];
      EncodeAppend(input[..i], b);
      assert input[..i + 1] == input[..i] + [b];
      if Unreserved(b) {
        out := out + [b];
      } else {
        out := out + [PERCENT, HexDigit(b / 16), HexDigit(b % 16)];
      }
    }
    assert input[..|input|] == input;
  }

  /** Section 2.1 of RFC 3986, upper-case digits only; any other character is no encoding. */
  function Decode(s: Bytes): Option<Bytes> {
    if s == [] then Some([])
    else if Unreserved(s[0]) then
      var rest := Decode(s[1..]);
      if rest.None? then None else Some([s[0]] + rest.value)
    else if s[0] != PERCENT || |s| < 3 || HexValue(s[1]).None? || HexValue(s[2]).None? then None
    else
      var rest := Decode(s[3..]);
      if rest.None? then None else Some([HexValue(s[1]).value * 16 + HexValue(s[2]).value] + rest.value)
  }

  lemma EncodedByte(b: Byte, rest: Bytes)
    ensures Decode(EncodeByte(b) + rest) ==
      if Decode(rest).None? then None else Some([b] + Decode(rest).value)
    ensures forall i :: 0 <= i < |EncodeByte(b)| ==> Unreserved(EncodeByte(b)[i]) || EncodeByte(b)[i] == PERCENT
  {
    var e := EncodeByte(b) + rest;
    if Unreserved(b) {
      assert e[1..] == rest;
    } else {
      assert e[3..] == rest;
      assert HexValue(HexDigit(b / 16)) == Some(b / 16) && HexValue(HexDigit(b % 16)) == Some(b % 16);
    }
  }

  lemma {:induction false} EncodedAlphabet(s: Bytes)
    ensures forall i :: 0 <= i < |Encode(s)| ==> Unreserved(Encode(s)[i]) || Encode(s)[i] == PERCENT
  {
    if s != [] {
      EncodedByte(s[0], Encode(s[1..]));
      EncodedAlphabet(s[1..]);
    }
  }

  lemma {:induction false} DecodesBack(s: Bytes)
    ensures Decode(Encode(s)) == Some(s)
  {
    if s != [] {
      EncodedByte(s[0], Encode(s[1..]));
      DecodesBack(s[1..]);
      assert s == [s[0]] + s[1..];
    }
  }

  /** Decoding gives back the text; the encoding is unreserved characters and escapes, never a delimiter. */
  lemma DecodeUndoesEncode(s: Bytes)
    ensures Decode(Encode(s)) == Some(s)
    ensures forall i :: 0 <= i < |Encode(s)| ==> Unreserved(Encode(s)[i]) || Encode(s)[i] == PERCENT
    ensures !Has(Encode(s), AMPERSAND) && !Has(Encode(s), EQUALS)
  {
    DecodesBack(s);
    EncodedAlphabet(s);
  }

  // ---- the canonical query ----

  function Field(p: Pair): Bytes {
    Encode(p.0) + [EQUALS] + Encode(p.1)
  }

  function Fields(pairs: seq<Pair>): (r: seq<Bytes>)
    ensures |r| == |pairs| && forall i :: 0 <= i < |r| ==> r[i] == Field(pairs[i])
  {
    if pairs == [] then [] else [Field(pairs[0])] + Fields(pairs[1..])
  }

  function Canonical(pairs: seq<Pair>): Bytes {
    Join(Fields(pairs), AMPERSAND)
  }

  function StringToSign(pairs: seq<Pair>): Bytes {
    GET + [AMPERSAND] + Encode([SLASH]) + [AMPERSAND] + Encode(Canonical(pairs))
  }

  /** What a verifier reads back: fields between ampersands, each split at its first equals sign. */
  function ParseField(s: Bytes): Option<Pair> {
    var at := Find(s, EQUALS);
    if at.None? then None
    else
      var k, v := Decode(s[..at.value]), Decode(s[at.value + 1..]);
      if k.None? || v.None? then None else Some((k.value, v.value))
  }

  function ParseFields(fields: seq<Bytes>): Option<seq<Pair>> {
    if fields == [] then Some([])
    else
      var first, rest := ParseField(fields[0]), ParseFields(fields[1..]);
      if first.None? || rest.None? then None else Some([first.value] + rest.value)
  }

  function ParseQuery(s: Bytes): Option<seq<Pair>> {
    if s == [] then Some([]) else ParseFields(SplitOn(s, AMPERSAND))
  }

  lemma FirstEquals(k: Bytes, v: Bytes)
    requires !Has(k, EQUALS)
    ensures Find(k + [EQUALS] + v, EQUALS) == Some(|k|)
    ensures (k + [EQUALS] + v)[..|k|] == k && (k + [EQUALS] + v)[|k| + 1..] == v
  {
    var f := k + [EQUALS] + v;
    assert f[|k|] == EQUALS && forall j :: 0 <= j < |k| ==> f[j] == k[j];
  }

  lemma NoAmpersand(k: Bytes, v: Bytes)
    requires !Has(k, AMPERSAND) && !Has(v, AMPERSAND)
    ensures !Has(k + [EQUALS] + v, AMPERSAND)
  {
    var f := k + [EQUALS] + v;
    forall i | 0 <= i < |f| ensures f[i] != AMPERSAND {
      assert f[i] == if i < |k| then k[i] else if i == |k| then EQUALS else v[i - |k| - 1];
    }
  }

  lemma ParseUndoesField(p: Pair)
    ensures ParseField(Field(p)) == Some(p)
    ensures !Has(Field(p), AMPERSAND)
  {
    DecodeUndoesEncode(p.0);
    DecodeUndoesEncode(p.1);
    FirstEquals(Encode(p.0), Encode(p.1));
    NoAmpersand(Encode(p.0), Encode(p.1));
  }

  lemma {:induction false} ParseUndoesFields(pairs: seq<Pair>)
    ensures ParseFields(Fields(pairs)) == Some(pairs)
  {
    if pairs != [] {
      ParseUndoesField(pairs[0]);
      ParseUndoesFields(pairs[1..]);
      assert Fields(pairs)[1..] == Fields(pairs[1..]);
      assert pairs == [pairs[0]] + pairs[1..];
    }
  }

  lemma JoinedFields(pairs: seq<Pair>)
    requires pairs != []
    ensures Canonical(pairs) != []
  {
    var fields := Fields(pairs);
    assert |fields[0]| > 0;
    if |fields| > 1 {
      assert |Join(fields, AMPERSAND)| >= |fields[0]|;
    }
  }

  /** No name or value, whatever characters it holds, can be confused with another: the query parses back exactly. */
  lemma ParseUndoesCanonical(pairs: seq<Pair>)
    ensures ParseQuery(Canonical(pairs)) == Some(pairs)
  {
    if pairs != [] {
      JoinedFields(pairs);
      var fields := Fields(pairs);
      forall i | 0 <= i < |fields| ensures !Has(fields[i], AMPERSAND) {
        ParseUndoesField(pairs[i]);
      }
      SplitUndoesJoin(fields, AMPERSAND);
      ParseUndoesFields(pairs);
    }
  }

  /** Two parameter lists sign the same text only if they are the same list. */
  lemma StringToSignInjective(a: seq<Pair>, b: seq<Pair>)
    requires StringToSign(a) == StringToSign(b)
    ensures a == b
  {
    var head := GET + [AMPERSAND] + Encode([SLASH]) + [AMPERSAND];
    var x, y := Encode(Canonical(a)), Encode(Canonical(b));
    assert (head + x)[|head|..] == x && (head + y)[|head|..] == y;
    DecodeUndoesEncode(Canonical(a));
    DecodeUndoesEncode(Canonical(b));
    ParseUndoesCanonical(a);
    ParseUndoesCanonical(b);
  }

  // ---- written out ----

  function Ascii(s: string): (r: Bytes)
    requires forall i :: 0 <= i < |s| ==> s[i] < '\U{0080}'
    ensures |r| == |s| && forall i :: 0 <= i < |s| ==> r[i] == s[i] as int
  {
    seq(|s|, i requires 0 <= i < |s| => s[i] as int)
  }

  /** What stays as it is: letters, digits and the four marks of section 2.3 of RFC 3986. */
  lemma UnreservedIff(b: Byte)
    ensures var c := b as char;
            |Encode([b])| == 1 <==>
              || 'A' <= c <= 'Z' || 'a' <= c <= 'z' || '0' <= c <= '9'
              || c == '-' || c == '.' || c == '_' || c == '~'
    ensures |Encode([b])| == 1 ==> Encode([b]) == [b]
  {
    assert [b][1..] == [] && Encode([b]) == EncodeByte(b) + Encode([]);
  }

  /** A space is an escape, not a plus sign, and so are a star and a slash; hexadecimal digits are capitals. */
  lemma EscapesAre()
    ensures Encode(Ascii(" ")) == Ascii("%20") && Encode(Ascii("*")) == Ascii("%2A")
    ensures Encode(Ascii("/")) == Ascii("%2F")
  {
    assert Ascii(" ") == [32] && Ascii("*") == [42] && Ascii("/") == [47];
    assert Encode([32]) == EncodeByte(32) + Encode([32][1..]);
    assert Encode([42]) == EncodeByte(42) + Encode([42][1..]);
    assert Encode([47]) == EncodeByte(47) + Encode([47][1..]);
  }

  lemma ThreeParts(a: Bytes, b: Bytes, c: Bytes)
    requires !Has(a, AMPERSAND) && !Has(b, AMPERSAND) && !Has(c, AMPERSAND)
    ensures SplitOn(a + [AMPERSAND] + b + [AMPERSAND] + c, AMPERSAND) == [a, b, c]
  {
    SplitPrefix(c, [], AMPERSAND);
    SplitPrefix(b, c, AMPERSAND);
    SplitPrefix(a, b + [AMPERSAND] + c, AMPERSAND);
    assert a + [AMPERSAND] + b + [AMPERSAND] + c == a + [AMPERSAND] + (b + [AMPERSAND] + c);
  }

  lemma Characters()
    ensures Ascii("GET") == GET && Ascii("/") == [SLASH] && Ascii("&") == [AMPERSAND] && !Has(GET, AMPERSAND)
  {
  }

  /** The string to sign is three parts between ampersands: the method, the path, and the query encoded once more. */
  lemma StringToSignParts(pairs: seq<Pair>)
    ensures SplitOn(StringToSign(pairs), Ascii("&")[0]) == [Ascii("GET"), Ascii("%2F"), Encode(Canonical(pairs))]
    ensures Decode(Encode(Canonical(pairs))) == Some(Canonical(pairs))
    ensures ParseQuery(Canonical(pairs)) == Some(pairs)
  {
    DecodeUndoesEncode(Canonical(pairs));
    ParseUndoesCanonical(pairs);
    EscapesAre();
    Characters();
    DecodeUndoesEncode([SLASH]);
    ThreeParts(GET, Encode([SLASH]), Encode(Canonical(pairs)));
  }

  // ---- the sorted parameter map ----

  /** Byte-wise lexicographic order, as strings compare. */
  predicate Less(a: Bytes, b: Bytes) {
    if a == [] then b != []
    else if b == [] then false
    else a[0] < b[0] || (a[0] == b[0] && Less(a[1..], b[1..]))
  }

  lemma {:induction false} LessIsStrictOrder(a: Bytes, b: Bytes, c: Bytes)
    ensures !Less(a, a)
    ensures a != b ==> Less(a, b) || Less(b, a)
    ensures Less(a, b) && Less(b, c) ==> Less(a, c)
    decreases |a| + |b| + |c|
  {
    if a != [] {
      assert a == [a[0]] + a[1..];
      if b != [] {
        assert b == [b[0]] + b[1..];
        LessIsStrictOrder(a[1..], b[1..], if c == [] then [] else c[1..]);
      } else {
        LessIsStrictOrder(a[1..], [], []);
      }
    }
  }

  /** The iteration of a `BTreeMap`: keys strictly ascending. */
  predicate Ascending(pairs: seq<Pair>) {
    forall i, j :: 0 <= i < j < |pairs| ==> Less(pairs[i].0, pairs[j].0)
  }

  function Contents(pairs: seq<Pair>): map<Bytes, Bytes> {
    if pairs == [] then map[] else Contents(pairs[1..])[pairs[0].0 := pairs[0].1]
  }

  lemma {:induction false} ContentsAt(pairs: seq<Pair>, k: Bytes)
    requires Ascending(pairs)
    ensures k in Contents(pairs) <==> exists i :: 0 <= i < |pairs| && pairs[i].0 == k
    ensures forall i :: 0 <= i < |pairs| && pairs[i].0 == k ==> Contents(pairs)[k] == pairs[i].1
  {
    if pairs != [] {
      var rest := pairs[1..];
      ContentsAt(rest, k);
      assert forall i :: 0 < i < |pairs| ==> pairs[i] == rest[i - 1];
      LessIsStrictOrder(pairs[0].0, [], []);
      if k in Contents(rest) {
        var i :| 0 <= i < |rest| && rest[i].0 == k;
        assert pairs[i + 1].0 == k;
      }
    }
  }

  /** The least key comes first, so two listings of one map start alike. */
  lemma SameFirst(a: seq<Pair>, b: seq<Pair>)
    requires a != [] && Ascending(a) && Ascending(b) && Contents(a) == Contents(b)
    ensures b != [] && !Less(b[0].0, a[0].0)
  {
    ContentsAt(a, a[0].0);
    ContentsAt(b, a[0].0);
    ContentsAt(a, b[0].0);
    ContentsAt(b, b[0].0);
    var i :| 0 <= i < |a| && a[i].0 == b[0].0;
    LessIsStrictOrder(b[0].0, a[0].0, b[0].0);
    assert i > 0 ==> Less(a[0].0, a[i].0);
  }

  lemma RestContents(pairs: seq<Pair>)
    requires pairs != [] && Ascending(pairs)
    ensures Contents(pairs[1..]) == Contents(pairs) - {pairs[0].0}
  {
    var rest := pairs[1..];
    assert pairs[0].0 !in Contents(rest) by {
      ContentsAt(rest, pairs[0].0);
      LessIsStrictOrder(pairs[0].0, [], []);
      assert forall i :: 0 <= i < |rest| ==> Less(pairs[0].0, rest[i].0);
    }
  }

  /** A map has one ascending listing. */
  lemma {:induction false} ListingUnique(a: seq<Pair>, b: seq<Pair>)
    requires Ascending(a) && Ascending(b) && Contents(a) == Contents(b)
    ensures a == b
  {
    if a == [] {
      ContentsAt(b, if b == [] then [] else b[0].0);
    } else {
      SameFirst(a, b);
      SameFirst(b, a);
      LessIsStrictOrder(a[0].0, b[0].0, []);
      ContentsAt(a, a[0].0);
      ContentsAt(b, a[0].0);
      RestContents(a);
      RestContents(b);
      ListingUnique(a[1..], b[1..]);
      assert a == [a[0]] + a[1..] && b == [b[0]] + b[1..];
    }
  }

  /** The string to sign identifies the parameters: equal strings exactly for equal maps. */
  lemma SignsTheMap(a: seq<Pair>, b: seq<Pair>)
    requires Ascending(a) && Ascending(b)
    ensures StringToSign(a) == StringToSign(b) <==> Contents(a) == Contents(b)
  {
    if StringToSign(a) == StringToSign(b) {
      StringToSignInjective(a, b);
    }
    if Contents(a) == Contents(b) {
      ListingUnique(a, b);
    }
  }
}
