/**
 Error texts without URL query strings: every word that holds a URL loses what
 follows its first '?'.
 */
module Redaction {
  import opened Prelude
  import opened Text

  const MARK := "?[redacted]"

  /** `split_inclusive(char::is_whitespace)`: words, each with the whitespace character that ends it. */
  function Pieces(text: string): seq<string> {
    if text == "" then []
    else
      var rest := Pieces(text[1..]);
      if IsWhitespace(text[0]) || rest == [] then [[text[0]]] + rest
      else [[text[0]] + rest[0]] + rest[1..]
  }

  function Concat(pieces: seq<string>): string {
    if pieces == [] then "" else pieces[0] + Concat(pieces[1..])
  }

  predicate SchemeAt(s: string, i: nat) {
    i + 3 <= |s| && s[i] == ':' && s[i + 1] == '/' && s[i + 2] == '/'
  }

  /** The word contains "://". */
  predicate HasScheme(s: string) {
    exists i :: 0 <= i < |s| && SchemeAt(s, i)
  }

  /** The whitespace character a piece ends with, if any. */
  function Ending(piece: string): string {
    if piece != "" && IsWhitespace(piece[|piece| - 1]) then [piece[|piece| - 1]] else ""
  }

  function RedactPiece(piece: string): string {
    if !HasScheme(piece) then piece
    else
      var q := Find(piece, '?');
      if q.None? then piece else piece[..q.value] + MARK + Ending(piece)
  }

  function RedactPieces(pieces: seq<string>): seq<string> {
    seq(|pieces|, i requires 0 <= i < |pieces| => RedactPiece(pieces[i]))
  }

  function Redact(text: string): string {
    Concat(RedactPieces(Pieces(text)))
  }

  method RedactPart(part: string) returns (kept: string)
    ensures kept == RedactPiece(part)
  {
    kept := part;
    var q := Find(part, '?');
    if HasScheme(part) && q.Some? {
      kept := part[..q.value] + MARK + Ending(part);
    }
  }

  method RedactUrlQueries(text: string) returns (out: string)
    ensures out == Redact(text)
  {
    out := "";
    var parts := Pieces(text);
    for i := 0 to |parts|
      invariant out + RedactedFrom(parts, i) == Redact(text)
    {
      OneMorePart(parts, i);
      var kept := RedactPart(parts[i]);
      assert (out + kept) + RedactedFrom(parts, i + 1) == out + (kept + RedactedFrom(parts, i + 1));
      out := out + kept;
    }
  }

  /** What the parts from `i` on still contribute. */
  ghost function RedactedFrom(parts: seq<string>, i: nat): string
    requires i <= |parts|
  {
    Concat(RedactPieces(parts[i..]))
  }

  lemma OneMorePart(parts: seq<string>, i: nat)
    requires i < |parts|
    ensures RedactedFrom(parts, i) == RedactPiece(parts[i]) + RedactedFrom(parts, i + 1)
  {
    var all, rest := RedactPieces(parts[i..]), RedactPieces(parts[i + 1..]);
    assert all[1..] == rest;
  }

  // ---- the shape of pieces ----

  /** A word: not empty, whitespace at most at its end. */
  predicate IsPiece(s: string) {
    s != "" && forall i :: 0 <= i < |s| - 1 ==> !IsWhitespace(s[i])
  }

  /** Pieces as a split yields them: all but the last end in whitespace. */
  predicate Split(pieces: seq<string>) {
    && (forall i :: 0 <= i < |pieces| ==> IsPiece(pieces[i]))
    && (forall i :: 0 <= i < |pieces| - 1 ==> Ending(pieces[i]) != "")
  }

  lemma {:induction false} PiecesSplit(text: string)
    ensures Split(Pieces(text)) && Concat(Pieces(text)) == text
  {
    if text != "" {
      var rest := Pieces(text[1..]);
      PiecesSplit(text[1..]);
      assert text == [text[0]] + text[1..];
      if !IsWhitespace(text[0]) && rest != [] {
        var first := [text[0]] + rest[0];
        assert Pieces(text)[1..] == rest[1..];
        assert Ending(first) == Ending(rest[0]);
        assert first + Concat(rest[1..]) == [text[0]] + Concat(rest);
      } else {
        assert Pieces(text)[1..] == rest;
      }
    }
  }

  lemma PieceSplitsOff(first: string, rest: string)
    requires IsPiece(first) && Ending(first) != ""
    ensures Pieces(first + rest) == [first] + Pieces(rest)
    decreases |first|
  {
    var text := first + rest;
    if |first| == 1 {
      assert first == [text[0]] && text[1..] == rest;
    } else {
      assert text[1..] == first[1..] + rest;
      assert !IsWhitespace(first[0]);
      forall i | 0 <= i < |first[1..]| - 1 ensures !IsWhitespace(first[1..][i]) {
        assert !IsWhitespace(first[i + 1]);
      }
      PieceSplitsOff(first[1..], rest);
      assert [first[0]] + first[1..] == first;
    }
  }

  lemma {:induction false} LastPiece(piece: string)
    requires IsPiece(piece)
    ensures Pieces(piece) == [piece]
  {
    assert piece == [piece[0]] + piece[1..];
    if |piece| == 1 {
      assert piece == [piece[0]];
      assert Pieces(piece) == [[piece[0]]] + Pieces(piece[1..]);
    } else {
      forall i | 0 <= i < |piece[1..]| - 1 ensures !IsWhitespace(piece[1..][i]) {
        assert !IsWhitespace(piece[i + 1]);
      }
      LastPiece(piece[1..]);
    }
  }

  /** A list of this shape is what its own concatenation splits into. */
  lemma {:induction false} SplitIsUnique(pieces: seq<string>)
    requires Split(pieces)
    ensures Pieces(Concat(pieces)) == pieces
  {
    if |pieces| == 1 {
      assert Concat(pieces) == pieces[0] && pieces == [pieces[0]];
      LastPiece(pieces[0]);
    } else if |pieces| > 1 {
      var rest := pieces[1..];
      assert Split(rest) by {
        assert forall i :: 0 <= i < |rest| ==> rest[i] == pieces[i + 1];
      }
      SplitIsUnique(rest);
      PieceSplitsOff(pieces[0], Concat(rest));
    }
  }

  // ---- redaction keeps the shape ----

  lemma RedactPieceShape(piece: string)
    requires IsPiece(piece)
    ensures IsPiece(RedactPiece(piece)) && Ending(RedactPiece(piece)) == Ending(piece)
  {
    var q := Find(piece, '?');
    if HasScheme(piece) && q.Some? {
      var r := RedactPiece(piece);
      assert forall i :: 0 <= i < |MARK| ==> !IsWhitespace(MARK[i]);
      assert r[q.value..q.value + |MARK|] == MARK;
      forall i | 0 <= i < |r| - 1 ensures !IsWhitespace(r[i]) {
        if i < q.value {
          assert r[i] == piece[i];
        } else if i < q.value + |MARK| {
          assert r[i] == MARK[i - q.value];
        }
      }
      if Ending(piece) == "" {
        assert r[|r| - 1] == MARK[|MARK| - 1];
      }
    }
  }

  /** Redacting acts word by word: the words of the result are the redacted words, whitespace untouched. */
  lemma StructurePreserved(text: string)
    ensures Pieces(Redact(text)) == RedactPieces(Pieces(text))
    ensures forall i :: 0 <= i < |Pieces(text)| ==> Ending(RedactPieces(Pieces(text))[i]) == Ending(Pieces(text)[i])
    ensures forall i :: 0 <= i < |Pieces(text)| && !HasScheme(Pieces(text)[i]) ==>
        Pieces(Redact(text))[i] == Pieces(text)[i]
  {
    var pieces := Pieces(text);
    var redacted := RedactPieces(pieces);
    PiecesSplit(text);
    forall i | 0 <= i < |pieces| ensures IsPiece(redacted[i]) && Ending(redacted[i]) == Ending(pieces[i]) {
      RedactPieceShape(pieces[i]);
    }
    SplitIsUnique(redacted);
  }

  lemma RedactPieceIdempotent(piece: string)
    requires IsPiece(piece)
    ensures RedactPiece(RedactPiece(piece)) == RedactPiece(piece)
  {
    var q := Find(piece, '?');
    if HasScheme(piece) && q.Some? {
      RedactPieceShape(piece);
      var r := RedactPiece(piece);
      assert r[..q.value] == piece[..q.value];
      assert r[q.value] == MARK[0];
      var q2 := Find(r, '?');
      assert q2.Some?;
      assert forall j :: 0 <= j < q.value ==> r[j] == piece[j];
      assert q2 == q;
    }
  }

  /** Redacting twice is redacting once. */
  lemma RedactIsIdempotent(text: string)
    ensures Redact(Redact(text)) == Redact(text)
  {
    StructurePreserved(text);
    PiecesSplit(text);
    var pieces := Pieces(text);
    forall i | 0 <= i < |pieces| ensures RedactPiece(RedactPieces(pieces)[i]) == RedactPieces(pieces)[i] {
      RedactPieceIdempotent(pieces[i]);
    }
    assert RedactPieces(RedactPieces(pieces)) == RedactPieces(pieces);
  }

  // ---- one word, written out ----

  ghost predicate HoldsUrl(word: string) {
    exists a, b :: word == a + "://" + b
  }

  lemma SchemeIff(s: string)
    ensures HasScheme(s) <==> HoldsUrl(s)
  {
    if HasScheme(s) {
      var i :| 0 <= i < |s| && SchemeAt(s, i);
      assert s == s[..i] + "://" + s[i + 3..];
    }
    if HoldsUrl(s) {
      var a, b :| s == a + "://" + b;
      assert SchemeAt(s, |a|);
    }
  }

  lemma OneWord(word: string)
    requires IsPiece(word)
    ensures Redact(word) == RedactPiece(word)
  {
    LastPiece(word);
    var redacted := RedactPieces([word]);
    assert redacted == [RedactPiece(word)] && redacted[1..] == [];
    assert Concat(redacted) == redacted[0] + Concat([]) && redacted[0] + "" == redacted[0];
  }

  lemma FirstMark(before: string, after: string)
    requires '?' !in before
    ensures Find(before + "?" + after, '?') == Some(|before|) && (before + "?" + after)[..|before|] == before
  {
    var word := before + "?" + after;
    assert word[|before|] == '?' && forall j :: 0 <= j < |before| ==> word[j] == before[j];
  }

  /** A word that holds "://" loses what follows its first question mark; one that does not is kept as it is. */
  lemma WordIsCut(before: string, query: string)
    requires '?' !in before && IsPiece(before + "?" + query)
    ensures var word := before + "?" + query;
            Redact(word) == if HoldsUrl(word) then before + "?[redacted]" + Ending(word) else word
  {
    var word := before + "?" + query;
    OneWord(word);
    SchemeIff(word);
    FirstMark(before, query);
  }

  // ---- nothing of a query gets through ----

  /** Two words that agree, or hold URLs that differ only after their first '?'. */
  predicate SameUpToQuery(a: string, b: string) {
    || a == b
    || (&& HasScheme(a) && HasScheme(b)
        && Find(a, '?').Some? && Find(a, '?') == Find(b, '?')
        && a[..Find(a, '?').value] == b[..Find(b, '?').value]
        && Ending(a) == Ending(b))
  }

  /** Texts whose words differ only inside URL queries redact to the same text. */
  lemma QueriesDoNotInterfere(text1: string, text2: string)
    requires |Pieces(text1)| == |Pieces(text2)|
    requires forall i :: 0 <= i < |Pieces(text1)| ==> SameUpToQuery(Pieces(text1)[i], Pieces(text2)[i])
    ensures Redact(text1) == Redact(text2)
  {
    assert RedactPieces(Pieces(text1)) == RedactPieces(Pieces(text2)) by {
      forall i | 0 <= i < |Pieces(text1)| ensures RedactPiece(Pieces(text1)[i]) == RedactPiece(Pieces(text2)[i]) {
        assert SameUpToQuery(Pieces(text1)[i], Pieces(text2)[i]);
      }
    }
  }

  /**
   What redaction keeps of a word it cuts, or that already looks cut: the part before its first '?'
   and its ending.
   */
  function Stem(word: string): Option<(string, string)> {
    var q := Find(word, '?');
    if q.None? then None
    else if HasScheme(word) || word == word[..q.value] + MARK + Ending(word) then Some((word[..q.value], Ending(word)))
    else None
  }

  lemma StemIsKept(word: string)
    ensures RedactPiece(word) == if Stem(word).Some? then Stem(word).value.0 + MARK + Stem(word).value.1 else word
    ensures Stem(word).Some? ==> !Has(Stem(word).value.0, '?') && Ending(word) == Stem(word).value.1
  {
  }

  /** A cut word shows its stem. */
  lemma StemOfCut(before: string, ending: string)
    requires !Has(before, '?') && (ending == "" || (|ending| == 1 && IsWhitespace(ending[0])))
    ensures Stem(before + MARK + ending) == Some((before, ending))
  {
    var word := before + MARK + ending;
    var q := Find(word, '?');
    assert word[|before|] == MARK[0];
    assert forall j :: 0 <= j < |before| ==> word[j] == before[j];
    assert q == Some(|before|) && word[..|before|] == before;
    if ending == "" {
      assert word[|word| - 1] == MARK[|MARK| - 1];
    }
    assert Ending(word) == ending;
  }

  /** The kernel on words: equal, or with the same stem. */
  predicate RedactAlike(a: string, b: string) {
    a == b || (Stem(a).Some? && Stem(a) == Stem(b))
  }

  lemma WordKernel(a: string, b: string)
    ensures RedactPiece(a) == RedactPiece(b) <==> RedactAlike(a, b)
  {
    StemIsKept(a);
    StemIsKept(b);
    if Stem(a).Some? {
      StemOfCut(Stem(a).value.0, Stem(a).value.1);
    }
    if Stem(b).Some? {
      StemOfCut(Stem(b).value.0, Stem(b).value.1);
    }
  }

  lemma WordsKernel(a: seq<string>, b: seq<string>)
    ensures RedactPieces(a) == RedactPieces(b) <==>
      |a| == |b| && forall i :: 0 <= i < |a| ==> RedactAlike(a[i], b[i])
  {
    var x, y := RedactPieces(a), RedactPieces(b);
    forall i | 0 <= i < |a| && i < |b| ensures x[i] == y[i] <==> RedactAlike(a[i], b[i]) {
      WordKernel(a[i], b[i]);
    }
    if x == y {
      assert |x| == |a| && |y| == |b|;
      assert forall i :: 0 <= i < |a| ==> x[i] == y[i];
    }
  }

  /** Two texts have the same redaction exactly when word by word they are equal or have the same stem. */
  lemma RedactionKernel(text1: string, text2: string)
    ensures Redact(text1) == Redact(text2) <==>
      && |Pieces(text1)| == |Pieces(text2)|
      && forall i :: 0 <= i < |Pieces(text1)| ==> RedactAlike(Pieces(text1)[i], Pieces(text2)[i])
  {
    StructurePreserved(text1);
    StructurePreserved(text2);
    WordsKernel(Pieces(text1), Pieces(text2));
  }

  /** In the result, a word that holds a URL has nothing after its first '?' but the mark. */
  lemma NoQuerySurvives(text: string, i: nat)
    requires i < |Pieces(Redact(text))|
    ensures var r := Pieces(Redact(text))[i];
            HasScheme(r) && Find(r, '?').Some? ==> r == r[..Find(r, '?').value] + MARK + Ending(r)
  {
    StructurePreserved(text);
    PiecesSplit(text);
    RedactPieceIdempotent(Pieces(text)[i]);
  }
}
