/** Splitting, joining and trimming of text, as the standard library does it. */
module Text {
  import opened Prelude

  /** The Unicode White_Space property. */
  predicate IsWhitespace(c: char) {
    || '\t' <= c <= '\r' || c == ' ' || c == '\U{0085}' || c == '\U{00A0}' || c == '\U{1680}'
    || '\U{2000}' <= c <= '\U{200A}' || c == '\U{2028}' || c == '\U{2029}' || c == '\U{202F}'
    || c == '\U{205F}' || c == '\U{3000}'
  }

  function TrimStart(s: string): (r: string)
    ensures |r| <= |s| && (|r| == |s| ==> r == s)
  {
    if s != "" && IsWhitespace(s[0]) then TrimStart(s[1..]) else s
  }

  function TrimEnd(s: string): (r: string)
    ensures |r| <= |s| && (|r| == |s| ==> r == s)
  {
    if s != "" && IsWhitespace(s[|s| - 1]) then TrimEnd(s[..|s| - 1]) else s
  }

  function Trim(s: string): string {
    TrimEnd(TrimStart(s))
  }

  lemma {:induction false} TrimEndAfter(c: char, s: string)
    requires !IsWhitespace(c)
    ensures TrimEnd([c] + s) == [c] + TrimEnd(s)
  {
    var whole := [c] + s;
    if s != "" {
      assert whole[|whole| - 1] == s[|s| - 1];
      if IsWhitespace(s[|s| - 1]) {
        TrimEndAfter(c, s[..|s| - 1]);
        assert whole[..|whole| - 1] == [c] + s[..|s| - 1];
      }
    }
  }

  predicate AllWhitespace(s: string) {
    forall i :: 0 <= i < |s| ==> IsWhitespace(s[i])
  }

  /** Empty, or with something other than white space at both ends. */
  predicate Unpadded(s: string) {
    s != "" ==> !IsWhitespace(s[0]) && !IsWhitespace(s[|s| - 1])
  }

  lemma {:induction false} TrimStartDrops(a: string, s: string)
    requires AllWhitespace(a) && (s != "" ==> !IsWhitespace(s[0]))
    ensures TrimStart(a + s) == s
  {
    if a == "" {
      assert a + s == s;
    } else {
      assert (a + s)[1..] == a[1..] + s;
      TrimStartDrops(a[1..], s);
    }
  }

  lemma {:induction false} TrimEndDrops(s: string, b: string)
    requires AllWhitespace(b) && (s != "" ==> !IsWhitespace(s[|s| - 1]))
    ensures TrimEnd(s + b) == s
  {
    if b == "" {
      assert s + b == s;
    } else {
      assert (s + b)[..|s + b| - 1] == s + b[..|b| - 1];
      TrimEndDrops(s, b[..|b| - 1]);
    }
  }

  /** Trimming removes the white space around a text and nothing else. */
  lemma TrimIs(a: string, s: string, b: string)
    requires AllWhitespace(a) && AllWhitespace(b) && Unpadded(s)
    ensures Trim(a + s + b) == s
  {
    if s == "" {
      assert a + s + b == a + b;
      assert AllWhitespace(a + b);
      TrimStartDrops(a + b, "");
      assert (a + b) + "" == a + b;
    } else {
      assert a + s + b == a + (s + b);
      TrimStartDrops(a, s + b);
      TrimEndDrops(s, b);
    }
  }

  lemma {:induction false} TrimStartStops(s: string)
    ensures TrimStart(s) != "" ==> !IsWhitespace(TrimStart(s)[0])
  {
    if s != "" && IsWhitespace(s[0]) {
      TrimStartStops(s[1..]);
    }
  }

  lemma {:induction false} TrimEndStops(s: string)
    ensures TrimEnd(s) <= s && (TrimEnd(s) != "" ==> !IsWhitespace(TrimEnd(s)[|TrimEnd(s)| - 1]))
  {
    if s != "" && IsWhitespace(s[|s| - 1]) {
      TrimEndStops(s[..|s| - 1]);
    }
  }

  lemma TrimBothEnds(s: string)
    ensures Unpadded(Trim(s))
  {
    TrimStartStops(s);
    TrimEndStops(TrimStart(s));
  }

  lemma TrimTwice(s: string)
    ensures Trim(Trim(s)) == Trim(s)
  {
    TrimBothEnds(s);
    TrimIs("", Trim(s), "");
    assert "" + Trim(s) + "" == Trim(s);
  }

  predicate Has<T(==)>(s: seq<T>, c: T) {
    exists i :: 0 <= i < |s| && s[i] == c
  }

  function SplitOn<T(==)>(s: seq<T>, separator: T): (parts: seq<seq<T>>)
    ensures parts != []
  {
    if s == [] then [[]]
    else
      var rest := SplitOn(s[1..], separator);
      if s[0] == separator then [[]] + rest else [[s[0]] + rest[0]] + rest[1..]
  }

  function Join<T>(parts: seq<seq<T>>, separator: T): seq<T> {
    if |parts| == 0 then []
    else if |parts| == 1 then parts[0]
    else parts[0] + [separator] + Join(parts[1..], separator)
  }

  lemma {:induction false} SplitPrefix<T>(part: seq<T>, rest: seq<T>, separator: T)
    requires !Has(part, separator)
    ensures SplitOn(part, separator) == [part]
    ensures SplitOn(part + [separator] + rest, separator) == [part] + SplitOn(rest, separator)
  {
    var whole := part + [separator] + rest;
    if part == [] {
      assert whole[1..] == rest;
    } else {
      assert part[0] != separator;
      forall i | 0 <= i < |part[1..]| ensures part[1..][i] != separator {
        assert part[i + 1] != separator;
      }
      SplitPrefix(part[1..], rest, separator);
      assert whole[1..] == part[1..] + [separator] + rest;
      assert [part[0]] + part[1..] == part;
    }
  }

  /** Splitting undoes joining when no part contains the separator. */
  lemma {:induction false} SplitUndoesJoin<T>(parts: seq<seq<T>>, separator: T)
    requires parts != [] && forall i :: 0 <= i < |parts| ==> !Has(parts[i], separator)
    ensures SplitOn(Join(parts, separator), separator) == parts
  {
    if |parts| == 1 {
      SplitPrefix(parts[0], [], separator);
    } else {
      var rest := parts[1..];
      forall i | 0 <= i < |rest| ensures !Has(rest[i], separator) {
        assert rest[i] == parts[i + 1];
      }
      SplitUndoesJoin(rest, separator);
      SplitPrefix(parts[0], Join(rest, separator), separator);
    }
  }

  /** The first position of `c`, if any. */
  function Find<T(==)>(s: seq<T>, c: T): (r: Option<nat>)
    ensures r.None? <==> !Has(s, c)
    ensures r.Some? ==> r.value < |s| && s[r.value] == c && forall j :: 0 <= j < r.value ==> s[j] != c
  {
    if s == [] then None
    else if s[0] == c then Some(0)
    else
      var r := Find(s[1..], c);
      assert forall j :: 0 <= j < |s[1..]| ==> s[1..][j] == s[j + 1];
      assert r.None? ==> forall j :: 0 <= j < |s| ==> s[j] != c by {
        if r.None? {
          forall j | 0 <= j < |s| ensures s[j] != c {
            if j > 0 {
              assert s[1..][j - 1] != c;
            }
          }
        }
      }
      assert r.Some? ==> forall j :: 0 <= j < r.value + 1 ==> s[j] != c by {
        if r.Some? {
          forall j | 0 <= j < r.value + 1 ensures s[j] != c {
            if j > 0 {
              assert s[1..][j - 1] != c;
            }
          }
        }
      }
      if r.Some? then Some(r.value + 1) else None
  }
}
