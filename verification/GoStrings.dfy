/** The parts of Go's string library that schedules and stores rely on. */
module GoStrings {

  /** unicode.IsSpace. */
  predicate IsSpace(c: char) {
    var code := c as int;
    || 0x09 <= code <= 0x0d || code == 0x20 || code == 0x85 || code == 0xa0 || code == 0x1680
    || 0x2000 <= code <= 0x200a || code == 0x2028 || code == 0x2029 || code == 0x202f || code == 0x205f || code == 0x3000
  }

  lemma SpacesExactly(c: char)
    ensures IsSpace(c) <==> c as int in {9, 10, 11, 12, 13, 32, 0x85, 0xa0, 0x1680, 0x2000, 0x2001, 0x2002, 0x2003, 0x2004, 0x2005,
                                         0x2006, 0x2007, 0x2008, 0x2009, 0x200a, 0x2028, 0x2029, 0x202f, 0x205f, 0x3000}
  {
  }

  /** The leading characters up to the first space. */
  function FirstWord(s: string): (word: string)
    ensures word <= s && forall c | c in word :: !IsSpace(c)
    ensures |word| < |s| ==> IsSpace(s[|word|])
  {
    if s == "" || IsSpace(s[0]) then ""
    else
      var rest := FirstWord(s[1..]);
      assert [s[0]] + rest <= s by { assert s == [s[0]] + s[1..]; }
      [s[0]] + rest
  }

  /** strings.Fields: the maximal runs of characters that are not spaces. */
  function Fields(s: string): seq<string>
    decreases |s|
  {
    if s == "" then []
    else if IsSpace(s[0]) then Fields(s[1..])
    else [FirstWord(s)] + Fields(s[|FirstWord(s)|..])
  }

  predicate IsWord(word: string) {
    word != "" && forall c | c in word :: !IsSpace(c)
  }

  /** strings.Join with one blank between the words. */
  function JoinWords(words: seq<string>): string {
    if words == [] then "" else if |words| == 1 then words[0] else words[0] + (" " + JoinWords(words[1..]))
  }

  function TrimLeft(s: string): string {
    if s != "" && IsSpace(s[0]) then TrimLeft(s[1..]) else s
  }

  function TrimRight(s: string): string {
    if s != "" && IsSpace(s[|s| - 1]) then TrimRight(s[..|s| - 1]) else s
  }

  function TrimSpace(s: string): string {
    TrimRight(TrimLeft(s))
  }

  lemma {:induction false} TrimRightKeepsFront(s: string)
    ensures |TrimRight(s)| <= |s| && TrimRight(s) == s[..|TrimRight(s)|]
    ensures TrimRight(s) != "" ==> !IsSpace(TrimRight(s)[|TrimRight(s)| - 1])
  {
    if s != "" && IsSpace(s[|s| - 1]) {
      TrimRightKeepsFront(s[..|s| - 1]);
    }
  }

  lemma {:induction false} TrimLeftTrims(s: string)
    ensures TrimLeft(s) != "" ==> !IsSpace(TrimLeft(s)[0])
  {
    if s != "" && IsSpace(s[0]) {
      TrimLeftTrims(s[1..]);
    }
  }

  lemma TrimIsIdempotent(s: string)
    ensures TrimSpace(TrimSpace(s)) == TrimSpace(s)
  {
    TrimLeftTrims(s);
    TrimRightKeepsFront(TrimLeft(s));
  }

  /** Words separated by single blanks, with none at the ends. */
  function Normalize(s: string): string {
    JoinWords(Fields(s))
  }

  lemma {:induction false} FieldsAreWords(s: string)
    ensures forall word | word in Fields(s) :: IsWord(word)
    decreases |s|
  {
    if s != "" {
      FieldsAreWords(if IsSpace(s[0]) then s[1..] else s[|FirstWord(s)|..]);
    }
  }

  /** A word followed by nothing, or by a space, is the first word. */
  lemma {:induction false} FirstWordIs(word: string, rest: string)
    requires IsWord(word) && (rest == "" || IsSpace(rest[0]))
    ensures FirstWord(word + rest) == word
  {
    assert (word + rest)[1..] == word[1..] + rest;
    assert word == [word[0]] + word[1..];
    if |word| > 1 {
      FirstWordIs(word[1..], rest);
    } else {
      assert word[1..] + rest == rest;
    }
  }

  lemma {:induction false} FieldsOfJoin(words: seq<string>)
    requires forall word | word in words :: IsWord(word)
    ensures Fields(JoinWords(words)) == words
  {
    if words != [] {
      var first, joined := words[0], JoinWords(words);
      var rest := if |words| == 1 then "" else " " + JoinWords(words[1..]);
      assert joined == first + rest;
      FirstWordIs(first, rest);
      assert joined[0] == first[0] && joined[|first|..] == rest;
      FieldsOfJoin(words[1..]);
      assert words == [first] + words[1..];
      if |words| > 1 {
        assert rest[1..] == JoinWords(words[1..]);
      }
    }
  }

  lemma {:induction false} JoinHasNoOuterSpace(words: seq<string>)
    requires forall word | word in words :: IsWord(word)
    ensures words != [] ==> JoinWords(words) != "" && !IsSpace(JoinWords(words)[0])
    ensures words != [] ==> !IsSpace(JoinWords(words)[|JoinWords(words)| - 1])
  {
    if words != [] {
      var first := words[0];
      assert first in words && IsWord(first);
      assert first[0] in first && first[|first| - 1] in first;
      if |words| > 1 {
        JoinHasNoOuterSpace(words[1..]);
      }
    }
  }

  // Normalizing keeps the words and leaves nothing more to normalize or to trim.
  lemma NormalizeIsIdempotent(s: string)
    ensures Fields(Normalize(s)) == Fields(s)
    ensures Normalize(Normalize(s)) == Normalize(s) && TrimSpace(Normalize(s)) == Normalize(s)
  {
    FieldsAreWords(s);
    FieldsOfJoin(Fields(s));
    JoinHasNoOuterSpace(Fields(s));
  }

  // ---- Order ----

  /** Go's <= on strings, character by character. */
  predicate AtMost(a: string, b: string) {
    a == "" || (b != "" && (a[0] < b[0] || (a[0] == b[0] && AtMost(a[1..], b[1..]))))
  }

  lemma {:induction false} AtMostIsTotal(a: string, b: string)
    ensures AtMost(a, b) || AtMost(b, a)
    ensures AtMost(a, b) && AtMost(b, a) ==> a == b
  {
    if a != "" && b != "" {
      AtMostIsTotal(a[1..], b[1..]);
      assert a == [a[0]] + a[1..] && b == [b[0]] + b[1..];
    }
  }

  lemma {:induction false} AtMostIsTransitive(a: string, b: string, c: string)
    requires AtMost(a, b) && AtMost(b, c)
    ensures AtMost(a, c)
  {
    if a != "" {
      if a[0] == b[0] == c[0] {
        AtMostIsTransitive(a[1..], b[1..], c[1..]);
      }
    }
  }

  /** The strings first differ at i, where the first is smaller. */
  predicate SmallerAt(a: string, b: string, i: nat) {
    i < |a| && i < |b| && a[..i] == b[..i] && a[i] < b[i]
  }

  lemma SmallerFurther(a: string, b: string, i: nat)
    requires a != "" && b != "" && a[0] == b[0]
    ensures SmallerAt(a, b, i + 1) <==> SmallerAt(a[1..], b[1..], i)
    ensures !SmallerAt(a, b, 0)
  {
    if i < |a| - 1 && i < |b| - 1 {
      assert a[..i + 1] == [a[0]] + a[1..][..i] && b[..i + 1] == [b[0]] + b[1..][..i];
      assert a[1..][..i] == a[..i + 1][1..] && b[1..][..i] == b[..i + 1][1..];
    }
  }

  // One string is at most another if it is a prefix of it, or smaller where they first differ.
  lemma {:induction false} AtMostExactly(a: string, b: string)
    ensures AtMost(a, b) <==> a <= b || exists i :: SmallerAt(a, b, i)
  {
    if a != "" && b != "" {
      AtMostExactly(a[1..], b[1..]);
      assert a == [a[0]] + a[1..] && b == [b[0]] + b[1..];
      if a[0] == b[0] {
        if i: nat :| SmallerAt(a[1..], b[1..], i) {
          SmallerFurther(a, b, i);
        }
        if i: nat :| SmallerAt(a, b, i) {
          SmallerFurther(a, b, if i > 0 then i - 1 else 0);
        }
      } else if a[0] < b[0] {
        assert SmallerAt(a, b, 0);
      }
    }
  }
}
