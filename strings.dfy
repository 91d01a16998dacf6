/**
  The few Python `str` operations the pipeline relies on: `strip()`, `lower()`,
  `split()` with no argument, `" ".join(...)` and the `in` substring test.
 */
module Strings {

  /** Python's `str.isspace()` for a single character (the full Unicode list). */
  predicate IsSpace(c: char) {
    var n := c as int;
    || 9 <= n <= 13
    || 0x1C <= n <= 0x20
    || n == 0x85 || n == 0xA0 || n == 0x1680
    || 0x2000 <= n <= 0x200A
    || n == 0x2028 || n == 0x2029 || n == 0x202F || n == 0x205F || n == 0x3000
  }

  predicate AllSpace(s: string) {
    forall i :: 0 <= i < |s| ==> IsSpace(s[i])
  }

  predicate NoSpace(s: string) {
    forall i :: 0 <= i < |s| ==> !IsSpace(s[i])
  }

  /** `s.lstrip()` */
  function StripStart(s: string): string {
    if s != [] && IsSpace(s[0]) then StripStart(s[1..]) else s
  }

  /** `s.rstrip()` */
  function StripEnd(s: string): string {
    if s != [] && IsSpace(s[|s| - 1]) then StripEnd(s[..|s| - 1]) else s
  }

  /** `s.lstrip()` drops exactly the leading whitespace. */
  lemma {:induction false} StripStartMeaning(s: string)
    ensures var r := StripStart(s);
      && |r| <= |s| && r == s[|s| - |r|..]
      && AllSpace(s[..|s| - |r|])
      && (r != [] ==> !IsSpace(r[0]))
      && (r == [] <==> AllSpace(s))
  {
    if s != [] && IsSpace(s[0]) {
      StripStartMeaning(s[1..]);
      var r := StripStart(s[1..]);
      assert s[1..][|s| - 1 - |r|..] == s[|s| - |r|..];
      assert forall i :: 0 < i < |s| ==> s[i] == s[1..][i - 1];
      assert s[..|s| - |r|] == [s[0]] + s[1..][..|s| - 1 - |r|];
    }
  }

  /** `s.rstrip()` drops exactly the trailing whitespace. */
  lemma {:induction false} StripEndMeaning(s: string)
    ensures var r := StripEnd(s);
      && |r| <= |s| && r == s[..|r|]
      && AllSpace(s[|r|..])
      && (r != [] ==> !IsSpace(r[|r| - 1]))
      && (r == [] <==> AllSpace(s))
  {
    if s != [] && IsSpace(s[|s| - 1]) {
      var p := s[..|s| - 1];
      StripEndMeaning(p);
      var r := StripEnd(p);
      assert p[..|r|] == s[..|r|];
      assert forall i :: 0 <= i < |s| - 1 ==> s[i] == p[i];
      assert s[|r|..] == p[|r|..] + [s[|s| - 1]];
    }
  }

  /** `s[i..j]` is `s` less a whitespace prefix and a whitespace suffix. */
  predicate Trims(s: string, i: int, j: int) {
    0 <= i <= j <= |s| && AllSpace(s[..i]) && AllSpace(s[j..])
  }

  /** `s` neither starts nor ends with whitespace. */
  predicate Tidy(s: string) {
    s != [] ==> !IsSpace(s[0]) && !IsSpace(s[|s| - 1])
  }

  /** `s.strip()` */
  function Strip(s: string): string {
    StripEnd(StripStart(s))
  }

  /**
    `s.strip()` is `s` without a whitespace prefix and a whitespace suffix,
    neither starts nor ends with whitespace, and is empty exactly when `s`
    is whitespace only.
   */
  lemma StripMeaning(s: string)
    ensures var r := Strip(s);
      && (exists i, j :: Trims(s, i, j) && r == s[i..j])
      && Tidy(r)
      && (r == [] <==> AllSpace(s))
  {
    StripSlice(s);
    var a := StripStart(s);
    var r := StripEnd(a);
    StripStartMeaning(s);
    StripEndMeaning(a);
    if a != [] {
      assert !IsSpace(a[0]);
    }
    if r != [] {
      assert r[0] == a[0];
    }
  }

  lemma StripSlice(s: string)
    ensures exists i, j :: Trims(s, i, j) && StripEnd(StripStart(s)) == s[i..j]
  {
    StripStartMeaning(s);
    StripEndMeaning(StripStart(s));
    var a := StripStart(s);
    var r := StripEnd(a);
    var i := |s| - |a|;
    var j := i + |r|;
    assert a == s[i..];
    assert r == a[..|r|];
    assert r == s[i..j];
    assert s[j..] == a[|r|..];
    assert Trims(s, i, j);
  }

  /** Text that neither starts nor ends with whitespace is its own `strip()`. */
  lemma StripTidy(s: string)
    requires Tidy(s)
    ensures Strip(s) == s
  {
    assert StripStart(s) == s;
  }

  /** ASCII case mapping of one character. */
  function LowerChar(c: char): char {
    if 'A' <= c <= 'Z' then (c as int + 32) as char else c
  }

  /** `s.lower()`, restricted to ASCII letters. */
  function Lower(s: string): (r: string)
    ensures |r| == |s|
    ensures forall i :: 0 <= i < |s| ==> r[i] == LowerChar(s[i])
  {
    seq(|s|, i requires 0 <= i < |s| => LowerChar(s[i]))
  }

  predicate NoUpper(s: string) {
    forall i :: 0 <= i < |s| ==> !('A' <= s[i] <= 'Z')
  }

  /** Text without upper-case letters is its own `lower()`. */
  lemma LowerNoUpper(s: string)
    requires NoUpper(s)
    ensures Lower(s) == s
  {
  }

  /** Case mapping never turns whitespace into text or text into whitespace. */
  lemma LowerKeepsSpace(s: string)
    ensures AllSpace(Lower(s)) <==> AllSpace(s)
  {
    var r := Lower(s);
    forall i | 0 <= i < |s| ensures IsSpace(r[i]) == IsSpace(s[i]) {
      if 'A' <= s[i] <= 'Z' {
        assert 'a' <= r[i] <= 'z';
      }
    }
  }

  /** Python's `sub in s`. */
  predicate Contains(s: string, sub: string)
    decreases |s|
  {
    sub <= s || (s != [] && Contains(s[1..], sub))
  }

  /** An occurrence of `sub` at position `i` of `s` is found by `Contains`. */
  lemma {:induction false} ContainsAt(s: string, sub: string, i: nat)
    requires i <= |s| && sub <= s[i..]
    ensures Contains(s, sub)
    decreases i
  {
    if i > 0 {
      assert s[1..][i - 1..] == s[i..];
      ContainsAt(s[1..], sub, i - 1);
    }
  }

  /** A character of `sub` that `s` lacks keeps `sub` out of `s`. */
  lemma {:induction false} MissingCharNotContained(s: string, sub: string, c: char)
    requires c in sub && c !in s
    ensures !Contains(s, sub)
    decreases |s|
  {
    if s != [] {
      MissingCharNotContained(s[1..], sub, c);
    }
  }

  /** Lower-casing brings in a lower-case letter only from that letter or its capital. */
  lemma LowerLacks(s: string, c: char)
    requires 'a' <= c <= 'z' && c !in s && (c as int - 32) as char !in s
    ensures c !in Lower(s)
  {
    forall i | 0 <= i < |s| ensures Lower(s)[i] != c {
      assert s[i] != c && s[i] != (c as int - 32) as char;
    }
  }

  /** The longest prefix of `s` that holds no whitespace. */
  function Word(s: string): (w: string)
    ensures w <= s && NoSpace(w)
    ensures |w| < |s| ==> IsSpace(s[|w|])
  {
    if s == [] || IsSpace(s[0]) then [] else [s[0]] + Word(s[1..])
  }

  /** `s.split()`: the maximal runs of non-whitespace characters, in order. */
  function Split(s: string): (ws: seq<string>)
    ensures forall i :: 0 <= i < |ws| ==> ws[i] != [] && NoSpace(ws[i])
    ensures ws == [] <==> AllSpace(s)
    decreases |s|
  {
    if s == [] then []
    else if IsSpace(s[0]) then
      assert AllSpace(s) <==> AllSpace(s[1..]) by {
        assert forall i :: 0 < i < |s| ==> s[i] == s[1..][i - 1];
      }
      Split(s[1..])
    else
      var w := Word(s);
      [w] + Split(s[|w|..])
  }

  /** A run of non-whitespace that ends the string or is followed by whitespace is the word `Word` takes. */
  lemma {:induction false} WordPrefix(w: string, rest: string)
    requires NoSpace(w) && (rest == [] || IsSpace(rest[0]))
    ensures Word(w + rest) == w
  {
    if w != [] {
      assert (w + rest)[1..] == w[1..] + rest;
      WordPrefix(w[1..], rest);
    }
  }

  /** A single word splits into itself. */
  lemma SplitWord(w: string)
    requires w != [] && NoSpace(w)
    ensures Split(w) == [w]
  {
    WordPrefix(w, []);
    assert w + [] == w;
  }

  /** A word, one space and any more text split into the word and the split of the rest. */
  lemma SplitCons(w: string, rest: string)
    requires w != [] && NoSpace(w)
    ensures Split(w + " " + rest) == [w] + Split(rest)
  {
    var s := w + " " + rest;
    WordPrefix(w, " " + rest);
    assert s == w + (" " + rest);
    assert s[|w|..] == " " + rest;
    assert (" " + rest)[1..] == rest;
  }

  /** Words joined by single spaces split back into the same words. */
  lemma {:induction false} SplitJoin(ws: seq<string>)
    requires forall i :: 0 <= i < |ws| ==> ws[i] != [] && NoSpace(ws[i])
    ensures Split(Join(" ", ws)) == ws
  {
    if |ws| == 1 {
      SplitWord(ws[0]);
    } else if |ws| > 1 {
      SplitJoin(ws[1..]);
      SplitCons(ws[0], Join(" ", ws[1..]));
      assert ws == [ws[0]] + ws[1..];
    }
  }

  /** Words joined by single spaces neither start nor end with whitespace. */
  lemma {:induction false} JoinTidy(ws: seq<string>)
    requires forall i :: 0 <= i < |ws| ==> ws[i] != [] && NoSpace(ws[i])
    ensures Tidy(Join(" ", ws))
  {
    if |ws| > 1 {
      JoinTidy(ws[1..]);
      var r := Join(" ", ws[1..]);
      assert Join(" ", ws) == ws[0] + " " + r;
      assert (ws[0] + " " + r)[|ws[0] + " " + r| - 1] == r[|r| - 1];
    }
  }

  /** Words joined by single spaces are already normalised. */
  lemma NormalizeJoin(ws: seq<string>)
    requires forall i :: 0 <= i < |ws| ==> ws[i] != [] && NoSpace(ws[i])
    ensures Normalize(Join(" ", ws)) == Join(" ", ws)
  {
    SplitJoin(ws);
  }

  /** `sep.join(ws)` */
  function Join(sep: string, ws: seq<string>): (r: string)
    ensures ws != [] ==> ws[0] <= r
    ensures ws == [] ==> r == []
  {
    if ws == [] then []
    else if |ws| == 1 then ws[0]
    else ws[0] + sep + Join(sep, ws[1..])
  }

  /** `" ".join(s.split())`: runs of whitespace collapsed to one space, ends trimmed. */
  function Normalize(s: string): (r: string)
    ensures r == [] <==> AllSpace(s)
  {
    Join(" ", Split(s))
  }
}
