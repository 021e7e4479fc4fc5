/**
 * Text helpers shared by the course display and search code: splitting a string into words the way
 * Ruby's String#split does with no argument, decimal text of integers, and removal of spaces.
 */
module Text {
  import opened Wrappers

  /** ASCII whitespace, as Ruby's awk-style split understands it (space, \t, \n, \v, \f, \r). */
  predicate IsSpace(c: char) {
    c == ' ' || c == '\t' || c == '\n' || c == '\U{000B}' || c == '\U{000C}' || c == '\r'
  }

  /** A word: a non-empty run of non-whitespace characters. */
  predicate IsWord(w: string) {
    w != [] && forall i :: 0 <= i < |w| ==> !IsSpace(w[i])
  }

  /** True when `s` contains no whitespace (the empty string included). */
  predicate NoSpace(s: string) {
    forall i :: 0 <= i < |s| ==> !IsSpace(s[i])
  }

  /**
   * The words of `s`, where `current` holds the characters of a word already begun: a whitespace
   * character ends the current word, and the end of the text ends the last one.
   */
  function WordsFrom(s: string, current: string): seq<string>
    decreases |s|
  {
    if s == [] then
      if current == [] then [] else [current]
    else if IsSpace(s[0]) then
      if current == [] then WordsFrom(s[1..], []) else [current] + WordsFrom(s[1..], [])
    else
      WordsFrom(s[1..], current + [s[0]])
  }

  /** The whitespace-separated words of `s`: leading, trailing and repeated whitespace produce no word. */
  function Words(s: string): seq<string> {
    WordsFrom(s, [])
  }

  lemma {:induction false} WordsFromAreWords(s: string, current: string)
    requires NoSpace(current)
    ensures forall i :: 0 <= i < |WordsFrom(s, current)| ==> IsWord(WordsFrom(s, current)[i])
    decreases |s|
  {
    if s != [] {
      if IsSpace(s[0]) {
        WordsFromAreWords(s[1..], []);
      } else {
        WordsFromAreWords(s[1..], current + [s[0]]);
      }
    }
  }

  /** Every piece `Words` produces is a word. */
  lemma WordsAreWords(s: string)
    ensures forall i :: 0 <= i < |Words(s)| ==> IsWord(Words(s)[i])
  {
    WordsFromAreWords(s, []);
  }

  /** Words joined by single spaces; the reference against which `Words` is checked. */
  function JoinWords(ws: seq<string>): string {
    if ws == [] then ""
    else if |ws| == 1 then ws[0]
    else ws[0] + " " + JoinWords(ws[1..])
  }

  /** Characters without whitespace extend the word already begun. */
  lemma {:induction false} WordsFromAppend(w: string, rest: string, current: string)
    requires NoSpace(w)
    ensures WordsFrom(w + rest, current) == WordsFrom(rest, current + w)
    decreases |w|
  {
    if w == [] {
      assert w + rest == rest && current + w == current;
    } else {
      assert (w + rest)[1..] == w[1..] + rest;
      WordsFromAppend(w[1..], rest, current + [w[0]]);
      assert current + [w[0]] + w[1..] == current + w;
    }
  }

  /** Splitting words joined by spaces gives back exactly those words. */
  lemma {:induction false} WordsOfJoinWords(ws: seq<string>)
    requires forall i :: 0 <= i < |ws| ==> IsWord(ws[i])
    ensures Words(JoinWords(ws)) == ws
    decreases |ws|
  {
    if ws == [] {
    } else if |ws| == 1 {
      WordsFromAppend(ws[0], "", []);
      assert ws[0] + "" == ws[0] && [] + ws[0] == ws[0];
    } else {
      var rest := JoinWords(ws[1..]);
      assert ws[0] + " " + rest == ws[0] + ([' '] + rest);
      WordsFromAppend(ws[0], [' '] + rest, []);
      assert [] + ws[0] == ws[0];
      assert ([' '] + rest)[1..] == rest;
      WordsOfJoinWords(ws[1..]);
    }
  }

  /** True when every character of `s` is whitespace (the empty string included). */
  predicate AllSpace(s: string) {
    forall i :: 0 <= i < |s| ==> IsSpace(s[i])
  }

  /** Whitespace before any word has begun produces nothing. */
  lemma {:induction false} WordsFromSkipsSpaces(sep: string, rest: string)
    requires AllSpace(sep)
    ensures WordsFrom(sep + rest, []) == WordsFrom(rest, [])
    decreases |sep|
  {
    if sep == [] {
      assert sep + rest == rest;
    } else {
      assert (sep + rest)[1..] == sep[1..] + rest;
      assert IsSpace((sep + rest)[0]);
      WordsFromSkipsSpaces(sep[1..], rest);
    }
  }

  /** A text of whitespace only has no words. */
  lemma WordsOfSpaces(sep: string)
    requires AllSpace(sep)
    ensures Words(sep) == []
  {
    WordsFromSkipsSpaces(sep, []);
    assert sep + [] == sep;
  }

  /**
   * Leading whitespace, then a word ended by whitespace or by the end of the text: the word is the
   * first one, and the rest of the text gives the others.
   */
  lemma WordsOfSpacedWord(sep: string, w: string, rest: string)
    requires AllSpace(sep) && IsWord(w) && (rest == [] || IsSpace(rest[0]))
    ensures Words(sep + w + rest) == [w] + Words(rest)
  {
    assert sep + w + rest == sep + (w + rest);
    WordsFromSkipsSpaces(sep, w + rest);
    WordsFromAppend(w, rest, []);
    assert [] + w == w;
  }

  /** A single word splits into itself. */
  lemma WordsOfWord(a: string)
    requires IsWord(a)
    ensures Words(a) == [a]
  {
    WordsOfJoinWords([a]);
  }

  /** Two words separated by one space split into those two words. */
  lemma WordsOfPair(s: string, a: string, b: string)
    requires IsWord(a) && IsWord(b) && s == a + " " + b
    ensures Words(s) == [a, b]
  {
    WordsOfJoinWords([a, b]);
    assert [a, b][1..] == [b];
  }

  // ---- decimal text ----

  predicate IsDigit(c: char) {
    '0' <= c <= '9'
  }

  predicate AllDigits(s: string) {
    forall i :: 0 <= i < |s| ==> IsDigit(s[i])
  }

  function DigitChar(d: nat): (c: char)
    requires d < 10
    ensures IsDigit(c) && c as int - '0' as int == d
  {
    ('0' as int + d) as char
  }

  /** Decimal text of a natural number, most significant digit first, without leading zeros. */
  function NatToString(n: nat): (s: string)
    ensures |s| >= 1 && AllDigits(s)
    ensures s[0] == '0' ==> n == 0 && s == "0"
  {
    if n < 10 then [DigitChar(n)] else NatToString(n / 10) + [DigitChar(n % 10)]
  }

  /** Decimal text of an integer, with a leading '-' when negative (Ruby's Integer#to_s). */
  function IntToString(n: int): (s: string)
    ensures |s| >= 1
    ensures forall i :: 0 <= i < |s| ==> IsDigit(s[i]) || (i == 0 && s[i] == '-')
    ensures s[0] == '0' ==> s == "0"
    ensures s[0] == '-' ==> |s| >= 2 && s[1] != '0'
  {
    if n < 0 then "-" + NatToString(-n) else NatToString(n)
  }

  /** The value of a string of decimal digits. */
  function DigitsValue(s: string): nat
    requires AllDigits(s)
  {
    if s == [] then 0 else 10 * DigitsValue(s[..|s| - 1]) + (s[|s| - 1] as int - '0' as int)
  }

  /** The integer a decimal literal (optionally negative) denotes, or None when `s` is not one. */
  function ParseInt(s: string): Option<int> {
    if |s| >= 2 && s[0] == '-' && AllDigits(s[1..]) then Some(-(DigitsValue(s[1..]) as int))
    else if |s| >= 1 && AllDigits(s) then Some(DigitsValue(s))
    else None
  }

  lemma {:induction false} NatToStringValue(n: nat)
    ensures DigitsValue(NatToString(n)) == n
  {
    if n >= 10 {
      var s := NatToString(n);
      assert s[..|s| - 1] == NatToString(n / 10);
      NatToStringValue(n / 10);
    }
  }

  /** Reading back the decimal text of an integer gives the integer. */
  lemma IntToStringRoundTrip(n: int)
    ensures ParseInt(IntToString(n)) == Some(n)
  {
    if n < 0 {
      var s := IntToString(n);
      assert s[1..] == NatToString(-n);
      NatToStringValue(-n);
      assert |s| >= 2;
    } else {
      NatToStringValue(n);
    }
  }

  // ---- space removal ----

  /** `s` with every ' ' removed (Ruby's `gsub(' ', '')`). */
  function RemoveSpaces(s: string): (r: string)
    ensures ' ' !in r
    ensures forall c :: c != ' ' ==> multiset(r)[c] == multiset(s)[c]
  {
    if s == [] then ""
    else
      assert s == [s[0]] + s[1..];
      if s[0] == ' ' then RemoveSpaces(s[1..]) else [s[0]] + RemoveSpaces(s[1..])
  }

  lemma {:induction false} RemoveSpacesAppend(a: string, b: string)
    ensures RemoveSpaces(a + b) == RemoveSpaces(a) + RemoveSpaces(b)
    decreases |a|
  {
    if a != [] {
      assert (a + b)[1..] == a[1..] + b;
      RemoveSpacesAppend(a[1..], b);
    } else {
      assert a + b == b;
    }
  }

  lemma {:induction false} RemoveSpacesNoSpace(s: string)
    requires ' ' !in s
    ensures RemoveSpaces(s) == s
    decreases |s|
  {
    if s != [] {
      assert s == [s[0]] + s[1..];
      RemoveSpacesNoSpace(s[1..]);
    }
  }

  /** The index of the last ' ' in `s`, if any. */
  function LastSpace(s: string): (r: Option<nat>)
    ensures r.Some? ==> r.value < |s| && s[r.value] == ' ' && ' ' !in s[r.value + 1..]
    ensures r.None? ==> ' ' !in s
  {
    if s == [] then None
    else if s[|s| - 1] == ' ' then Some(|s| - 1)
    else
      var r := LastSpace(s[..|s| - 1]);
      assert s == s[..|s| - 1] + [s[|s| - 1]];
      r
  }

  /** In `a + " " + b` with no space in `b`, the last space is the one between them. */
  lemma LastSpaceOfSplit(a: string, b: string)
    requires ' ' !in b
    ensures LastSpace(a + " " + b) == Some(|a|)
  {
    var s := a + " " + b;
    assert s[|a|] == ' ';
    assert s[|a| + 1..] == b;
  }

  /** The index of the first occurrence of `c` in `s`, if any. */
  function FirstIndex(s: string, c: char): (r: Option<nat>)
    ensures r.Some? ==> r.value < |s| && s[r.value] == c && c !in s[..r.value]
    ensures r.None? ==> c !in s
  {
    if s == [] then None
    else if s[0] == c then Some(0)
    else
      var r := FirstIndex(s[1..], c);
      assert s == [s[0]] + s[1..];
      if r.Some? then
        assert s[..r.value + 1] == [s[0]] + s[1..][..r.value];
        Some(r.value + 1)
      else None
  }
}
