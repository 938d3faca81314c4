/**
  Rewriting the feed and the spindle speed of a line (`override_feed`,
  `scale_spindle`).

  The old word of the letter is removed with its number, surrounding whitespace is
  dropped, and the new word is appended directly after the last token, with no
  space: `G0 X0 F42` with a requested feed of 100 becomes `G0 X0F100.0`.
*/
module Overrides {
  import opened Wrappers
  import opened Sequences
  import opened Decimal
  import opened Words
  import Normalizer

  /** `s` without every word of letter `c`: the letter and the number run after it. */
  function RemoveWord(s: string, c: char): (r: string)
    requires IsLetter(c)
    ensures c !in r
    decreases |s|
  {
    if s == [] then []
    else if s[0] == c then RemoveWord(s[1..][NumberRun(s[1..])..], c)
    else [s[0]] + RemoveWord(s[1..], c)
  }

  lemma {:induction false} RemoveWordNumberPrefix(f: string, t: string, c: char)
    requires IsLetter(c)
    requires forall i | 0 <= i < |f| :: IsNumberChar(f[i])
    ensures RemoveWord(f + t, c) == f + RemoveWord(t, c)
  {
    if f == [] {
      assert f + t == t;
    } else {
      Uncons(f);
      Associative([f[0]], f[1..], t);
      RemoveWordKeep(f[0], f[1..] + t, c);
      RemoveWordNumberPrefix(f[1..], t, c);
      Associative([f[0]], f[1..], RemoveWord(t, c));
    }
  }

  lemma RemoveWordKeep(x: char, s: string, c: char)
    requires IsLetter(c) && x != c
    ensures RemoveWord([x] + s, c) == [x] + RemoveWord(s, c)
  {
    var a := [x] + s;
    assert a != [] && a[0] == x && a[1..] == s;
  }

  lemma {:induction false} RemoveWordStart(s: string, c: char)
    requires IsLetter(c)
    requires s == [] || !IsNumberChar(s[0])
    ensures RemoveWord(s, c) == [] || !IsNumberChar(RemoveWord(s, c)[0])
    decreases |s|
  {
    if s != [] && s[0] == c {
      RemoveWordStart(s[1..][NumberRun(s[1..])..], c);
    }
  }

  /** Removing the words of a letter from a line removes exactly those words from what the line reads as. */
  lemma {:induction false} TokenizeRemoveWord(s: string, c: char)
    requires IsLetter(c) && Tokenize(s).Ok?
    ensures Tokenize(RemoveWord(s, c)) == Ok(Without(Tokenize(s).value, c))
    decreases |s|, 1
  {
    if s == [] {
    } else if Normalizer.IsWhitespace(s[0]) {
      TokenizeRemoveWord(s[1..], c);
      TokenizeLeadingBlank([s[0]], RemoveWord(s[1..], c));
    } else {
      TokenizeRemoveFirstWord(s, c);
    }
  }

  lemma {:induction false} TokenizeRemoveFirstWord(s: string, c: char)
    requires IsLetter(c) && Tokenize(s).Ok? && s != [] && IsLetter(s[0])
    ensures Tokenize(RemoveWord(s, c)) == Ok(Without(Tokenize(s).value, c))
    decreases |s|, 0
  {
    var f, rest, v := TokenizeFirst(s);
    TokenizeRemoveWord(rest, c);
    var wr := Tokenize(rest).value;
    ConsTail([Word(s[0], v)], wr);
    if s[0] == c {
      assert RemoveWord(s, c) == RemoveWord(rest, c);
    } else {
      assert RemoveWord(s, c) == [s[0]] + RemoveWord(f + rest, c) by {
        ConsTail([s[0]] + f, rest);
        Associative([s[0]], f, rest);
      }
      KeepFirstWord(s[0], f, rest, c, v);
    }
  }

  lemma KeepFirstWord(c0: char, f: string, rest: string, c: char, v: real)
    requires IsLetter(c) && IsLetter(c0) && c0 != c
    requires forall i | 0 <= i < |f| :: IsNumberChar(f[i])
    requires ParseValue(f) == Some(v)
    requires rest == [] || !IsNumberChar(rest[0])
    requires Tokenize(RemoveWord(rest, c)).Ok?
    ensures Tokenize([c0] + RemoveWord(f + rest, c)) == Ok([Word(c0, v)] + Tokenize(RemoveWord(rest, c)).value)
  {
    RemoveWordNumberPrefix(f, rest, c);
    RemoveWordStart(rest, c);
    TokenizeWord(c0, f, RemoveWord(rest, c), v);
    Associative([c0], f, RemoveWord(rest, c));
  }

  /** Number of whitespace characters at the start of `s`. */
  function LeadingBlanks(s: string): (n: nat)
    ensures n <= |s| && Normalizer.IsBlank(s[..n])
    ensures n < |s| ==> !Normalizer.IsWhitespace(s[n])
  {
    if s != [] && Normalizer.IsWhitespace(s[0]) then
      var k := LeadingBlanks(s[1..]);
      assert s[..1 + k] == [s[0]] + s[1..][..k];
      1 + k
    else 0
  }

  /** Number of whitespace characters at the end of `s`. */
  function TrailingBlanks(s: string): (n: nat)
    ensures n <= |s| && Normalizer.IsBlank(s[|s| - n..])
    ensures n < |s| ==> !Normalizer.IsWhitespace(s[|s| - n - 1])
  {
    if s != [] && Normalizer.IsWhitespace(s[|s| - 1]) then
      var init := s[..|s| - 1];
      var k := TrailingBlanks(init);
      SliceSnoc(s, |s| - 1 - k);
      BlankSnoc(init[|init| - k..], s[|s| - 1]);
      1 + k
    else 0
  }

  lemma BlankSnoc(a: string, c: char)
    requires Normalizer.IsBlank(a) && Normalizer.IsWhitespace(c)
    ensures Normalizer.IsBlank(a + [c])
  {
    assert forall i | 0 <= i < |a| :: (a + [c])[i] == a[i];
  }

  /** `s` without whitespace at either end. */
  function TrimSpace(s: string): (r: string)
    ensures r == [] || (!Normalizer.IsWhitespace(r[0]) && !Normalizer.IsWhitespace(r[|r| - 1]))
  {
    var t := s[LeadingBlanks(s)..];
    t[..|t| - TrailingBlanks(t)]
  }

  /** Trimming never changes the words a line reads as, nor the reason it has none. */
  lemma TokenizeTrimSpace(s: string)
    ensures Tokenize(TrimSpace(s)) == Tokenize(s)
  {
    var i := LeadingBlanks(s);
    var t := s[i..];
    var j := |t| - TrailingBlanks(t);
    assert s == s[..i] + t;
    assert t == t[..j] + t[j..];
    TokenizeLeadingBlank(s[..i], t);
    TokenizeTrailingBlank(t[..j], t[j..]);
  }

  /** The line with the words of letter `c` replaced by one word `c<number>` glued to its end. */
  function ReplaceWord(line: string, c: char, number: string): string
    requires IsLetter(c)
  {
    TrimSpace(RemoveWord(line, c)) + [c] + number
  }

  /**
    A line that reads as words still does after the replacement: its words are the
    old ones without letter `c`, followed by the new word.
  */
  lemma ReplaceWordWords(line: string, c: char, number: string, v: real)
    requires IsLetter(c) && Tokenize(line).Ok?
    requires forall i | 0 <= i < |number| :: IsNumberChar(number[i])
    requires ParseValue(number) == Some(v)
    ensures Tokenize(ReplaceWord(line, c, number)) == Ok(Without(Tokenize(line).value, c) + [Word(c, v)])
  {
    var kept := TrimSpace(RemoveWord(line, c));
    assert Tokenize(kept) == Ok(Without(Tokenize(line).value, c)) by {
      TokenizeRemoveWord(line, c);
      TokenizeTrimSpace(RemoveWord(line, c));
    }
    TokenizeSingleWord(c, number, v);
    TokenizeAppend(kept, [c] + number);
    Associative(kept, [c], number);
  }

  lemma TokenizeSingleWord(c: char, number: string, v: real)
    requires IsLetter(c)
    requires forall i | 0 <= i < |number| :: IsNumberChar(number[i])
    requires ParseValue(number) == Some(v)
    ensures Tokenize([c] + number) == Ok([Word(c, v)])
  {
    TokenizeWord(c, number, [], v);
    assert [c] + number + [] == [c] + number;
    assert [Word(c, v)] + [] == [Word(c, v)];
  }

  /** `x` truncated toward zero to `places` decimal places: the value the rewritten text denotes. */
  function Truncated(x: real, places: nat): real {
    TruncateTowardZero(Scaled(x, places)) as real / Pow10(places) as real
  }

  /** `override_feed` with override on: the feed word becomes the request, written with one decimal. */
  function FeedRewrite(line: string, request: real): string {
    ReplaceWord(line, 'F', FormatOneDecimal(request))
  }

  /** `scale_spindle`: the spindle word becomes the speed times the factor, written as a whole number. */
  function SpindleRewrite(line: string, speed: real, factor: real): string {
    ReplaceWord(line, 'S', FormatWhole(speed * factor))
  }

  /**
    After the feed override the line reads as the same words without its feed
    words, then `F` with the request truncated to one decimal; so its feed is the
    request and every other letter keeps its value.
  */
  lemma FeedRewriteWords(line: string, request: real, d: char)
    requires Tokenize(line).Ok?
    ensures Tokenize(FeedRewrite(line, request)) ==
      Ok(Without(Tokenize(line).value, 'F') + [Word('F', Truncated(request, 1))])
    ensures Param(Tokenize(FeedRewrite(line, request)).value, d) ==
      if d == 'F' then Some(Truncated(request, 1)) else Param(Tokenize(line).value, d)
    ensures HasPlaces(request, 1) ==> Param(Tokenize(FeedRewrite(line, request)).value, 'F') == Some(request)
  {
    ShowNumberChars(Fixed(request, 1));
    ParseShow(Fixed(request, 1));
    FormatOneDecimalRoundTrip(request);
    ReplaceWordWords(line, 'F', FormatOneDecimal(request), Truncated(request, 1));
    ParamAfterReplace(Tokenize(line).value, 'F', Truncated(request, 1), d);
    ParamAfterReplace(Tokenize(line).value, 'F', Truncated(request, 1), 'F');
  }

  /**
    After scaling, the line reads as the same words without its spindle words,
    then `S` with the scaled speed truncated to a whole number.
  */
  lemma SpindleRewriteWords(line: string, speed: real, factor: real, d: char)
    requires Tokenize(line).Ok?
    ensures Tokenize(SpindleRewrite(line, speed, factor)) ==
      Ok(Without(Tokenize(line).value, 'S') + [Word('S', Truncated(speed * factor, 0))])
    ensures Param(Tokenize(SpindleRewrite(line, speed, factor)).value, d) ==
      if d == 'S' then Some(Truncated(speed * factor, 0)) else Param(Tokenize(line).value, d)
  {
    var scaled := speed * factor;
    FormatWholeReadsBack(scaled);
    ReplaceWordWords(line, 'S', FormatWhole(scaled), Truncated(scaled, 0));
    ParamAfterReplace(Tokenize(line).value, 'S', Truncated(scaled, 0), d);
  }

  lemma FormatWholeReadsBack(x: real)
    ensures forall i | 0 <= i < |FormatWhole(x)| :: IsNumberChar(FormatWhole(x)[i])
    ensures ParseValue(FormatWhole(x)) == Some(Truncated(x, 0))
  {
    ShowNumberChars(Fixed(x, 0));
    FormatWholeRoundTrip(x);
    assert Pow10(0) == 1;
    DivideByOne(TruncateTowardZero(Scaled(x, 0)) as real, Pow10(0) as real);
  }
}
