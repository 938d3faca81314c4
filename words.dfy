/**
  The words of a G-code line (`G1`, `X100.5`, `F42.3`) and what `parse_state`
  reads from them.

  A line is a sequence of words, each a capital letter followed by a number, with
  whitespace allowed between them; text from the first `;` on is a comment. When a
  letter or a modal group appears more than once, the last word wins.
*/
module Words {
  import opened Wrappers
  import opened Sequences
  import opened Decimal
  import opened Errors
  import opened Geometry
  import opened Modal
  import Normalizer

  datatype Word = Word(letter: char, value: real)

  predicate IsLetter(c: char) { 'A' <= c <= 'Z' }

  predicate IsNumberChar(c: char) { IsDigit(c) || c == '.' || c == '-' || c == '+' }

  /** Length of the run of number characters at the start of `s`. */
  function NumberRun(s: string): (n: nat)
    ensures n <= |s|
    ensures forall i | 0 <= i < n :: IsNumberChar(s[i])
    ensures n < |s| ==> !IsNumberChar(s[n])
  {
    if s != [] && IsNumberChar(s[0]) then 1 + NumberRun(s[1..]) else 0
  }

  /** The executable part of a line: everything before its first `;`. */
  function Code(line: string): (c: string)
    ensures ';' !in c
    ensures c <= line
  {
    line[..Normalizer.CommentStart(line)]
  }

  /**
    The words of `s`, or the first reason it is not a sequence of words: a letter
    whose number is missing or malformed (`X-`, `G1.2.3`), or a character that
    starts no word.
  */
  function Tokenize(s: string): (r: Result<seq<Word>, Error>)
    ensures r.Ok? ==> forall i | 0 <= i < |r.value| :: IsLetter(r.value[i].letter)
    ensures r.Err? ==> r.error.MalformedNumber? || r.error.UnexpectedCharacter?
    ensures Normalizer.IsBlank(s) ==> r == Ok([])
    decreases |s|
  {
    if s == [] then Ok([])
    else if Normalizer.IsWhitespace(s[0]) then Tokenize(s[1..])
    else if IsLetter(s[0]) then
      var n := NumberRun(s[1..]);
      match ParseValue(s[1..][..n])
      case None => Err(MalformedNumber(s[0]))
      case Some(v) =>
        match Tokenize(s[1..][n..])
        case Ok(ws) => Ok([Word(s[0], v)] + ws)
        case Err(e) => Err(e)
    else Err(UnexpectedCharacter(s[0]))
  }

  /** Words written back as text, the way the fractionizer writes its segments (`G1X0.5`). */
  function Render(ws: seq<Word>): string {
    if ws == [] then "" else [ws[0].letter] + FormatTrimmed(ws[0].value) + Render(ws[1..])
  }

  lemma {:induction false} ShowNumberChars(n: Numeral)
    requires ValidNumeral(n)
    ensures |Show(n)| > 0
    ensures forall i | 0 <= i < |Show(n)| :: IsNumberChar(Show(n)[i])
  {
  }

  lemma {:induction false} NumberRunThen(a: string, b: string)
    requires forall i | 0 <= i < |a| :: IsNumberChar(a[i])
    requires b == [] || !IsNumberChar(b[0])
    ensures NumberRun(a + b) == |a|
  {
    if a != [] {
      assert (a + b)[1..] == a[1..] + b;
      NumberRunThen(a[1..], b);
    } else {
      assert a + b == b;
    }
  }

  /** Text that cannot continue a number does not lengthen the run before it. */
  lemma {:induction false} NumberRunAppend(a: string, b: string)
    requires b == [] || !IsNumberChar(b[0])
    ensures NumberRun(a + b) == NumberRun(a)
  {
    if a == [] {
      assert a + b == b;
    } else {
      assert (a + b)[0] == a[0];
      if IsNumberChar(a[0]) {
        assert (a + b)[1..] == a[1..] + b;
        NumberRunAppend(a[1..], b);
      }
    }
  }

  /** Reading one word whose number is `f` off the front of a text. */
  lemma TokenizeWord(c: char, f: string, rest: string, v: real)
    requires IsLetter(c)
    requires forall i | 0 <= i < |f| :: IsNumberChar(f[i])
    requires ParseValue(f) == Some(v)
    requires rest == [] || !IsNumberChar(rest[0])
    ensures Tokenize([c] + f + rest) ==
      match Tokenize(rest)
      case Ok(ws) => Ok([Word(c, v)] + ws)
      case Err(e) => Err(e)
  {
    Associative([c], f, rest);
    TokenizeLetter(c, f + rest);
    NumberRunThen(f, rest);
    Halves(f, rest);
  }

  /** One step of reading: a letter, then the number run after it, then the rest. */
  lemma TokenizeLetter(c: char, t: string)
    requires IsLetter(c)
    ensures Tokenize([c] + t) ==
      match ParseValue(t[..NumberRun(t)])
      case None => Err(MalformedNumber(c))
      case Some(v) =>
        match Tokenize(t[NumberRun(t)..])
        case Ok(ws) => Ok([Word(c, v)] + ws)
        case Err(e) => Err(e)
  {
    var s := [c] + t;
    assert s != [] && s[0] == c && s[1..] == t;
    assert !Normalizer.IsWhitespace(c);
  }

  /** A number as the fractionizer writes it is one run of number characters that reads back exactly. */
  lemma FormatTrimmedReadsBack(x: real)
    requires HasPlaces(x, 3)
    ensures forall i | 0 <= i < |FormatTrimmed(x)| :: IsNumberChar(FormatTrimmed(x)[i])
    ensures ParseValue(FormatTrimmed(x)) == Some(x)
  {
    ShowNumberChars(Trim(Fixed(x, 3)));
    FormatTrimmedRoundTrip(x);
  }

  /** A word that rendering writes exactly: a letter, and a value with at most three decimals. */
  predicate Writable(w: Word) {
    IsLetter(w.letter) && HasPlaces(w.value, 3)
  }

  /**
    Rendering words and reading them back gives the same words, for values that
    fit in the three decimal places the rendering keeps.
  */
  lemma {:induction false} TokenizeRender(ws: seq<Word>)
    requires forall i | 0 <= i < |ws| :: Writable(ws[i])
    ensures Tokenize(Render(ws)) == Ok(ws)
  {
    if ws != [] {
      TokenizeRender(ws[1..]);
      TokenizeRenderCons(ws[0], ws[1..]);
      Uncons(ws);
    }
  }

  lemma TokenizeRenderCons(w: Word, tail: seq<Word>)
    requires IsLetter(w.letter) && HasPlaces(w.value, 3)
    requires Tokenize(Render(tail)) == Ok(tail)
    ensures Tokenize(Render([w] + tail)) == Ok([w] + tail)
  {
    var f, rest := FormatTrimmed(w.value), Render(tail);
    RenderCons(w, tail);
    FormatTrimmedReadsBack(w.value);
    if rest != [] {
      TokenizeOkStart(rest);
    }
    TokenizeWord(w.letter, f, rest, w.value);
  }

  lemma RenderCons(w: Word, tail: seq<Word>)
    ensures Render([w] + tail) == [w.letter] + FormatTrimmed(w.value) + Render(tail)
  {
    ConsTail([w], tail);
  }

  /** A text that reads as words starts with whitespace or a letter, never inside a number. */
  lemma TokenizeOkStart(s: string)
    requires Tokenize(s).Ok? && s != []
    ensures !IsNumberChar(s[0])
  {
  }

  /** The words of two texts written one after the other are the words of the first, then of the second. */
  lemma {:induction false} TokenizeAppend(a: string, b: string)
    requires Tokenize(a).Ok? && Tokenize(b).Ok?
    ensures Tokenize(a + b) == Ok(Tokenize(a).value + Tokenize(b).value)
    decreases |a|, 1
  {
    if a == [] {
      assert a + b == b;
      assert Tokenize(a).value + Tokenize(b).value == Tokenize(b).value;
    } else if Normalizer.IsWhitespace(a[0]) {
      ConsTail(a, b);
      TokenizeAppend(a[1..], b);
    } else {
      TokenizeAppendWord(a, b);
    }
  }

  lemma {:induction false} TokenizeAppendWord(a: string, b: string)
    requires Tokenize(a).Ok? && Tokenize(b).Ok?
    requires a != [] && IsLetter(a[0])
    ensures Tokenize(a + b) == Ok(Tokenize(a).value + Tokenize(b).value)
    decreases |a|, 0
  {
    var f, rest, v := TokenizeFirst(a);
    TokenizeAppend(rest, b);
    TokenizeAppendCombine(a[0], f, rest, b, v);
    Associative([a[0]] + f, rest, b);
  }

  /** The first word of a text that reads as words and starts with a letter. */
  lemma TokenizeFirst(a: string) returns (f: string, rest: string, v: real)
    requires Tokenize(a).Ok? && a != [] && IsLetter(a[0])
    ensures a == [a[0]] + f + rest
    ensures NumberRun(a[1..]) == |f| && a[1..][..|f|] == f && a[1..][|f|..] == rest
    ensures forall i | 0 <= i < |f| :: IsNumberChar(f[i])
    ensures ParseValue(f) == Some(v)
    ensures rest == [] || !IsNumberChar(rest[0])
    ensures Tokenize(rest).Ok? && Tokenize(a).value == [Word(a[0], v)] + Tokenize(rest).value
  {
    var n := NumberRun(a[1..]);
    f, rest := a[1..][..n], a[1..][n..];
    Uncons(a);
    TokenizeLetter(a[0], a[1..]);
    v := ParseValue(f).value;
    assert a == [a[0]] + f + rest by {
      SplitAt(a, 1);
      SplitAt(a[1..], n);
      Associative([a[0]], f, rest);
    }
  }

  lemma TokenizeAppendCombine(c: char, f: string, rest: string, b: string, v: real)
    requires IsLetter(c) && forall i | 0 <= i < |f| :: IsNumberChar(f[i])
    requires ParseValue(f) == Some(v)
    requires rest == [] || !IsNumberChar(rest[0])
    requires Tokenize(rest).Ok? && Tokenize(b).Ok?
    requires Tokenize(rest + b) == Ok(Tokenize(rest).value + Tokenize(b).value)
    ensures Tokenize([c] + f + (rest + b)) == Ok([Word(c, v)] + Tokenize(rest).value + Tokenize(b).value)
  {
    assert rest + b == [] || !IsNumberChar((rest + b)[0]) by {
      if rest == [] && b != [] {
        TokenizeOkStart(b);
      }
    }
    var wr, wb := Tokenize(rest).value, Tokenize(b).value;
    var t := rest + b;
    assert Tokenize([c] + f + t) == Ok([Word(c, v)] + (wr + wb)) by {
      TokenizeWord(c, f, t, v);
    }
    Associative([Word(c, v)], wr, wb);
  }

  /** Whitespace before a text does not change its words. */
  lemma {:induction false} TokenizeLeadingBlank(a: string, b: string)
    requires Normalizer.IsBlank(a)
    ensures Tokenize(a + b) == Tokenize(b)
  {
    if a != [] {
      assert (a + b)[0] == a[0];
      assert (a + b)[1..] == a[1..] + b;
      TokenizeLeadingBlank(a[1..], b);
    } else {
      assert a + b == b;
    }
  }

  /** Whitespace after a text does not change its words, nor the reason it has none. */
  lemma {:induction false} TokenizeTrailingBlank(a: string, b: string)
    requires Normalizer.IsBlank(b)
    ensures Tokenize(a + b) == Tokenize(a)
    decreases |a|
  {
    if a == [] {
      assert a + b == b;
    } else {
      assert (a + b)[0] == a[0];
      assert (a + b)[1..] == a[1..] + b;
      if Normalizer.IsWhitespace(a[0]) {
        TokenizeTrailingBlank(a[1..], b);
      } else if IsLetter(a[0]) {
        var n := NumberRun(a[1..]);
        assert b == [] || !IsNumberChar(b[0]);
        NumberRunAppend(a[1..], b);
        assert (a[1..] + b)[..n] == a[1..][..n];
        assert (a[1..] + b)[n..] == a[1..][n..] + b;
        TokenizeTrailingBlank(a[1..][n..], b);
      }
    }
  }

  /** `ws` without the words of letter `c`. */
  function Without(ws: seq<Word>, c: char): (r: seq<Word>)
    ensures forall i | 0 <= i < |r| :: r[i].letter != c
    ensures |r| <= |ws|
  {
    if ws == [] then []
    else if ws[0].letter == c then Without(ws[1..], c)
    else [ws[0]] + Without(ws[1..], c)
  }

  /** The index of the last word satisfying `p`, or -1 when there is none. */
  function LastIndex(ws: seq<Word>, p: Word -> bool): (i: int)
    ensures -1 <= i < |ws|
    ensures 0 <= i ==> p(ws[i])
    ensures forall j | i < j < |ws| :: !p(ws[j])
    decreases |ws|
  {
    if ws == [] then -1
    else if p(ws[|ws| - 1]) then |ws| - 1
    else LastIndex(ws[..|ws| - 1], p)
  }

  /** The value of the last word with letter `c` (the feed of `F42.3`), if any. */
  function Param(ws: seq<Word>, c: char): (r: Option<real>)
    ensures r.None? <==> forall i | 0 <= i < |ws| :: ws[i].letter != c
    ensures r.Some? ==>
      exists i | 0 <= i < |ws| :: ws[i] == Word(c, r.value) && forall j | i < j < |ws| :: ws[j].letter != c
  {
    var i := LastIndex(ws, (w: Word) => w.letter == c);
    if i < 0 then None else Some(ws[i].value)
  }

  /**
    The mode selected by the last G word that `code` recognises; G words that
    `code` does not recognise belong to other modal groups and are ignored.
  */
  function LastG<T>(ws: seq<Word>, code: real -> Option<T>): (r: Option<T>)
    ensures r.None? <==> forall i | 0 <= i < |ws| :: !(ws[i].letter == 'G' && code(ws[i].value).Some?)
    ensures r.Some? ==>
      exists i | 0 <= i < |ws| ::
        ws[i].letter == 'G' && code(ws[i].value) == r &&
        forall j | i < j < |ws| :: !(ws[j].letter == 'G' && code(ws[j].value).Some?)
  {
    var i := LastIndex(ws, (w: Word) => w.letter == 'G' && code(w.value).Some?);
    if i < 0 then None else code(ws[i].value)
  }

  lemma {:induction false} WithoutSnoc(ws: seq<Word>, w: Word, c: char)
    ensures Without(ws + [w], c) == Without(ws, c) + (if w.letter == c then [] else [w])
  {
    if ws == [] {
      assert ws + [w] == [w];
    } else {
      assert (ws + [w])[1..] == ws[1..] + [w];
      WithoutSnoc(ws[1..], w, c);
    }
  }

  /** A word of another letter appended after the others does not change the value of `d`. */
  lemma ParamSnoc(ws: seq<Word>, w: Word, d: char)
    ensures Param(ws + [w], d) == if w.letter == d then Some(w.value) else Param(ws, d)
  {
    assert (ws + [w])[..|ws|] == ws;
  }

  /** Dropping the words of letter `c` does not change the value of any other letter. */
  lemma {:induction false} ParamWithout(ws: seq<Word>, c: char, d: char)
    requires c != d
    ensures Param(Without(ws, c), d) == Param(ws, d)
    decreases |ws|
  {
    if ws != [] {
      var init, w := ws[..|ws| - 1], ws[|ws| - 1];
      assert ws == init + [w];
      WithoutSnoc(init, w, c);
      ParamWithout(init, c, d);
      ParamSnoc(init, w, d);
      if w.letter != c {
        ParamSnoc(Without(init, c), w, d);
      } else {
        assert Without(ws, c) == Without(init, c);
      }
    }
  }

  /**
    Replacing the words of letter `c` by one word `c v` at the end: the line's
    value of `c` becomes `v` and every other letter keeps its value.
  */
  lemma ParamAfterReplace(ws: seq<Word>, c: char, v: real, d: char)
    ensures Param(Without(ws, c) + [Word(c, v)], d) == if d == c then Some(v) else Param(ws, d)
  {
    ParamSnoc(Without(ws, c), Word(c, v), d);
    if d != c {
      ParamWithout(ws, c, d);
    }
  }

  /** Everything `parse_state` takes from one line. */
  datatype LineWords = LineWords(
    distance: Option<DistanceMode>,
    motion: Option<MotionMode>,
    plane: Option<Plane>,
    cs: Option<string>,
    feed: Option<real>,
    spindle: Option<real>,
    arcOffset: Vec3,      // I, J and K, zero when absent
    radius: Option<real>,
    axes: AxisWords)

  function Summarize(ws: seq<Word>): LineWords {
    LineWords(
      LastG(ws, DistanceCode),
      LastG(ws, MotionCode),
      LastG(ws, PlaneCode),
      LastG(ws, CoordinateSystemCode),
      Param(ws, 'F'),
      Param(ws, 'S'),
      Vec3(Param(ws, 'I').GetOr(0.0), Param(ws, 'J').GetOr(0.0), Param(ws, 'K').GetOr(0.0)),
      Param(ws, 'R'),
      AxisWords(Param(ws, 'X'), Param(ws, 'Y'), Param(ws, 'Z')))
  }

  /** What `parse_state` reads off a line: the summary of the words before its comment. */
  function ReadLine(line: string): (r: Result<LineWords, Error>)
    ensures r.Ok? <==> Tokenize(Code(line)).Ok?
  {
    match Tokenize(Code(line))
    case Ok(ws) => Ok(Summarize(ws))
    case Err(e) => Err(e)
  }
}
