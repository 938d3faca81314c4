/**
  The line normaliser: how a raw line is split into command text and comment
  (`set_line`), compacted (`strip`), tidied against the supported-command list
  (`tidy`) and split into one command per line (`split_lines`).
*/
module Normalizer {
  import opened Wrappers
  import opened Sequences
  import opened Decimal

  predicate IsWhitespace(c: char) {
    c == ' ' || c == '\t' || c == '\n' || c == '\r' || c == '\U{0B}' || c == '\U{0C}'
  }

  predicate IsBlank(s: string) { forall i | 0 <= i < |s| :: IsWhitespace(s[i]) }

  /** The letters that start a command word of their own: G, M and T. */
  predicate IsCommandLetter(c: char) { c == 'G' || c == 'M' || c == 'T' }

  // ---------------------------------------------------------------------------
  // set_line: comments

  /** Index of the first `c` in `s`, or `|s|` when there is none. */
  function IndexOf(s: string, c: char): (i: nat)
    ensures i <= |s| && (i < |s| ==> s[i] == c)
    ensures forall k | 0 <= k < i :: s[k] != c
  {
    if s == [] || s[0] == c then 0 else 1 + IndexOf(s[1..], c)
  }

  /** Where a semicolon comment starts: the first `;`, or `|s|` when there is none. */
  function CommentStart(s: string): nat {
    IndexOf(s, ';')
  }

  /** What follows a group whose text after `(` is `t`: the rest after its `)`, or nothing when unclosed. */
  function AfterGroup(t: string): (r: string)
    ensures |r| <= |t|
  {
    var j := IndexOf(t, ')');
    if j < |t| then t[j + 1..] else []
  }

  /** The text with every parenthesised group cut out; the text around a group is kept as it is. */
  function WithoutGroups(s: string): (r: string)
    ensures |r| <= |s|
    ensures forall k | 0 <= k < |r| :: r[k] != '('
    ensures (forall k | 0 <= k < |s| :: s[k] != ';') ==> forall k | 0 <= k < |r| :: r[k] != ';'
    ensures (forall k | 0 <= k < |s| :: s[k] != '(') ==> r == s
    decreases |s|
  {
    if s == [] then []
    else if s[0] == '(' then WithoutGroups(AfterGroup(s[1..]))
    else
      var r := [s[0]] + WithoutGroups(s[1..]);
      assert s == [s[0]] + s[1..];
      r
  }

  /** The content of the group that ends the text (only blanks after it), if there is one. */
  function TrailingGroup(s: string): Option<string>
    decreases |s|
  {
    if s == [] then None
    else if s[0] == '(' then
      var t := s[1..];
      if IsBlank(AfterGroup(t)) then Some(t[..IndexOf(t, ')')]) else TrailingGroup(AfterGroup(t))
    else TrailingGroup(s[1..])
  }

  /** A line as the machine holds it: the command text and its comment. */
  datatype Parts = Parts(line: string, comment: string)

  /**
    `set_line`: the command text is what precedes the first `;` with every
    parenthesised group removed; the comment is the `;` comment when there is one,
    otherwise the content of a trailing group prefixed with `;`, otherwise empty.
  */
  function SplitOffComment(text: string): (p: Parts)
    ensures forall k | 0 <= k < |p.line| :: p.line[k] != '(' && p.line[k] != ';'
    ensures p.comment == [] || p.comment[0] == ';'
  {
    var i := CommentStart(text);
    var command := text[..i];
    var comment :=
      if i < |text| then text[i..]
      else match TrailingGroup(command)
        case Some(c) => ";" + c
        case None => "";
    Parts(WithoutGroups(command), comment)
  }

  /** A line without comments is taken as it is. */
  lemma PlainLine(text: string)
    requires forall k | 0 <= k < |text| :: text[k] != '(' && text[k] != ';'
    ensures SplitOffComment(text) == Parts(text, "")
  {
    assert text[..|text|] == text;
    PlainHasNoTrailingGroup(text);
  }

  lemma {:induction false} PlainHasNoTrailingGroup(s: string)
    requires forall k | 0 <= k < |s| :: s[k] != '('
    ensures TrailingGroup(s) == None
  {
    if s != [] {
      PlainHasNoTrailingGroup(s[1..]);
    }
  }

  /** A `;` comment is split off verbatim; the command text before it is kept. */
  lemma SemicolonComment(command: string, c: string)
    requires forall k | 0 <= k < |command| :: command[k] != '(' && command[k] != ';'
    ensures SplitOffComment(command + ";" + c) == Parts(command, ";" + c)
  {
    var text := command + ";" + c;
    assert text[|command|] == ';';
    assert forall k | 0 <= k < |command| :: text[k] == command[k];
    assert CommentStart(text) == |command| by {
      IndexOfAt(text, ';', |command|);
    }
    assert text[..|command|] == command;
    assert text[|command|..] == ";" + c;
  }

  lemma {:induction false} IndexOfAt(s: string, c: char, i: nat)
    requires i < |s| && s[i] == c
    requires forall k | 0 <= k < i :: s[k] != c
    ensures IndexOf(s, c) == i
  {
    if i > 0 {
      IndexOfAt(s[1..], c, i - 1);
    }
  }

  /** A trailing parenthesised comment becomes a `;` comment and leaves the command text. */
  lemma TrailingParenComment(command: string, c: string)
    requires forall k | 0 <= k < |command| :: command[k] != '(' && command[k] != ';'
    requires forall k | 0 <= k < |c| :: c[k] != ')' && c[k] != ';'
    ensures SplitOffComment(command + "(" + c + ")") == Parts(command, ";" + c)
  {
    var text := command + "(" + c + ")";
    assert forall k | 0 <= k < |text| :: text[k] != ';' by {
      forall k | 0 <= k < |text| ensures text[k] != ';' {
        if k < |command| { assert text[k] == command[k]; }
        else if k > |command| && k < |text| - 1 { assert text[k] == c[k - |command| - 1]; }
      }
    }
    assert CommentStart(text) == |text| by { IndexOfNone(text, ';'); }
    assert text[..|text|] == text;
    var group := "(" + c + ")";
    assert text == command + group;
    assert group[1..] == c + ")";
    GroupFacts(c);
    PlainPrefix(command, group);
  }

  lemma {:induction false} IndexOfNone(s: string, c: char)
    requires forall k | 0 <= k < |s| :: s[k] != c
    ensures IndexOf(s, c) == |s|
  {
    if s != [] {
      IndexOfNone(s[1..], c);
    }
  }

  lemma GroupFacts(c: string)
    requires forall k | 0 <= k < |c| :: c[k] != ')'
    ensures IndexOf(c + ")", ')') == |c|
    ensures AfterGroup(c + ")") == []
    ensures (c + ")")[..|c|] == c
  {
    IndexOfAt(c + ")", ')', |c|);
  }

  /** Plain text in front of one closed group: the group is cut and is the trailing group. */
  lemma {:induction false} PlainPrefix(command: string, group: string)
    requires forall k | 0 <= k < |command| :: command[k] != '('
    requires |group| >= 2 && group[0] == '(' && AfterGroup(group[1..]) == []
    ensures WithoutGroups(command + group) == command
    ensures TrailingGroup(command + group) == Some(group[1..][..IndexOf(group[1..], ')')])
  {
    if command == [] {
      assert command + group == group;
    } else {
      var s := command + group;
      assert s[1..] == command[1..] + group;
      PlainPrefix(command[1..], group);
      assert command == [command[0]] + command[1..];
    }
  }

  /** The text after a group's `(`: the group's content ends at its `)`, and what follows is kept. */
  lemma GroupThen(g: string, b: string)
    requires ')' !in g
    ensures IndexOf(g + ")" + b, ')') == |g|
    ensures AfterGroup(g + ")" + b) == b
    ensures (g + ")" + b)[..|g|] == g
  {
    var t := g + ")" + b;
    assert t[|g|] == ')';
    assert forall k | 0 <= k < |g| :: t[k] == g[k];
    IndexOfAt(t, ')', |g|);
    assert t[|g| + 1..] == b;
  }

  /** Text without groups in front of `x` is kept as it is. */
  lemma {:induction false} WithoutGroupsPlain(a: string, x: string)
    requires '(' !in a
    ensures WithoutGroups(a + x) == a + WithoutGroups(x)
    decreases |a|
  {
    if a == [] {
      assert a + x == x;
    } else {
      var s := a + x;
      Uncons(a);
      assert s != [] && s[0] == a[0] != '(' && s[1..] == a[1..] + x;
      WithoutGroupsPlain(a[1..], x);
      Associative([a[0]], a[1..], WithoutGroups(x));
    }
  }

  /** Text without groups in front of `x` holds no trailing group. */
  lemma {:induction false} TrailingGroupPlain(a: string, x: string)
    requires '(' !in a
    ensures TrailingGroup(a + x) == TrailingGroup(x)
    decreases |a|
  {
    if a == [] {
      assert a + x == x;
    } else {
      var s := a + x;
      Uncons(a);
      assert s != [] && s[0] == a[0] != '(' && s[1..] == a[1..] + x;
      TrailingGroupPlain(a[1..], x);
    }
  }

  /** A group is cut out and the text on both sides of it is kept as it is. */
  lemma WithoutGroupsGroup(a: string, g: string, b: string)
    requires '(' !in a && ')' !in g
    ensures WithoutGroups(a + "(" + g + ")" + b) == a + WithoutGroups(b)
  {
    var x := "(" + g + ")" + b;
    assert a + "(" + g + ")" + b == a + x;
    WithoutGroupsPlain(a, x);
    assert x[0] == '(' && x[1..] == g + ")" + b;
    GroupThen(g, b);
  }

  /** A group followed by more than blanks is not the trailing group; the search goes on after it. */
  lemma TrailingGroupGroup(a: string, g: string, b: string)
    requires '(' !in a && ')' !in g && !IsBlank(b)
    ensures TrailingGroup(a + "(" + g + ")" + b) == TrailingGroup(b)
  {
    var x := "(" + g + ")" + b;
    assert a + "(" + g + ")" + b == a + x;
    TrailingGroupPlain(a, x);
    assert x[0] == '(' && x[1..] == g + ")" + b;
    GroupThen(g, b);
  }

  /**
    An inner group and a trailing group: the inner one is cut out with the text
    around it kept, and the trailing one becomes the comment.
  */
  lemma InnerAndTrailingGroup(a: string, g: string, b: string, c: string)
    requires '(' !in a && ';' !in a && '(' !in b && ';' !in b
    requires ')' !in g && ';' !in g && ')' !in c && ';' !in c
    ensures SplitOffComment(a + "(" + g + ")" + b + "(" + c + ")") == Parts(a + b, ";" + c)
  {
    var group := "(" + c + ")";
    var rest := b + group;
    var text := a + "(" + g + ")" + rest;
    assert a + "(" + g + ")" + b + "(" + c + ")" == text;
    assert ';' !in text;
    IndexOfNone(text, ';');
    assert text[..|text|] == text;
    WithoutGroupsGroup(a, g, rest);
    assert rest[|b|] == '(';
    TrailingGroupGroup(a, g, rest);
    assert group[1..] == c + ")";
    GroupFacts(c);
    PlainPrefix(b, group);
  }

  // ---------------------------------------------------------------------------
  // strip

  predicate NoWhitespace(s: string) { forall i | 0 <= i < |s| :: !IsWhitespace(s[i]) }

  /** `strip`: every whitespace character removed, newlines included. */
  function Stripped(s: string): (r: string)
    ensures NoWhitespace(r)
    ensures forall c | !IsWhitespace(c) :: multiset(r)[c] == multiset(s)[c]
    ensures IsBlank(s) <==> r == []
  {
    if s == [] then []
    else
      Uncons(s);
      StrippedStep(s[0], s[1..], Stripped(s[1..]));
      (if IsWhitespace(s[0]) then [] else [s[0]]) + Stripped(s[1..])
  }

  /** One step of `Stripped`: what holds of the stripped tail holds once the head is dropped or kept. */
  lemma StrippedStep(c: char, t: string, r: string)
    requires NoWhitespace(r) && (IsBlank(t) <==> r == [])
    requires forall d | !IsWhitespace(d) :: multiset(r)[d] == multiset(t)[d]
    ensures var h := if IsWhitespace(c) then [] else [c];
      && NoWhitespace(h + r)
      && (forall d | !IsWhitespace(d) :: multiset(h + r)[d] == multiset([c] + t)[d])
      && (IsBlank([c] + t) <==> h + r == [])
  {
    var h := if IsWhitespace(c) then [] else [c];
    NoWhitespaceConcat(h, r);
    var s := [c] + t;
    assert s[0] == c && s[1..] == t;
    assert IsBlank(s) <==> IsWhitespace(c) && IsBlank(t);
  }

  lemma NoWhitespaceConcat(a: string, b: string)
    requires NoWhitespace(a) && NoWhitespace(b)
    ensures NoWhitespace(a + b)
  {
    forall i | 0 <= i < |a + b|
      ensures !IsWhitespace((a + b)[i])
    {
      if i >= |a| {
        assert (a + b)[i] == b[i - |a|];
      }
    }
  }

  /** Stripping keeps the order of what it keeps: it distributes over concatenation. */
  lemma {:induction false} StrippedConcat(a: string, b: string)
    ensures Stripped(a + b) == Stripped(a) + Stripped(b)
  {
    if a != [] {
      var head := if IsWhitespace(a[0]) then [] else [a[0]];
      assert Stripped(a + b) == head + Stripped(a[1..] + b) by {
        ConsTail(a, b);
      }
      StrippedConcat(a[1..], b);
      Associative(head, Stripped(a[1..]), Stripped(b));
    } else {
      assert a + b == b;
    }
  }

  /** A line without whitespace is left as it is, so stripping twice is stripping once. */
  lemma {:induction false} StrippedNoWhitespace(s: string)
    requires NoWhitespace(s)
    ensures Stripped(s) == s
  {
    if s != [] {
      StrippedNoWhitespace(s[1..]);
      assert s == [s[0]] + s[1..];
    }
  }

  // ---------------------------------------------------------------------------
  // tidy

  /** The padded command codes the machine lets through; everything else is commented out. */
  const Supported: set<string> := {
    "G00", "G01", "G02", "G03", "G04", "G10", "G17", "G18", "G19", "G20", "G21",
    "G28", "G30", "G38", "G40", "G43", "G49", "G53", "G54", "G55", "G56", "G57",
    "G58", "G59", "G61", "G80", "G90", "G91", "G92", "G93", "G94",
    "M00", "M01", "M02", "M03", "M04", "M05", "M07", "M08", "M09", "M30"
  }

  /** Each G, M or T code with a single digit gets a leading zero (`G1` becomes `G01`). */
  function Pad(s: string): (r: string)
    ensures |r| >= |s|
    ensures s != [] ==> r != [] && r[0] == s[0]
    decreases |s|
  {
    if s == [] then []
    else if IsCommandLetter(s[0]) then
      var n := DigitRun(s[1..]);
      [s[0]] + (if n == 1 then "0" else "") + s[1..1 + n] + Pad(s[1 + n..])
    else [s[0]] + Pad(s[1..])
  }

  /** Padding adds only zeros, so it brings in no `;`. */
  lemma {:induction false} PadNoSemicolon(s: string)
    requires ';' !in s
    ensures ';' !in Pad(s)
    decreases |s|
  {
    if s == [] {
    } else if IsCommandLetter(s[0]) {
      var t := s[1..];
      var n := DigitRun(t);
      Uncons(s);
      assert ';' !in t;
      SplitAt(t, n);
      PadNoSemicolon(t[n..]);
      PadAtLetter(s[0], t);
    } else {
      assert ';' !in s[1..] by {
        Uncons(s);
      }
      PadNoSemicolon(s[1..]);
    }
  }

  /** A command letter followed by at least two digits and a non-digit is left as it is. */
  lemma {:induction false} PadKeepsLongCode(c: char, digits: string, rest: string)
    requires IsCommandLetter(c) && IsDigits(digits) && |digits| != 1
    requires rest == [] || !IsDigit(rest[0])
    ensures Pad([c] + digits + rest) == [c] + digits + Pad(rest)
  {
    var t := digits + rest;
    Associative([c], digits, rest);
    DigitRunOfDigitsThen(digits, rest);
    Halves(digits, rest);
    PadAtLetter(c, t);
    var n := DigitRun(t);
    assert n == |digits| && (if n == 1 then "0" else "") == "";
    assert t[..n] == digits && t[n..] == rest;
    assert [c] + "" + digits == [c] + digits;
  }

  /** A command letter followed by one digit and a non-digit gets a leading zero (`G1` becomes `G01`). */
  lemma PadSingleDigit(c: char, d: char, rest: string)
    requires IsCommandLetter(c) && IsDigit(d)
    requires rest == [] || !IsDigit(rest[0])
    ensures Pad([c, d] + rest) == [c, '0', d] + Pad(rest)
  {
    PadOneDigit(c, d, rest);
    ConsPair(c, d, rest);
    ConsTriple(c, '0', d, Pad(rest));
  }

  lemma PadOneDigit(c: char, d: char, rest: string)
    requires IsCommandLetter(c) && IsDigit(d)
    requires rest == [] || !IsDigit(rest[0])
    ensures Pad([c] + ([d] + rest)) == [c] + "0" + [d] + Pad(rest)
  {
    var t := [d] + rest;
    DigitRunOfDigitsThen([d], rest);
    Halves([d], rest);
    PadAtLetter(c, t);
    var n := DigitRun(t);
    assert n == 1 && (if n == 1 then "0" else "") == "0";
    assert t[..n] == [d] && t[n..] == rest;
  }

  lemma PadAtLetter(c: char, t: string)
    requires IsCommandLetter(c)
    ensures var n := DigitRun(t);
      Pad([c] + t) == [c] + (if n == 1 then "0" else "") + t[..n] + Pad(t[n..])
  {
    var s := [c] + t;
    assert s != [] && s[0] == c && s[1..] == t;
  }

  lemma {:induction false} PadIdempotent(s: string)
    ensures Pad(Pad(s)) == Pad(s)
    decreases |s|
  {
    if s == [] {
    } else if IsCommandLetter(s[0]) {
      var rest := s[1 + DigitRun(s[1..])..];
      PadIdempotent(rest);
      PadIdempotentStep(s);
    } else {
      var r := [s[0]] + Pad(s[1..]);
      assert r == Pad(s);
      assert r[1..] == Pad(s[1..]);
      PadIdempotent(s[1..]);
    }
  }

  /** The step of PadIdempotent at a command letter, given that it holds for what follows the code. */
  lemma PadIdempotentStep(s: string)
    requires s != [] && IsCommandLetter(s[0])
    requires var rest := s[1 + DigitRun(s[1..])..]; Pad(Pad(rest)) == Pad(rest)
    ensures Pad(Pad(s)) == Pad(s)
  {
    var n := DigitRun(s[1..]);
    var digits := PadCommandShape(s);
    var tail := Pad(s[1 + n..]);
    PadKeepsLongCode(s[0], digits, tail);
  }

  /** One unfolding step of Pad at a command letter; PadCommandShape builds on it. */
  lemma PadAtCommand(s: string)
    requires s != [] && IsCommandLetter(s[0])
    ensures var n := DigitRun(s[1..]);
      Pad(s) == [s[0]] + (if n == 1 then "0" else "") + s[1..1 + n] + Pad(s[1 + n..])
  {
  }

  /** Pad at a command letter writes the letter, a code of at least two digits, and the padded rest. */
  lemma PadCommandShape(s: string) returns (digits: string)
    requires s != [] && IsCommandLetter(s[0])
    ensures var rest := s[1 + DigitRun(s[1..])..];
      Pad(s) == [s[0]] + digits + Pad(rest) && IsDigits(digits) && |digits| != 1 &&
      (Pad(rest) == [] || !IsDigit(Pad(rest)[0]))
  {
    var n := DigitRun(s[1..]);
    var rest := s[1 + n..];
    var zero := if n == 1 then "0" else "";
    digits := zero + s[1..1 + n];
    PadAtCommand(s);
    Associative([s[0]], zero, s[1..1 + n]);
    assert s[1..1 + n] == s[1..][..n];
    assert rest == [] || !IsDigit(rest[0]);
  }

  /** Every G, M or T code of the text is in the supported list. */
  predicate AllSupported(s: string)
    decreases |s|
  {
    if s == [] then true
    else if IsCommandLetter(s[0]) then
      var n := DigitRun(s[1..]);
      [s[0]] + s[1..1 + n] in Supported && AllSupported(s[1 + n..])
    else AllSupported(s[1..])
  }

  const UnsupportedMarker := " ;_gcm.unsupported"

  /**
    `tidy`: pads the command codes before the comment; when a code is not supported
    the whole line is turned into a comment carrying the marker, so nothing of it executes.
  */
  function Tidy(line: string): string {
    var i := CommentStart(line);
    var padded := Pad(line[..i]);
    if AllSupported(padded) then padded + line[i..]
    else ";" + padded + line[i..] + UnsupportedMarker
  }

  /** An unsupported line becomes comment only: its command text is empty. */
  lemma TidyUnsupported(line: string)
    requires !AllSupported(Pad(line[..CommentStart(line)]))
    ensures var r := Tidy(line);
      CommentStart(r) == 0 && r == ";" + Pad(line[..CommentStart(line)]) + line[CommentStart(line)..] + UnsupportedMarker
  {
  }

  /** A supported line keeps its comment and gets its codes padded. */
  lemma TidySupported(line: string)
    requires AllSupported(Pad(line[..CommentStart(line)]))
    ensures var i := CommentStart(line);
      Tidy(line) == Pad(line[..i]) + line[i..] && CommentStart(Tidy(line)) == |Pad(line[..i])|
  {
    var i := CommentStart(line);
    var padded := Pad(line[..i]);
    var r := padded + line[i..];
    PadNoSemicolon(line[..i]);
    if i < |line| {
      assert r[|padded|] == ';';
      assert forall k | 0 <= k < |padded| :: r[k] == padded[k];
      IndexOfAt(r, ';', |padded|);
    } else {
      assert r == padded;
      IndexOfNone(r, ';');
    }
  }

  /** Tidying a tidy line changes nothing. */
  lemma TidyIdempotent(line: string)
    ensures Tidy(Tidy(line)) == Tidy(line)
  {
    var i := CommentStart(line);
    var padded := Pad(line[..i]);
    var r := Tidy(line);
    if AllSupported(padded) {
      TidySupported(line);
      assert r[..|padded|] == padded;
      assert r[|padded|..] == line[i..];
      PadIdempotent(line[..i]);
    } else {
      assert r[0] == ';';
      assert r[..0] == [];
      assert r[0..] == r;
    }
  }

  // ---------------------------------------------------------------------------
  // split_lines

  function Concat(parts: seq<string>): string {
    if parts == [] then [] else parts[0] + Concat(parts[1..])
  }

  /** Index of the first command letter in `s`, or `|s|`. */
  function FirstCommand(s: string): (i: nat)
    ensures i <= |s| && (i < |s| ==> IsCommandLetter(s[i]))
    ensures forall k | 0 <= k < i :: !IsCommandLetter(s[k])
  {
    if s == [] || IsCommandLetter(s[0]) then 0 else 1 + FirstCommand(s[1..])
  }

  /**
    The text cut in front of every command letter but the first character:
    the pieces put back together give the text, and each piece holds at most one
    command word, at its start.
  */
  function Pieces(s: string): (r: seq<string>)
    ensures |r| >= 1 && Concat(r) == s
    ensures s != [] ==> r[0] != [] && r[0][0] == s[0]
    ensures forall k | 1 <= k < |r| :: StartsWithCommand(r[k])
    ensures forall k | 0 <= k < |r| :: NoLaterCommand(r[k])
    decreases |s|
  {
    if s == [] then [s]
    else
      var i := 1 + FirstCommand(s[1..]);
      if i >= |s| then
        assert forall j | 1 <= j < |s| :: s[j] == s[1..][j - 1];
        [s]
      else
        var head := s[..i];
        var tail := Pieces(s[i..]);
        assert forall j | 1 <= j < |head| :: head[j] == s[1..][j - 1];
        SplitAt(s, i);
        PiecesCons(head, tail);
        [head] + tail
  }

  predicate StartsWithCommand(p: string) { p != [] && IsCommandLetter(p[0]) }

  predicate NoLaterCommand(p: string) { forall j | 1 <= j < |p| :: !IsCommandLetter(p[j]) }

  /** A piece without a later command word, put in front of pieces that start with their command words. */
  lemma PiecesCons(head: string, tail: seq<string>)
    requires head != [] && NoLaterCommand(head)
    requires tail != [] && StartsWithCommand(tail[0])
    requires forall k | 1 <= k < |tail| :: StartsWithCommand(tail[k])
    requires forall k | 0 <= k < |tail| :: NoLaterCommand(tail[k])
    ensures var r := [head] + tail;
      && |r| >= 1 && r[0] == head && Concat(r) == head + Concat(tail)
      && (forall k | 1 <= k < |r| :: StartsWithCommand(r[k]))
      && (forall k | 0 <= k < |r| :: NoLaterCommand(r[k]))
  {
    var r := [head] + tail;
    ConsTail([head], tail);
    forall k | 1 <= k < |r|
      ensures StartsWithCommand(r[k]) && NoLaterCommand(r[k])
    {
      assert r[k] == tail[k - 1];
    }
  }

  /**
    `split_lines`: one entry per command word, in order; only the first entry
    carries the line's comment.
  */
  function SplitLines(line: string, comment: string): (r: seq<string>)
    ensures |r| == |Pieces(line)|
    ensures r[0] == Pieces(line)[0] + comment
    ensures r[1..] == Pieces(line)[1..]
  {
    var p := Pieces(line);
    [p[0] + comment] + p[1..]
  }
}
