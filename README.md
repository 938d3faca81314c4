# GcodeMachine in Dafny

A model of `GcodeMachine`, a line-at-a-time G-code preprocessor. This is a
behavioural model built from the library's unit tests (`test.py`) and its
documentation: each operation does what the assertions in `test.py` require, and
the rules they leave open are settled by the documentation's description of the
engine.

The machine keeps:
- the modal state: distance mode G90/G91, motion mode G0–G3 or none, plane G17/G18/G19
  and the active coordinate system;
- the position in the machine frame (`pos_m`) and in the work frame (`pos_w`), which
  differ by the offset of the active coordinate system. The offsets live in a table
  that the caller owns and may change;
- the current line and its comment, the variable store and the per-line parse results.

Each line goes through a pipeline of methods:
- `set_line` splits off the comments;
- `strip`, `tidy` and `split_lines` normalise the text;
- `find_vars` and `substitute_vars` bind and resolve `#` variables;
- `parse_state` reads the words of the line into the modal state and the target;
- `override_feed` and `scale_spindle` rewrite the feed and the spindle speed;
- `fractionize` cuts a move into short segments;
- `done` commits the move.

Modules:
- `Wrappers`: `Option`, `Outcome` and `Result`.
- `Sequences`: concatenation facts used by the proofs.
- `Decimal`: numerals as text with exact `real` values. Numbers are parsed, put into
  canonical form (`42.30000` becomes `42.3`) and written with truncation toward zero
  to a fixed number of places.
- `Geometry`: points with three `real` coordinates.
- `Modal`: the modes, the G codes that select them, and the target of a move.
- `Errors`: the failures the machine reports.
- `Normalizer`: `set_line`, `strip`, `tidy` and `split_lines`, as text functions.
- `Words`: the tokenizer, the writer used for segments, and the rule that the last
  word wins.
- `Variables`: the store, whose names are absent, declared without a value, or bound
  to canonical text. It defines `find_vars` and substitution.
- `Overrides`: the rewriting of the feed and spindle words.
- `Fractionizer`: the framed segment lists for straight moves and arcs.
- `Machine`: the `GcodeMachine` class. It has a field for each attribute the tests read,
  with two exceptions: `dist` has no field (see "Left out"), and `current_cs` and `cs`
  share the one field `cs`. It has one method per operation, and each method is proved
  against the functions above.

## Model

| member | source | states |
|---|---|---|
| Machine.GcodeMachine.constructor | test.py:9-26 | A new machine is in G90, G0 and G17. It uses the given system, `pos_m` is the initial position and `pos_w` is that position less the system's offset (the origin under G54). The store, the event log and the feed are empty. |
| Machine.OffsetTable.Set | test.py:13-17 | The caller's table gets the new offset under the name and keeps every other entry. |
| Machine.GcodeMachine.Reset | test.py:28-43 | `reset` empties the store, forgets the feed, restores G0 and G90, and logs exactly one `on_feed_change` event with no payload. |
| Machine.GcodeMachine.SetCurrentCs | test.py:58-65 | Switching system keeps `pos_m` and sets `pos_w = pos_m − offset(cs)`, so the two frames stay consistent. A name missing from the table fails and changes nothing. |
| Machine.GcodeMachine.SetPositionM | test.py:46-56 | The setter stores the value exactly, so reading `pos_m` gives it back. `pos_w` becomes the value less the offset of the active system. |
| Machine.GcodeMachine.SetLine | test.py:67-74 | The line and comment are the split of the raw text. The line has no `(` and no `;`, and the comment is empty or starts with `;`. The split itself is pinned down by Normalizer.InnerAndTrailingGroup and the lemmas beside it. |
| Machine.GcodeMachine.Strip | test.py:83-86 | No whitespace is left in the line, newlines included. Every other character is kept as many times as it occurred. |
| Machine.GcodeMachine.Tidy | test.py:88-101 | The line becomes its tidied form, and tidying it again would change nothing. |
| Machine.GcodeMachine.SplitLines | test.py:76-81 | The first entry is the first piece with the comment appended. The pieces joined back together give the line. |
| Machine.GcodeMachine.FindVars | test.py:342-353 | Fails exactly when an assignment's value is not a number, and then changes nothing. Otherwise the line and store are what `find_vars` gives, and a store of canonical numbers stays one. |
| Machine.GcodeMachine.SubstituteVars | test.py:355-368 | When every reference is bound, the line becomes the substituted text, in which each reference is replaced by its value (Variables.SubstituteRef). Otherwise it becomes empty. With a valid store, no `#` is left. |
| Machine.GcodeMachine.ParseState | test.py:103-131 | A line that reads as words is applied. One that does not fails with the tokenizer's error and changes nothing. After success the target is the same point in both frames, and `dist_xyz` is `target_m − pos_m` whenever the frames were consistent. |
| Machine.GcodeMachine.ApplyWords | test.py:183-215 | Applies the modes, system and move, and on success records the feed, spindle, I/J/K offset and radius words. The spindle speed stays when the line has no S word. |
| Machine.GcodeMachine.ApplyMove | test.py:217-312 | The last code of each modal group sets its mode. A system code switches system and recomputes `pos_w`. The target, its machine-frame image and `dist_xyz = target_w − pos_w` are set, and `pos_m` is kept. An unknown system fails and changes nothing. |
| Machine.GcodeMachine.SetModes | test.py:103-121 | Each modal group takes the mode the line names and keeps its mode when the line names none. |
| Machine.GcodeMachine.SetTarget | test.py:217-312 | `target_w` is the target of the axis words and `target_m = target_w + offset(cs)`. The displacement is the same in both frames when the position is consistent. |
| Machine.GcodeMachine.SetLineWords | test.py:183-215 | `contains_feed` and `feed_in_current_line` follow the F word, and `contains_spindle` follows the S word. `offset` is I/J/K and `radius` is R. |
| Machine.GcodeMachine.Done | test.py:315-340 | The target becomes the position in both frames. The two frames are consistent afterwards when the target was, as it is after a successful `parse_state`; a system switch, a `position_m` set or a table change since then can leave them apart. The motion mode is cleared after G2/G3 and kept otherwise. The comment is untouched. |
| Machine.GcodeMachine.OverrideFeed | test.py:133-181 | With the override on, the line is rewritten to the requested feed, which is reported once and becomes the current feed. With it off, the line's own feed is reported when it has one, and otherwise nothing changes. |
| Machine.GcodeMachine.ScaleSpindle | test.py:193-198 | A line with an S word is rewritten to the speed times the factor. Any other line is left alone. |
| Machine.GcodeMachine.Fractionize | test.py:370-390 | A G1 move, when lines are fractionized, gives the framed straight-line segments from `pos_w` to `target_w`. A G2/G3 move, when arcs are fractionized, gives the framed arc segments. Any other line is returned alone with its comment. |
| Normalizer.SplitOffComment | test.py:67-74 | The command text has no `(` and no `;`. The comment is empty or a `;` comment. |
| Normalizer.WithoutGroups | test.py:71-74 | No `(` is left, no `;` is brought in, and text without groups is kept as it is, spaces included. |
| Normalizer.WithoutGroupsPlain | test.py:71-74 | Text without groups in front of the rest is kept as it is. |
| Normalizer.WithoutGroupsGroup | test.py:71-74 | A closed group is cut out and the text on both sides of it is kept as it is. |
| Normalizer.TrailingGroupGroup | test.py:71-74 | A group followed by more than blanks is not the trailing group. The comment is taken from the groups after it. |
| Normalizer.InnerAndTrailingGroup | test.py:71-74 | An inner group followed by a trailing group: the line is the text around the inner group (`G0  X0 `), and the comment is `;` plus the trailing group's text (`;trailing comment`). |
| Normalizer.PlainLine | test.py:88-91 | A line without comments is taken whole, with an empty comment. |
| Normalizer.SemicolonComment | test.py:319-323 | A `;` comment is split off verbatim and the command text before it is kept. |
| Normalizer.TrailingParenComment | test.py:67-69 | A trailing `(…)` group becomes the comment `;…` and leaves the command text before it. |
| Normalizer.Stripped | test.py:83-86 | The result has no whitespace, has every other character as often as the input, and is empty exactly when the input is blank. |
| Normalizer.StrippedConcat | test.py:83-86 | Stripping keeps the order of the characters it keeps: it distributes over concatenation. |
| Normalizer.StrippedNoWhitespace | test.py:83-86 | Text without whitespace is left as it is, so stripping twice is stripping once. |
| Normalizer.PadSingleDigit | test.py:88-96 | A G, M or T code of one digit gets a leading zero (`G1` becomes `G01`, `M1` becomes `M01`), and the rest is padded in turn. |
| Normalizer.PadKeepsLongCode | test.py:88-96 | A code of two or more digits is copied unchanged. |
| Normalizer.PadIdempotent | test.py:88-96 | Padding padded text changes nothing. |
| Normalizer.TidySupported | test.py:88-96 | A line whose codes are all supported gets its codes padded and keeps its comment in place. |
| Normalizer.TidyUnsupported | test.py:98-101 | A line with an unsupported code becomes pure comment: `;`, the padded text, the old comment, then ` ;_gcm.unsupported`. |
| Normalizer.TidyIdempotent | test.py:88-101 | Tidying a tidied line changes nothing. |
| Normalizer.Pieces | test.py:76-81 | The pieces put back together give the line. Each piece after the first starts with a G, M or T word, and no piece holds a second one. |
| Normalizer.SplitLines | test.py:76-81 | One entry per piece. The comment is on the first entry only, and the other entries are the pieces unchanged. |
| Words.Tokenize | test.py:103-131 | Every word read has a capital letter. A blank line reads as no words, and the only failures are a malformed number or a character that starts no word. |
| Words.TokenizeRender | test.py:370-379 | Words written out as segments read back as the same words, when their values have at most three decimals. |
| Words.TokenizeAppend | test.py:149-181 | The words of two texts put one after the other are the words of the first, then those of the second. |
| Words.TokenizeLeadingBlank | test.py:149-181 | Whitespace in front of a text does not change what it reads as. |
| Words.TokenizeTrailingBlank | test.py:149-181 | Whitespace after a text changes neither its words nor its error. |
| Words.Param | test.py:183-215 | The value of a letter is absent exactly when no word has that letter. Otherwise it is the value of the last word with that letter. |
| Words.LastG | test.py:103-126 | A modal group's mode is set by the last G word of that group, and G codes of other groups are ignored. |
| Words.ParamAfterReplace | test.py:149-198 | Replacing a letter's words by one new word gives that letter the new value and keeps every other letter's value. |
| Words.ParamWithout | test.py:149-198 | Dropping one letter's words keeps every other letter's value. |
| Words.ReadLine | test.py:103-131 | A line reads as a summary exactly when its text before the comment reads as words. |
| Modal.Target | test.py:217-312 | In G90 an axis word is the new coordinate and an axis without a word keeps its coordinate. In G91 the displacement is the axis words, with zero for a missing axis. |
| Modal.NoAxisWordsNoMove | test.py:108-126 | A line without axis words targets the current position, in either mode. |
| Modal.DisplacementSameInBothFrames | test.py:249-263 | With `pos_w = pos_m − o`, `target_m − pos_m = target_w − pos_w`, and `target_m` maps back to `target_w`. |
| Modal.CoordinateSystemCode | test.py:123-126 | G54 to G59, and only those codes, select a coordinate system. The system's name is the code itself (`G55` selects `"G55"`). |
| Geometry.FrameRoundTrip | test.py:46-56 | Moving between frames and back by the same offset is the identity, in both orders. |
| Decimal.Canonical | test.py:342-346 | A numeral text has a canonical form (`42.30000` becomes `42.3`) with the same value. Non-numerals have none. |
| Decimal.ParseShow | test.py:342-346 | Writing a well-formed numeral and reading it back gives the same numeral. |
| Decimal.TrimValue | test.py:342-346 | Canonical form keeps the value. |
| Decimal.TrimIdempotent | test.py:342-346 | The canonical form of a canonical numeral is itself. |
| Decimal.DropTrailingZerosValue | test.py:342-346 | Dropping trailing zeros from the fraction digits keeps their value. |
| Decimal.TruncateTowardZero | test.py:370-390 | The result is the integer part toward zero, as Python's `int()` gives it, for either sign. |
| Decimal.FixedUnitsValue | test.py:370-390 | A count of units of the last decimal place, written out, denotes exactly that many units. |
| Decimal.FixedExact | test.py:370-390 | A value with at most that many decimals is written exactly. |
| Decimal.FormatTrimmedRoundTrip | test.py:376-378 | A coordinate written by the fractionizer reads back as the value truncated to three decimals, or exactly for thousandths, and the text is canonical (`0.5`, `10`). |
| Decimal.FormatOneDecimalRoundTrip | test.py:164 | A feed written with one decimal (`100.0`) reads back as the value truncated to one decimal, or exactly for tenths. |
| Decimal.FormatWholeRoundTrip | test.py:198 | A speed written as a whole number (`400`) reads back as the truncated value, or exactly for whole values. The text is digits, or a minus followed by digits. |
| Variables.Refs | test.py:349-353 | Every name referenced after a `#` is a digit string. A text without `#` references nothing. |
| Variables.RefsPlain | test.py:349-353 | Text without `#` in front of the rest adds no reference. |
| Variables.RefsRef | test.py:349-353 | The names referenced by `a#n b` are `n` and then those of `b`, when `a` has no `#` and `b` does not go on with a digit (`#2` references `2`). |
| Variables.Substitute | test.py:355-368 | Succeeds exactly when every referenced name is bound. The result then has no `#` when the store is valid. Text without references comes back as it is. |
| Variables.SubstitutePlain | test.py:355-362 | Text without `#` in front of the rest is copied into the result. |
| Variables.SubstituteRef | test.py:355-368 | In `a#n b`, `a` is kept, the reference is replaced by the value bound to `n`, and `b` is substituted in turn (`G0 X#1` with `#1` bound to `42.3` gives `G0 X42.3`). A name without a value makes the substitution fail. |
| Variables.CanonicalNoHash | test.py:355-362 | A canonical number contains no `#`. |
| Variables.Declare | test.py:349-353 | Every referenced name is in the new store. Known names keep their entry, and new names are declared without a value. |
| Variables.AsAssignment | test.py:342-347 | A recognised assignment is exactly `#` + digits + `=` + value. |
| Variables.AssignmentRoundTrip | test.py:342-347 | Writing an assignment and recognising it gives back its name and value. |
| Variables.Bind | test.py:342-346 | Fails exactly when the value is not a number. Otherwise the name is bound to canonical text of the same value, every other entry is kept, and a valid store stays valid. |
| Variables.FindVars | test.py:342-353 | An assignment binds its name and the line becomes `;` + line. Any other line is kept and declares its references. Only a non-numeric assigned value fails. |
| Variables.DeclaredButUnbound | test.py:349-368 | After `find_vars` declares a line's references, substitution fails exactly when one of them had no value before. |
| Overrides.RemoveWord | test.py:149-198 | No word of the letter is left. |
| Overrides.TokenizeRemoveWord | test.py:149-198 | Removing a letter's words from the text removes exactly those words from what the text reads as. |
| Overrides.TrimSpace | test.py:164 | The result neither starts nor ends with whitespace. |
| Overrides.TokenizeTrimSpace | test.py:164 | Trimming whitespace never changes what a line reads as. |
| Overrides.ReplaceWordWords | test.py:149-198 | After the replacement the line reads as its old words without the letter, then the new word glued to the end. |
| Overrides.FeedRewriteWords | test.py:149-181 | After the override the line reads as its old words without F, then F with the request truncated to one decimal. Its feed is the request and every other letter keeps its value. |
| Overrides.SpindleRewriteWords | test.py:193-198 | After scaling the line reads as its old words without S, then S with speed × factor truncated to a whole number. Every other letter keeps its value. |
| Overrides.FormatWholeReadsBack | test.py:193-198 | A speed written whole is one run of number characters that reads back as the truncated speed. |
| Fractionizer.Longest | test.py:370-379 | The longest single-axis displacement bounds every axis and is one of them. It is zero exactly for no move. |
| Fractionizer.StepCount | test.py:370-379 | The fewest steps of the given length that cover the longest axis: enough steps, and one fewer is not enough. There are none exactly for no move. |
| Fractionizer.Plan | test.py:370-379 | The cut of a move is valid, runs from the position to the target, and has no steps exactly when the move is empty. |
| Fractionizer.FractionizeLine | test.py:370-379 | The opening marker carries the original line and comment, then come one segment per step in order, then the closing marker. |
| Fractionizer.FramedSegments | test.py:370-379 | Between the markers, entry `k` is segment `k`. |
| Fractionizer.LinearSegments | test.py:370-379 | There is one segment per step. |
| Fractionizer.BuildLinearSegments | test.py:370-379 | The loop builds exactly the segment list of the cut. |
| Fractionizer.CoordinateAdvance | test.py:376-378 | Each step moves a coordinate strictly toward its target, never past it, by at most one step length. |
| Fractionizer.LinearAdvance | test.py:376-378 | Every segment advances every axis toward the target by at most one step, and an axis that does not move stays put. |
| Fractionizer.LinearEnds | test.py:376-378 | The segment points start at the position and the last one is exactly the target. |
| Fractionizer.LinearEndsAtTarget | test.py:378 | The last segment reads back as the target's coordinates on the moving axes, exactly, with `G1` only when it is also the first. |
| Fractionizer.FractionizeArc | test.py:381-390 | The opening arc marker carries the line and comment, then one segment per given point, then one segment to the target, then the closing marker. |
| Fractionizer.ArcWordsParam | test.py:387-389 | An arc segment writes a plane axis exactly when its text changed since the previous point (always on the first segment), with the point's coordinate. |
| Fractionizer.ArcEndsAtTarget | test.py:389 | The last arc segment reads back as its own words and writes every changed plane axis with the target's coordinate. |
| Fractionizer.ArcWordsWritable | test.py:387-389 | An arc segment on thousandths is written exactly. |

## Left out

- The library's source (`gcode_machine.py`) is not modelled line by line. The model is built from its unit tests, and every rule the tests do not pin down comes from the library's documentation or is stated below as a choice.
- The Euclidean distance `dist` (test.py:264, 313) is a square root checked only approximately. `dist_xyz` is modelled exactly instead.
- Arc geometry (centre, radius, angles, sine and cosine) is floating-point trigonometry. The interior points of an arc are a parameter, and the model frames them and ends exactly at the target.
- Machine.GcodeMachine.Fractionize: takes the interior points of an arc from its caller instead of computing them from I/J/K, so the arc points of test.py:387-388 are not derived.
- Fractionizer.Plan: measures the step along the axis that moves farthest, not along the Euclidean length of the move. Both agree on single-axis moves such as test.py:372.
- Decimal.FormatOneDecimal, Decimal.FormatWhole and Decimal.FormatTrimmed truncate toward zero to 1, 0 and 3 places. They do not reproduce Python's float-to-text conversion, which gives the same text on the values the tests use (`100.0`, `400`, `0.5`, `10`, `9.5`).
- Numbers are exact `real`s, with no binary floating point.
- The callback is a log of the events it would receive. Calling out to foreign code, and re-entrancy, are not modelled.
- Machine.GcodeMachine.Done: clears the motion mode only after G2/G3, as test.py:325 and test.py:340 require. The documentation says `done()` always clears it.
- Normalizer.Tidy: comments out the whole line when any of its codes is unsupported, which gives test.py:101 exactly. It does not comment out just the one code as the documentation puts it. The supported list is inferred.
- Normalizer.Pad: pads only G, M and T codes, and only codes of one digit.
- Machine.GcodeMachine.constructor: requires the initial system to be in the table. The behaviour for a missing one is not shown.
- Machine.GcodeMachine.Fractionize: requires a positive step length. The behaviour for zero or negative steps is not shown. A zero-length G1 move gives the two markers and no segment.
- Machine.GcodeMachine.Fractionize: returns the line and its comment as the only entry when neither kind of fractionization applies, which is an inferred choice.
- Machine.GcodeMachine.OverrideFeed: sets `current_feed`. The tests only show `reset` clearing it, so where it is set is inferred.
- Machine.GcodeMachine.ApplyWords: keeps the spindle speed when a line has no S word. I/J/K default to zero, and X/Y/Z keep their coordinate.
- Machine.GcodeMachine.ParseState: fails and changes nothing in three cases: a malformed number (`MalformedNumber`), an unknown coordinate system (`UnknownCoordinateSystem`), and any character before the `;` comment that starts no word and is not whitespace (`UnexpectedCharacter`). The last case covers lower-case letters, `#`, `/` and `%`, and the whole line is then refused. The documentation lists no such failure, and how much of the state the original changes before failing is not shown.
- The `position_m` getter is the field `posM` itself.
- The work-frame position follows the offset table only when the system is switched or `position_m` is set. A later change to the table leaves `pos_w` as it was until then, which is what `Consistent()` expresses.
- Words are a capital letter and a number: an optional sign, digits and an optional point with more digits, with no exponent. Lower-case letters are not words, so a line holding one is refused by `parse_state` (see above).
- Variable names are digit strings, and a `#` without digits references the empty name.
- Concurrency, I/O and the `unittest` test runner are outside the model.
