// What `parseCommands` (mobile-app/src/services/commandParser.ts) does to
// whole inputs: facts about the command table, then the pipeline from end
// to end on the kinds of input its tests use.

module CommandParserProperties {
  import opened Common
  import opened CommandParser

  // ---------------------------------------------------------------------
  // The shape of the command table

  /** A spoken pattern is at least four characters long, starts with a
      lower-case ASCII letter other than `l`, and has no digit fourth. */
  predicate PatternShape(p: string) {
    && |p| >= 4
    && 'a' <= p[0] <= 'z' && p[0] != 'l'
    && !('0' <= p[3] <= '9')
  }

  /** An output is one to four characters and does not start with a word
      character, so no pattern can match inside it. */
  predicate OutputShape(o: string) {
    0 < |o| <= 4 && !IsWordChar(o[0])
  }

  predicate EntryShape(c: CommandDef) {
    OutputShape(c.output) && forall j :: 0 <= j < |c.patterns| ==> PatternShape(c.patterns[j])
  }

  lemma EntryShape0(k: nat)
    requires k < 1
    ensures EntryShape(Commands[k])
  {
  }

  lemma EntryShape1(k: nat)
    requires 1 <= k < 2
    ensures EntryShape(Commands[k])
  {
  }

  lemma EntryShape2(k: nat)
    requires 2 <= k < 3
    ensures EntryShape(Commands[k])
  {
  }

  lemma EntryShape3(k: nat)
    requires 3 <= k < 5
    ensures EntryShape(Commands[k])
  {
    if k == 3 {} else {}
  }

  lemma EntryShape5(k: nat)
    requires 5 <= k < 7
    ensures EntryShape(Commands[k])
  {
    if k == 5 {} else {}
  }

  lemma EntryShape7(k: nat)
    requires 7 <= k < 10
    ensures EntryShape(Commands[k])
  {
    if k == 7 {} else if k == 8 {} else {}
  }

  lemma EntryShape10(k: nat)
    requires 10 <= k < 13
    ensures EntryShape(Commands[k])
  {
    if k == 10 {} else if k == 11 {} else {}
  }

  lemma EntryShape13(k: nat)
    requires 13 <= k < 16
    ensures EntryShape(Commands[k])
  {
    if k == 13 {} else if k == 14 {} else {}
  }

  lemma EntryShape16(k: nat)
    requires 16 <= k < 19
    ensures EntryShape(Commands[k])
  {
    if k == 16 {} else if k == 17 {} else {}
  }

  lemma EntryShape19(k: nat)
    requires 19 <= k < 22
    ensures EntryShape(Commands[k])
  {
    if k == 19 {} else if k == 20 {} else {}
  }

  lemma EntryShape22(k: nat)
    requires 22 <= k < |Commands|
    ensures EntryShape(Commands[k])
  {
    if k == 22 {} else if k == 23 {} else {}
  }

  /** commandParser.ts:21-53: every entry of the table has that shape. */
  lemma TableShape()
    ensures Shaped(Commands)
  {
    forall k | 0 <= k < |Commands|
      ensures EntryShape(Commands[k])
    {
      if k < 1 { EntryShape0(k); }
      else if k < 2 { EntryShape1(k); }
      else if k < 3 { EntryShape2(k); }
      else if k < 5 { EntryShape3(k); }
      else if k < 7 { EntryShape5(k); }
      else if k < 10 { EntryShape7(k); }
      else if k < 13 { EntryShape10(k); }
      else if k < 16 { EntryShape13(k); }
      else if k < 19 { EntryShape16(k); }
      else if k < 22 { EntryShape19(k); }
      else { EntryShape22(k); }
    }
  }

  // ---------------------------------------------------------------------
  // Where nothing matches

  lemma {:induction false} NoMatchShort(prevWord: bool, s: string, p: string)
    requires |s| < |p|
    ensures NoMatch(prevWord, s, p)
    decreases |s|
  {
    if s != [] {
      NoMatchShort(IsWordChar(s[0]), s[1..], p);
    }
  }

  /** No pattern matches anywhere in an output. */
  lemma NoMatchInOutput(o: string, p: string)
    requires OutputShape(o) && PatternShape(p)
    ensures NoMatch(false, o, p)
  {
    NoMatchShort(IsWordChar(o[0]), o[1..], p);
  }

  /** A pattern is missing a letter of `s` (in either case): it matches
      nowhere in `s`. */
  lemma NoMatchAbsentChar(prevWord: bool, s: string, p: string, c: char)
    requires c in p
    requires forall i :: 0 <= i < |s| ==> LowerChar(s[i]) != c
    ensures NoMatch(prevWord, s, p)
  {
    var k :| 0 <= k < |p| && p[k] == c;
    NoMatchMissingChar(prevWord, s, p, k);
  }

  /** No pattern matches in the placeholder of the first escaped word. */
  lemma NoMatchInPlaceholder(p: string)
    requires PatternShape(p)
    ensures NoMatch(false, Placeholder(0), p)
  {
    var s := [Nul, 'E', 'S', 'C', '0', Nul];
    assert Placeholder(0) == s;
    var s1 := s[1..];
    if |p| <= |s1| {
      assert AsciiLower(s1[..|p|])[3] == LowerChar(s1[3]) == '0';
    }
    assert !MatchHere(false, s1, p);
    assert !MatchHere(true, s1[1..], p);
    NoMatchShort(true, s1[2..], p);
  }

  // ---------------------------------------------------------------------
  // Where step 1 finds nothing to escape

  lemma {:induction false} NoEscapeInsideWord(s: string)
    requires AllWordChars(s)
    ensures NoEscape(true, s)
    decreases |s|
  {
    if s != [] {
      NoEscapeInsideWord(s[1..]);
    }
  }

  /** A single word escapes nothing unless it starts with `literal`. */
  lemma NoEscapeWord(w: string)
    requires w != [] && AllWordChars(w) && LowerChar(w[0]) != 'l'
    ensures NoEscape(false, w)
  {
    if |w| >= |EscapeKeyword| {
      assert AsciiLower(w[..|EscapeKeyword|])[0] == LowerChar(w[0]);
    }
    NoEscapeInsideWord(w[1..]);
  }

  /** A text without the letter `l` escapes nothing. */
  lemma {:induction false} NoEscapeWithoutL(prevWord: bool, s: string)
    requires forall i :: 0 <= i < |s| ==> LowerChar(s[i]) != 'l'
    ensures NoEscape(prevWord, s)
    decreases |s|
  {
    if s != [] {
      if |s| >= |EscapeKeyword| {
        assert AsciiLower(s[..|EscapeKeyword|])[0] == LowerChar(s[0]);
      }
      NoEscapeWithoutL(IsWordChar(s[0]), s[1..]);
    }
  }

  // ---------------------------------------------------------------------
  // Step 2 over a split table

  lemma {:induction false} ApplyCommandsAppend(s: string, a: seq<CommandDef>, b: seq<CommandDef>)
    ensures ApplyCommands(s, a + b) == ApplyCommands(ApplyCommands(s, a), b)
    decreases |a|
  {
    if a != [] {
      assert (a + b)[1..] == a[1..] + b;
      ApplyCommandsAppend(ApplyPatterns(s, a[0].patterns, a[0].output), a[1..], b);
    } else {
      assert a + b == b;
    }
  }

  /** The patterns of one command before the `j`-th leave `s` alone: the
      command's result is that of the `j`-th and the ones after it. */
  lemma {:induction false} ApplyPatternsFrom(s: string, patterns: seq<string>, output: string, j: nat)
    requires j < |patterns|
    requires forall i :: 0 <= i < j ==> NoMatch(false, s, patterns[i])
    ensures ApplyPatterns(s, patterns, output) ==
            ApplyPatterns(ReplaceWord(false, s, patterns[j], output), patterns[j + 1..], output)
    decreases j
  {
    if j > 0 {
      NoMatchUnchanged(false, s, patterns[0], output);
      ApplyPatternsFrom(s, patterns[1..], output, j - 1);
      assert patterns[1..][j..] == patterns[j + 1..];
    }
  }

  // ---------------------------------------------------------------------
  // The pipeline from end to end

  /** commandParser.ts:82, 102-107, 110-115, 118-120, 162-163: a text in
      which nothing is escaped, no pattern matches, no spacing mark
      occurs and which has no white space at either end comes back as it
      is (the empty text included). */
  lemma PlainTextUnchanged(text: string)
    requires text != [] ==> !IsWhitespace(text[0]) && !IsWhitespace(text[|text| - 1])
    requires NoEscape(false, text)
    requires Untouched(text, Commands)
    requires NoSpacingMarks(text)
    ensures ParseCommands(text) == text
  {
    if text != [] {
      EscapeFromNoEscape(false, text, 0);
      ApplyCommandsUntouched(text, Commands);
      NormalizeSpacingUnmarked(text);
      FinishTrimUntrimmed(text);
    }
  }

  lemma {:induction false} ApplyPatternsToOutput(o: string, patterns: seq<string>, output: string)
    requires OutputShape(o)
    requires forall j :: 0 <= j < |patterns| ==> PatternShape(patterns[j])
    ensures ApplyPatterns(o, patterns, output) == o
    decreases |patterns|
  {
    if patterns != [] {
      NoMatchInOutput(o, patterns[0]);
      NoMatchUnchanged(false, o, patterns[0], output);
      ApplyPatternsToOutput(o, patterns[1..], output);
    }
  }

  /** Once a command has produced its output, no command touches it. */
  lemma {:induction false} ApplyCommandsToOutput(o: string, commands: seq<CommandDef>)
    requires OutputShape(o)
    requires forall k :: 0 <= k < |commands| ==> EntryShape(commands[k])
    ensures ApplyCommands(o, commands) == o
    decreases |commands|
  {
    if commands != [] {
      ApplyPatternsToOutput(o, commands[0].patterns, commands[0].output);
      ApplyCommandsToOutput(o, commands[1..]);
    }
  }

  /** The table has the shape `TableShape` proves of `Commands`. */
  predicate Shaped(commands: seq<CommandDef>) {
    forall k :: 0 <= k < |commands| ==> EntryShape(commands[k])
  }

  /** No pattern of the commands before the `c`-th matches in `t`. */
  predicate UnmatchedBefore(t: string, commands: seq<CommandDef>, c: nat)
    requires c <= |commands|
  {
    forall k, i :: 0 <= k < c && 0 <= i < |commands[k].patterns| ==> NoMatch(false, t, commands[k].patterns[i])
  }

  lemma ApplyCommandsBefore(t: string, commands: seq<CommandDef>, c: nat)
    requires c <= |commands| && UnmatchedBefore(t, commands, c)
    ensures ApplyCommands(t, commands[..c]) == t
  {
    var before := commands[..c];
    forall k, i | 0 <= k < |before| && 0 <= i < |before[k].patterns|
      ensures NoMatch(false, t, before[k].patterns[i])
    {
      assert before[k] == commands[k];
    }
    ApplyCommandsUntouched(t, before);
  }

  lemma ApplyCommandsAfter(o: string, commands: seq<CommandDef>, c: nat)
    requires c < |commands| && Shaped(commands)
    requires OutputShape(o)
    ensures ApplyCommands(o, commands[c + 1..]) == o
  {
    var after := commands[c + 1..];
    forall k | 0 <= k < |after|
      ensures EntryShape(after[k])
    {
      assert after[k] == commands[c + 1 + k];
    }
    ApplyCommandsToOutput(o, after);
  }

  /** The commands before the `c`-th leave `t` alone. */
  lemma ApplyCommandsFrom(t: string, commands: seq<CommandDef>, c: nat)
    requires c < |commands| && UnmatchedBefore(t, commands, c)
    ensures ApplyCommands(t, commands) ==
            ApplyCommands(ApplyPatterns(t, commands[c].patterns, commands[c].output), commands[c + 1..])
  {
    assert commands == commands[..c] + commands[c..];
    ApplyCommandsAppend(t, commands[..c], commands[c..]);
    ApplyCommandsBefore(t, commands, c);
    assert commands[c..][0] == commands[c] && commands[c..][1..] == commands[c + 1..];
  }

  /** A pattern that matches the whole text replaces all of it. */
  lemma ReplaceWhole(t: string, p: string, o: string)
    requires MatchHere(false, t, p) && |t| == |p|
    ensures ReplaceWord(false, t, p, o) == o
  {
    assert t[|p|..] == [];
    assert ReplaceWord(false, t, p, o) == o + ReplaceWord(IsWordChar(t[|p| - 1]), [], p, o);
  }

  /** The patterns after the one that produced a command's output leave
      that output alone. */
  lemma RestOfCommand(cmd: CommandDef, j: nat)
    requires EntryShape(cmd) && j < |cmd.patterns|
    ensures ApplyPatterns(cmd.output, cmd.patterns[j + 1..], cmd.output) == cmd.output
  {
    var rest := cmd.patterns[j + 1..];
    forall i | 0 <= i < |rest| ensures PatternShape(rest[i]) {
      assert rest[i] == cmd.patterns[j + 1 + i];
    }
    ApplyPatternsToOutput(cmd.output, rest, cmd.output);
  }

  /** Step 2 on a text that is exactly the `j`-th pattern of command `c`
      and that no earlier pattern matches: the command's output. */
  lemma PhraseApplied(t: string, commands: seq<CommandDef>, c: nat, j: nat)
    requires Shaped(commands)
    requires c < |commands| && j < |commands[c].patterns|
    requires MatchHere(false, t, commands[c].patterns[j]) && |t| == |commands[c].patterns[j]|
    requires UnmatchedBefore(t, commands, c)
    requires forall i :: 0 <= i < j ==> NoMatch(false, t, commands[c].patterns[i])
    ensures ApplyCommands(t, commands) == commands[c].output
  {
    var cmd := commands[c];
    ApplyCommandsFrom(t, commands, c);
    ApplyPatternsFrom(t, cmd.patterns, cmd.output, j);
    ReplaceWhole(t, cmd.patterns[j], cmd.output);
    RestOfCommand(cmd, j);
    ApplyCommandsAfter(cmd.output, commands, c);
  }

  /** commandParser.ts:110-115: a text that is exactly one command's
      pattern, in any ASCII case, becomes that command's output, provided
      no pattern before it in the table matches anywhere in it. What the
      spacing steps then make of the output is what comes back. */
  lemma PhraseCommand(t: string, c: nat, j: nat)
    requires c < |Commands| && j < |Commands[c].patterns|
    requires MatchHere(false, t, Commands[c].patterns[j]) && |t| == |Commands[c].patterns[j]|
    requires NoEscape(false, t)
    requires UnmatchedBefore(t, Commands, c)
    requires forall i :: 0 <= i < j ==> NoMatch(false, t, Commands[c].patterns[i])
    ensures ParseCommands(t) == FinishTrim(NormalizeSpacing(Commands[c].output))
  {
    TableShape();
    PhraseApplied(t, Commands, c, j);
    ParseUnescaped(t);
  }

  /** With nothing to escape, the pipeline is step 2 followed by the
      spacing steps. */
  lemma ParseUnescaped(t: string)
    requires t != [] && NoEscape(false, t)
    ensures ParseCommands(t) == FinishTrim(NormalizeSpacing(ApplyCommands(t, Commands)))
  {
    EscapeFromNoEscape(false, t, 0);
  }

  /** commandParser.ts:110-115: the single-word case of `PhraseCommand`.
      It needs only that no pattern before this one is the same word. */
  lemma WordCommand(w: string, c: nat, j: nat)
    requires AllWordChars(w)
    requires c < |Commands| && j < |Commands[c].patterns|
    requires AsciiLower(w) == Commands[c].patterns[j]
    requires forall k, i :: 0 <= k < c && 0 <= i < |Commands[k].patterns| ==> Commands[k].patterns[i] != AsciiLower(w)
    requires forall i :: 0 <= i < j ==> Commands[c].patterns[i] != AsciiLower(w)
    ensures ParseCommands(w) == FinishTrim(NormalizeSpacing(Commands[c].output))
  {
    var p := Commands[c].patterns[j];
    TableShape();
    assert PatternShape(p);
    assert AsciiLower(w)[0] == LowerChar(w[0]);
    NoEscapeWord(w);
    assert w[..|p|] == w;
    forall k, i | 0 <= k < c && 0 <= i < |Commands[k].patterns|
      ensures NoMatch(false, w, Commands[k].patterns[i])
    {
      NoMatchOtherWord(w, Commands[k].patterns[i]);
    }
    forall i | 0 <= i < j
      ensures NoMatch(false, w, Commands[c].patterns[i])
    {
      NoMatchOtherWord(w, Commands[c].patterns[i]);
    }
    PhraseCommand(w, c, j);
  }

  /** commandParser.ts:110-115: a word that is no pattern, and does not
      start with `l`, is left as it is; a command word inside a longer
      word is not a match. */
  lemma OtherWordUnchanged(w: string)
    requires w != [] && AllWordChars(w) && LowerChar(w[0]) != 'l'
    requires forall k, i :: 0 <= k < |Commands| && 0 <= i < |Commands[k].patterns| ==> Commands[k].patterns[i] != AsciiLower(w)
    ensures ParseCommands(w) == w
  {
    TableShape();
    NoEscapeWord(w);
    forall k, i | 0 <= k < |Commands| && 0 <= i < |Commands[k].patterns|
      ensures NoMatch(false, w, Commands[k].patterns[i])
    {
      NoMatchOtherWord(w, Commands[k].patterns[i]);
    }
    WordPlain(w);
    PlainTextUnchanged(w);
  }

  // ---------------------------------------------------------------------
  // Escaping with `literal`

  lemma {:induction false} SubstituteWithoutDollar(rep: string, matched: string, before: string, after: string)
    requires forall i :: 0 <= i < |rep| ==> rep[i] != '$'
    ensures Substitute(rep, matched, before, after) == rep
    decreases |rep|
  {
    if rep != [] {
      SubstituteWithoutDollar(rep[1..], matched, before, after);
    }
  }

  lemma {:induction false} NonWhitespaceRunAll(s: string)
    requires forall i :: 0 <= i < |s| ==> !IsWhitespace(s[i])
    ensures NonWhitespaceRun(s) == |s|
    decreases |s|
  {
    if s != [] {
      NonWhitespaceRunAll(s[1..]);
    }
  }

  /** Step 1 on `literal`, white space and one token. */
  lemma EscapeOneToken(lit: string, sep: string, token: string)
    requires AsciiLower(lit) == EscapeKeyword && AllWhitespace(sep)
    requires token != [] && forall i :: 0 <= i < |token| ==> !IsWhitespace(token[i])
    ensures EscapeFrom(false, lit + sep + token, 0) == Escapes(Placeholder(0), [EscapedWord(token)])
  {
    var t := lit + sep + token;
    var n := |EscapeKeyword|;
    assert |lit| == n;
    assert t[..n] == lit && t[n..] == sep + token;
    TrimStartOfPadded(sep, token);
    assert LowerChar(t[0]) == AsciiLower(lit)[0] == 'l';
    assert EscapeHere(false, t);
    NonWhitespaceRunAll(token);
    assert token[..|token|] == token && token[|token|..] == [];
    assert EscapeFrom(IsWordChar(token[|token| - 1]), [], 1) == Escapes([], []);
    assert Placeholder(0) + [] == Placeholder(0);
  }

  /** Step 2 leaves the first placeholder alone. */
  lemma PlaceholderUntouched()
    ensures ApplyCommands(Placeholder(0), Commands) == Placeholder(0)
  {
    TableShape();
    forall k, i | 0 <= k < |Commands| && 0 <= i < |Commands[k].patterns|
      ensures NoMatch(false, Placeholder(0), Commands[k].patterns[i])
    {
      NoMatchInPlaceholder(Commands[k].patterns[i]);
    }
    ApplyCommandsUntouched(Placeholder(0), Commands);
  }

  /** What the only placeholder becomes in step 3. */
  function RestoredAlone(r: Replacement): string {
    match r
    case Literal(t) => t
    case Replacer(name) => ReplacerResult(name, Placeholder(0))
  }

  /** A replacement without `$` sequences. */
  predicate DollarFree(r: Replacement) {
    r.Literal? ==> forall i :: 0 <= i < |r.text| ==> r.text[i] != '$'
  }

  /** Step 3 puts the escaped word back in place of its placeholder, and
      throws exactly when the word is an inherited method that throws. */
  lemma RestorePlaceholder(r: Replacement)
    requires DollarFree(r)
    ensures RestoreFrom(Placeholder(0), [r], 0) == RestoredAlone(r)
    ensures RestoreThrows(Placeholder(0), [r], 0) <==> r.Replacer? && ReplacerThrows(r.name)
  {
    ReplaceAlone(Placeholder(0), r);
  }

  /** Replacing a whole text: the match is at 0 and the result is the
      replacement alone. */
  lemma ReplaceAlone(p: string, r: Replacement)
    requires DollarFree(r)
    ensures IndexOf(p, p, 0) == Some(0)
    ensures ReplaceFirst(p, p, r) == if r.Literal? then r.text else ReplacerResult(r.name, p)
  {
    assert p[0..|p|] == p;
    assert p[..0] == [] && p[|p|..] == [];
    if r.Literal? {
      SubstituteWithoutDollar(r.text, p, [], []);
    }
  }

  /** commandParser.ts:88, 102-107, 118-120: `literal`, in any case, then
      any white space (none at all included), then one token: the token
      gives way to a placeholder that no command touches, and the value
      `punctToWord[token] || token` takes its place before the spacing
      steps; the parse throws exactly when that value is an inherited
      method that throws when called. */
  lemma EscapeToken(lit: string, sep: string, token: string)
    requires AsciiLower(lit) == EscapeKeyword && AllWhitespace(sep)
    requires token != [] && forall i :: 0 <= i < |token| ==> !IsWhitespace(token[i])
    requires DollarFree(EscapedWord(token))
    ensures ParseThrows(lit + sep + token) <==> EscapedWord(token).Replacer? && ReplacerThrows(EscapedWord(token).name)
    ensures ParseCommands(lit + sep + token) == FinishTrim(NormalizeSpacing(RestoredAlone(EscapedWord(token))))
  {
    EscapeOneToken(lit, sep, token);
    PlaceholderUntouched();
    RestorePlaceholder(EscapedWord(token));
  }

  /** A word holds no white space, no `$` and no spacing mark. */
  lemma WordPlain(w: string)
    requires AllWordChars(w)
    ensures forall i :: 0 <= i < |w| ==> !IsWhitespace(w[i]) && w[i] != '$'
    ensures NoSpacingMarks(w)
  {
    forall i | 0 <= i < |w| ensures !IsWhitespace(w[i]) && w[i] != '$' && !IsSpacingMark(w[i]) {
      assert IsWordChar(w[i]);
    }
  }

  /** commandParser.test.ts:202-226: `literal` followed by a word gives the
      word unconverted, whatever it is; the keyword's case does not matter
      and nothing need separate it from the word, so `literalmente` gives
      `mente`. */
  lemma EscapeWord(lit: string, sep: string, w: string)
    requires AsciiLower(lit) == EscapeKeyword && AllWhitespace(sep)
    requires w != [] && AllWordChars(w)
    ensures !IsInheritedName(w) ==> !ParseThrows(lit + sep + w) && ParseCommands(lit + sep + w) == w
  {
    if !IsInheritedName(w) {
      WordPlain(w);
      if |w| == 1 {
        PunctToWordOfWordChar(w[0]);
      }
      EscapeToken(lit, sep, w);
      NormalizeSpacingUnmarked(w);
      FinishTrimUntrimmed(w);
    }
  }

  /** `literal` and a word: the word's lookup value takes the place of its
      placeholder. */
  lemma EscapeWordToken(lit: string, sep: string, w: string)
    requires AsciiLower(lit) == EscapeKeyword && AllWhitespace(sep)
    requires w != [] && AllWordChars(w) && DollarFree(EscapedWord(w))
    ensures ParseThrows(lit + sep + w) <==> EscapedWord(w).Replacer? && ReplacerThrows(EscapedWord(w).name)
    ensures ParseCommands(lit + sep + w) == FinishTrim(NormalizeSpacing(RestoredAlone(EscapedWord(w))))
  {
    WordPlain(w);
    EscapeToken(lit, sep, w);
  }

  /** `literal constructor`: `Object` is called on the placeholder, so the
      placeholder itself stays in the output. */
  lemma EscapeConstructor(lit: string, sep: string)
    requires AsciiLower(lit) == EscapeKeyword && AllWhitespace(sep)
    ensures !ParseThrows(lit + sep + "constructor")
    ensures ParseCommands(lit + sep + "constructor") == Placeholder(0)
  {
    var w := "constructor";
    assert AllWordChars(w) && EscapedWord(w) == Replacer(w);
    EscapeWordToken(lit, sep, w);
    assert RestoredAlone(Replacer(w)) == Placeholder(0);
    PlaceholderSpacing(0);
  }

  /** The first placeholder comes through the spacing steps and the trim
      as it is. */
  lemma PlaceholderSpacing(i: nat)
    ensures FinishTrim(NormalizeSpacing(Placeholder(i))) == Placeholder(i)
  {
    var p := Placeholder(i);
    var digits := Decimal(i);
    DecimalWordChars(i);
    WordPlain(digits);
    assert p == [Nul, 'E', 'S', 'C'] + digits + [Nul];
    forall j | 0 <= j < |p|
      ensures !IsSpacingMark(p[j])
    {
      if 4 <= j < |p| - 1 {
        assert p[j] == digits[j - 4];
      }
    }
    NormalizeSpacingUnmarked(p);
    FinishTrimUntrimmed(p);
  }

  lemma {:induction false} DecimalWordChars(n: nat)
    ensures AllWordChars(Decimal(n))
    decreases n
  {
    if n >= 10 {
      DecimalWordChars(n / 10);
      var d := Decimal(n / 10);
      assert Decimal(n) == d + [DigitChar(n % 10)];
      forall j | 0 <= j < |Decimal(n)|
        ensures IsWordChar(Decimal(n)[j])
      {
        if j < |d| {
          assert Decimal(n)[j] == d[j];
        }
      }
    }
  }

  /** `literal` and a word whose lookup value does not throw and comes
      through the spacing steps as `v`. */
  lemma EscapeWordGives(lit: string, sep: string, w: string, v: string)
    requires AsciiLower(lit) == EscapeKeyword && AllWhitespace(sep)
    requires w != [] && AllWordChars(w) && DollarFree(EscapedWord(w))
    requires !(EscapedWord(w).Replacer? && ReplacerThrows(EscapedWord(w).name))
    requires RestoredAlone(EscapedWord(w)) == v && FinishTrim(NormalizeSpacing(v)) == v
    ensures !ParseThrows(lit + sep + w) && ParseCommands(lit + sep + w) == v
  {
    EscapeWordToken(lit, sep, w);
  }

  /** `literal isPrototypeOf` gives `false`. */
  lemma EscapeIsPrototypeOf(lit: string, sep: string)
    requires AsciiLower(lit) == EscapeKeyword && AllWhitespace(sep)
    ensures !ParseThrows(lit + sep + "isPrototypeOf")
    ensures ParseCommands(lit + sep + "isPrototypeOf") == "false"
  {
    IsPrototypeOfLookup();
    FalseSpacing();
    EscapeWordGives(lit, sep, "isPrototypeOf", "false");
  }

  lemma IsPrototypeOfLookup()
    ensures AllWordChars("isPrototypeOf") && EscapedWord("isPrototypeOf") == Replacer("isPrototypeOf")
    ensures RestoredAlone(Replacer("isPrototypeOf")) == "false"
  {
  }

  lemma FalseSpacing()
    ensures FinishTrim(NormalizeSpacing("false")) == "false"
  {
    WordSpacing("false");
  }

  /** `literal toString` gives `[object Undefined]`. */
  lemma EscapeToString(lit: string, sep: string)
    requires AsciiLower(lit) == EscapeKeyword && AllWhitespace(sep)
    ensures !ParseThrows(lit + sep + "toString")
    ensures ParseCommands(lit + sep + "toString") == "[object Undefined]"
  {
    ToStringLookup();
    ObjectUndefinedSpacing();
    EscapeWordGives(lit, sep, "toString", "[object Undefined]");
  }

  lemma ToStringLookup()
    ensures AllWordChars("toString") && EscapedWord("toString") == Replacer("toString")
    ensures RestoredAlone(Replacer("toString")) == "[object Undefined]"
  {
  }

  lemma ObjectUndefinedSpacing()
    ensures FinishTrim(NormalizeSpacing("[object Undefined]")) == "[object Undefined]"
  {
    ObjectTagSpacing("Undefined");
    assert "[object " + "Undefined" + "]" == "[object Undefined]";
  }

  /** `[object <name>]`, the form `Object.prototype.toString` gives,
      comes through the spacing steps and the trim as it is. */
  lemma ObjectTagSpacing(name: string)
    requires name != [] && AllWordChars(name)
    ensures FinishTrim(NormalizeSpacing("[object " + name + "]")) == "[object " + name + "]"
  {
    BracketedPhrase("object", name);
    assert "[" + "object" + " " + name + "]" == "[object " + name + "]";
  }

  /** `literal __proto__` gives `[object Object]`. */
  lemma EscapeProto(lit: string, sep: string)
    requires AsciiLower(lit) == EscapeKeyword && AllWhitespace(sep)
    ensures !ParseThrows(lit + sep + "__proto__")
    ensures ParseCommands(lit + sep + "__proto__") == "[object Object]"
  {
    ProtoLookup();
    ObjectObjectSpacing();
    EscapeWordGives(lit, sep, "__proto__", "[object Object]");
  }

  lemma ProtoLookup()
    ensures AllWordChars("__proto__") && EscapedWord("__proto__") == Literal("[object Object]")
    ensures DollarFree(Literal("[object Object]"))
  {
  }

  lemma ObjectObjectSpacing()
    ensures FinishTrim(NormalizeSpacing("[object Object]")) == "[object Object]"
  {
    ObjectTagSpacing("Object");
    assert "[object " + "Object" + "]" == "[object Object]";
  }

  /** `literal valueOf`, `literal hasOwnProperty` and the other inherited
      methods that need an object for `this` make the parse throw. */
  lemma EscapeThrowingMethod(lit: string, sep: string, name: string)
    requires AsciiLower(lit) == EscapeKeyword && AllWhitespace(sep)
    requires name in PrototypeMethods && ReplacerThrows(name)
    ensures ParseThrows(lit + sep + name)
  {
    PrototypeMethodWord(name);
    EscapeWordToken(lit, sep, name);
  }

  /** The inherited method names are words, and the lookup finds them as
      methods. */
  lemma PrototypeMethodWord(name: string)
    requires name in PrototypeMethods
    ensures name != [] && AllWordChars(name) && EscapedWord(name) == Replacer(name)
  {
    PrototypeMethodChars(name);
  }

  lemma PrototypeMethodChars(name: string)
    requires name in PrototypeMethods
    ensures forall i :: 0 <= i < |name| ==> 'a' <= name[i] <= 'z' || 'A' <= name[i] <= 'Z' || name[i] == '_'
  {
  }

  /** A word comes through the spacing steps and the trim as it is. */
  lemma WordSpacing(w: string)
    requires w != [] && AllWordChars(w)
    ensures FinishTrim(NormalizeSpacing(w)) == w
  {
    WordPlain(w);
    NormalizeSpacingUnmarked(w);
    FinishTrimUntrimmed(w);
  }

  /** `[a b]` with two words comes through the spacing steps and the trim
      as it is. */
  lemma BracketedPhrase(a: string, b: string)
    requires a != [] && b != [] && AllWordChars(a) && AllWordChars(b)
    ensures FinishTrim(NormalizeSpacing("[" + a + " " + b + "]")) == "[" + a + " " + b + "]"
  {
    var s := "[" + a + " " + b + "]";
    WordPlain(a);
    WordPlain(b);
    assert forall i :: 0 <= i < |s| ==> s[i] == '[' || s[i] == ']' || s[i] == ' ' || IsWordChar(s[i]) by {
      forall i | 0 <= i < |s| ensures s[i] == '[' || s[i] == ']' || s[i] == ' ' || IsWordChar(s[i]) {
        if 1 <= i < 1 + |a| { assert s[i] == a[i - 1]; }
        else if 2 + |a| <= i < 2 + |a| + |b| { assert s[i] == b[i - 2 - |a|]; }
      }
    }
    assert forall i :: 0 < i < |s| && s[i] in AttachLeft ==> s[i - 1] != ' ' by {
      forall i | 0 < i < |s| && s[i] in AttachLeft ensures s[i - 1] != ' ' {
        assert i == |s| - 1;
        assert s[i - 1] == b[|b| - 1];
      }
    }
    NormalizeSpacingTight(s);
    FinishTrimUntrimmed(s);
  }

  /** The spacing steps leave alone text whose only spacing marks are
      closing marks with no space before them. */
  lemma NormalizeSpacingTight(s: string)
    requires forall i :: 0 <= i < |s| ==> IsSpacingMark(s[i]) ==> s[i] in AttachLeft && s[i] != '.'
    requires forall i :: 0 < i < |s| && s[i] in AttachLeft ==> s[i - 1] != ' '
    ensures NormalizeSpacing(s) == s
  {
    forall i | 0 <= i < |s|
      ensures s[i] != OpenMark && s[i] != CloseMark && s[i] != HashMark && s[i] != Nbsp
      ensures s[i] != '@' && s[i] != '.'
    {
      if IsSpacingMark(s[i]) {
        assert s[i] in AttachLeft && s[i] != '.';
      }
    }
    JoinOpeningBracketsUnmarked(s);
    JoinOpeningQuotesUnmarked(s);
    DropSpacesBeforeNoTarget(s, {CloseMark});
    RemoveCharAbsent(s, CloseMark);
    DropSpacesBeforeTargetsTight(s, AttachLeft);
    DropSpacesBeforeNoTarget(s, {'@'});
    DropSpacesAfterNoLead(s, "@", "@");
    DropSpacesBeforeDotComNoDot(s);
    DropSpacesAfterNoLead(s, [HashMark, '#'], "#");
    DropSpacesBeforeNoTarget(s, {Nbsp});
    DropSpacesAfterNoLead(s, [Nbsp], [Nbsp]);
    NbspToSpaceAbsent(s);
  }

  /** Dropping spaces before the targets changes nothing when no target
      has a space before it. */
  lemma {:induction false} DropSpacesBeforeTargetsTight(s: string, targets: set<char>)
    requires forall i :: 0 < i < |s| && s[i] in targets ==> s[i - 1] != ' '
    ensures DropSpacesBefore(s, targets) == s
    decreases |s|
  {
    if s != [] {
      SpaceRunSpec(s);
      DropSpacesBeforeTargetsTight(s[1..], targets);
      assert [s[0]] + s[1..] == s;
    }
  }

  lemma PunctToWordOfWordChar(c: char)
    requires IsWordChar(c)
    ensures PunctToWord(c).None?
  {
  }

  /** Lower-case letters and single inner spaces. */
  predicate SpokenWord(word: string) {
    && word != [] && word[0] != ' ' && word[|word| - 1] != ' '
    && forall i :: 0 <= i < |word| ==> 'a' <= word[i] <= 'z' || word[i] == ' '
  }

  /** The words `punctToWord` maps back to are spoken words. */
  lemma PunctWordSpoken(c: char)
    requires PunctToWord(c).Some?
    ensures SpokenWord(PunctToWord(c).value)
  {
    if c in {'.', ',', ':', ';', '?'} { PunctWordSpokenA(c); }
    else if c in {'!', '-', '@', '#', '$'} { PunctWordSpokenB(c); }
    else if c in {'%', '(', ')', '[', ']'} { PunctWordSpokenC(c); }
    else { PunctWordSpokenD(c); }
  }

  lemma PunctWordSpokenA(c: char)
    requires c in {'.', ',', ':', ';', '?'}
    ensures SpokenWord(PunctToWord(c).value)
  {
    if c == '.' { assert SpokenWord("punto"); }
    else if c == ',' { assert SpokenWord("coma"); }
    else if c == ':' { assert SpokenWord("dos puntos"); }
    else if c == ';' { assert SpokenWord("punto y coma"); }
    else { assert SpokenWord("interrogacion"); }
  }

  lemma PunctWordSpokenB(c: char)
    requires c in {'!', '-', '@', '#', '$'}
    ensures SpokenWord(PunctToWord(c).value)
  {
    if c == '!' { assert SpokenWord("exclamacion"); }
    else if c == '-' { assert SpokenWord("guion"); }
    else if c == '@' { assert SpokenWord("arroba"); }
    else if c == '#' { assert SpokenWord("hashtag"); }
    else { assert SpokenWord("pesos"); }
  }

  lemma PunctWordSpokenC(c: char)
    requires c in {'%', '(', ')', '[', ']'}
    ensures SpokenWord(PunctToWord(c).value)
  {
    if c == '%' { assert SpokenWord("porcentaje"); }
    else if c == '(' { assert SpokenWord("abre parentesis"); }
    else if c == ')' { assert SpokenWord("cierra parentesis"); }
    else if c == '[' { assert SpokenWord("abre corchete"); }
    else { assert SpokenWord("cierra corchete"); }
  }

  lemma PunctWordSpokenD(c: char)
    requires c in {'{', '}', '"', '\''}
    ensures SpokenWord(PunctToWord(c).value)
  {
    if c == '{' { assert SpokenWord("abre llave"); }
    else if c == '}' { assert SpokenWord("cierra llave"); }
    else if c == '"' { assert SpokenWord("comillas"); }
    else { assert SpokenWord("comilla simple"); }
  }

  lemma SpokenWordPlain(word: string)
    requires SpokenWord(word)
    ensures !IsWhitespace(word[0]) && !IsWhitespace(word[|word| - 1])
    ensures forall i :: 0 <= i < |word| ==> word[i] != '$'
    ensures NoSpacingMarks(word)
  {
    assert forall i :: 0 <= i < |word| ==> !IsSpacingMark(word[i]);
  }

  /** commandParser.ts:92-107: `literal` followed by a punctuation mark
      the recogniser produced gives the mark's spoken word, unconverted
      (`literal ,` gives `coma`, not `,`). */
  lemma EscapePunctuation(lit: string, sep: string, c: char)
    requires AsciiLower(lit) == EscapeKeyword && AllWhitespace(sep)
    requires PunctToWord(c).Some?
    ensures !ParseThrows(lit + sep + [c])
    ensures ParseCommands(lit + sep + [c]) == PunctToWord(c).value
  {
    var word := PunctToWord(c).value;
    PunctWordSpoken(c);
    SpokenWordPlain(word);
    assert !IsWhitespace(c);
    assert EscapedWord([c]) == Literal(word);
    EscapeToken(lit, sep, [c]);
    NormalizeSpacingUnmarked(word);
    FinishTrimUntrimmed(word);
  }

  // ---------------------------------------------------------------------
  // The spacing steps on a result without spaces

  lemma {:induction false} DropSpacesBeforeNoSpace(s: string, targets: set<char>)
    requires forall i :: 0 <= i < |s| ==> s[i] != ' '
    ensures DropSpacesBefore(s, targets) == s
    decreases |s|
  {
    if s != [] {
      DropSpacesBeforeNoSpace(s[1..], targets);
      assert [s[0]] + s[1..] == s;
    }
  }

  lemma {:induction false} DropSpacesBeforeDotComNoSpace(s: string)
    requires forall i :: 0 <= i < |s| ==> s[i] != ' '
    ensures DropSpacesBeforeDotCom(s) == s
    decreases |s|
  {
    if s != [] {
      DropSpacesBeforeDotComNoSpace(s[1..]);
      assert [s[0]] + s[1..] == s;
    }
  }

  lemma {:induction false} DropSpacesAfterNoSpace(s: string, lead: string)
    requires lead != []
    requires forall i :: 0 <= i < |s| ==> s[i] != ' '
    ensures DropSpacesAfter(s, lead, lead) == s
    decreases |s|
  {
    if s != [] {
      if |lead| <= |s| && s[..|lead|] == lead {
        DropSpacesAfterNoSpace(s[|lead|..], lead);
        assert s[..|lead|] + s[|lead|..] == s;
      } else {
        DropSpacesAfterNoSpace(s[1..], lead);
        assert [s[0]] + s[1..] == s;
      }
    }
  }

  /** No space, no mark, and no white space at either end. */
  predicate Spaceless(s: string) {
    && s != [] && !IsWhitespace(s[0]) && !IsWhitespace(s[|s| - 1])
    && forall i :: 0 <= i < |s| ==> s[i] != ' ' && s[i] != OpenMark && s[i] != CloseMark && s[i] != HashMark && s[i] != Nbsp
  }

  /** A result with no space and no mark comes through the spacing steps
      as it is. */
  lemma SpacelessUnchanged(s: string)
    requires Spaceless(s)
    ensures FinishTrim(NormalizeSpacing(s)) == s
  {
    JoinOpeningBracketsUnmarked(s);
    JoinOpeningQuotesUnmarked(s);
    DropSpacesBeforeNoTarget(s, {CloseMark});
    RemoveCharAbsent(s, CloseMark);
    DropSpacesBeforeNoSpace(s, AttachLeft);
    DropSpacesBeforeNoSpace(s, {'@'});
    DropSpacesAfterNoSpace(s, "@");
    DropSpacesBeforeDotComNoSpace(s);
    DropSpacesAfterNoLead(s, [HashMark, '#'], "#");
    DropSpacesBeforeNoTarget(s, {Nbsp});
    DropSpacesAfterNoLead(s, [Nbsp], [Nbsp]);
    NbspToSpaceAbsent(s);
    FinishTrimUntrimmed(s);
  }

  // ---------------------------------------------------------------------
  // The words of the tests against the table

  /** The single words the tests speak, and the ones they use to show
      that a command inside a longer word is not one. */
  predicate Probe(w: string) {
    w in {"interrogacion", "exclamacion", "espacio", "punto", "guion", "coma", "arroba",
          "contrapunto", "comadreja", "puntoaparte"}
  }

  /** The index of the command a probe word belongs to (the table's size
      when it belongs to none). */
  function Home(w: string): nat {
    if w == "interrogacion" then 0
    else if w == "exclamacion" then 1
    else if w == "espacio" then 19
    else if w == "punto" then 20
    else if w == "guion" then 21
    else if w == "coma" then 23
    else if w == "arroba" then 24
    else |Commands|
  }

  lemma Differ0(w: string, k: nat)
    requires Probe(w) && k < 3 && k < Home(w)
    ensures forall i :: 0 <= i < |Commands[k].patterns| ==> Commands[k].patterns[i] != w
  {
    if k == 0 {} else if k == 1 {} else {}
  }

  lemma Differ3(w: string, k: nat)
    requires Probe(w) && 3 <= k < 6 && k < Home(w)
    ensures forall i :: 0 <= i < |Commands[k].patterns| ==> Commands[k].patterns[i] != w
  {
    if k == 3 {} else if k == 4 {} else {}
  }

  lemma Differ6(w: string, k: nat)
    requires Probe(w) && 6 <= k < 9 && k < Home(w)
    ensures forall i :: 0 <= i < |Commands[k].patterns| ==> Commands[k].patterns[i] != w
  {
    if k == 6 {} else if k == 7 {} else {}
  }

  lemma Differ9(w: string, k: nat)
    requires Probe(w) && 9 <= k < 12 && k < Home(w)
    ensures forall i :: 0 <= i < |Commands[k].patterns| ==> Commands[k].patterns[i] != w
  {
    if k == 9 {} else if k == 10 {} else {}
  }

  lemma Differ12(w: string, k: nat)
    requires Probe(w) && 12 <= k < 15 && k < Home(w)
    ensures forall i :: 0 <= i < |Commands[k].patterns| ==> Commands[k].patterns[i] != w
  {
    if k == 12 {} else if k == 13 {} else {}
  }

  lemma Differ15(w: string, k: nat)
    requires Probe(w) && 15 <= k < 18 && k < Home(w)
    ensures forall i :: 0 <= i < |Commands[k].patterns| ==> Commands[k].patterns[i] != w
  {
    if k == 15 {} else if k == 16 {} else {}
  }

  lemma Differ18(w: string, k: nat)
    requires Probe(w) && 18 <= k < 21 && k < Home(w)
    ensures forall i :: 0 <= i < |Commands[k].patterns| ==> Commands[k].patterns[i] != w
  {
    if k == 18 {} else if k == 19 {} else {}
  }

  lemma Differ21(w: string, k: nat)
    requires Probe(w) && 21 <= k < 24 && k < Home(w)
    ensures forall i :: 0 <= i < |Commands[k].patterns| ==> Commands[k].patterns[i] != w
  {
    if k == 21 {} else if k == 22 {} else {}
  }

  lemma Differ24(w: string, k: nat)
    requires Probe(w) && 24 <= k < |Commands| && k < Home(w)
    ensures forall i :: 0 <= i < |Commands[k].patterns| ==> Commands[k].patterns[i] != w
  {
  }

  /** A probe word is no pattern of any command before its own. */
  lemma DifferBefore(w: string)
    requires Probe(w)
    ensures forall k, i :: 0 <= k < Home(w) && 0 <= i < |Commands[k].patterns| ==> Commands[k].patterns[i] != w
  {
    forall k | 0 <= k < Home(w)
      ensures forall i :: 0 <= i < |Commands[k].patterns| ==> Commands[k].patterns[i] != w
    {
      if k < 3 { Differ0(w, k); }
      else if k < 6 { Differ3(w, k); }
      else if k < 9 { Differ6(w, k); }
      else if k < 12 { Differ9(w, k); }
      else if k < 15 { Differ12(w, k); }
      else if k < 18 { Differ15(w, k); }
      else if k < 21 { Differ18(w, k); }
      else if k < 24 { Differ21(w, k); }
      else { Differ24(w, k); }
    }
  }

  /** A word spoken as the `j`-th pattern of its own command, in any
      ASCII case. */
  lemma ProbeCommand(w: string, j: nat)
    requires AllWordChars(w) && Probe(AsciiLower(w)) && Home(AsciiLower(w)) < |Commands|
    requires j < |Commands[Home(AsciiLower(w))].patterns|
    requires Commands[Home(AsciiLower(w))].patterns[j] == AsciiLower(w)
    requires forall i :: 0 <= i < j ==> Commands[Home(AsciiLower(w))].patterns[i] != AsciiLower(w)
    ensures ParseCommands(w) == FinishTrim(NormalizeSpacing(Commands[Home(AsciiLower(w))].output))
  {
    DifferBefore(AsciiLower(w));
    WordCommand(w, Home(AsciiLower(w)), j);
  }

  /** A probe word spoken as the `j`-th pattern of its own command, whose
      output `o` has no space and no mark, gives `o`. */
  lemma SpokenCommand(w: string, p: string, j: nat, o: string)
    requires AllWordChars(w) && AsciiLower(w) == p && Probe(p) && Home(p) < |Commands|
    requires j < |Commands[Home(p)].patterns| && Commands[Home(p)].patterns[j] == p
    requires forall i :: 0 <= i < j ==> Commands[Home(p)].patterns[i] != p
    requires Commands[Home(p)].output == o && Spaceless(o)
    ensures ParseCommands(w) == o
  {
    ProbeCommand(w, j);
    SpacelessUnchanged(o);
  }

  /** commandParser.test.ts:20-22, 147-153: `punto` in any case is `.`. */
  lemma SpokenPunto(w: string)
    requires AllWordChars(w) && AsciiLower(w) == "punto"
    ensures ParseCommands(w) == "."
  {
    SpokenCommand(w, "punto", 0, ".");
  }

  /** commandParser.test.ts:24-26, 155-157: `coma` in any case is `,`. */
  lemma SpokenComa(w: string)
    requires AllWordChars(w) && AsciiLower(w) == "coma"
    ensures ParseCommands(w) == ","
  {
    SpokenCommand(w, "coma", 0, ",");
  }

  /** commandParser.test.ts:36-38: `guion` is `-`. */
  lemma SpokenGuion(w: string)
    requires AllWordChars(w) && AsciiLower(w) == "guion"
    ensures ParseCommands(w) == "-"
  {
    SpokenCommand(w, "guion", 0, "-");
  }

  /** commandParser.test.ts:40-42: `interrogacion` is `?`. */
  lemma SpokenInterrogacion(w: string)
    requires AllWordChars(w) && AsciiLower(w) == "interrogacion"
    ensures ParseCommands(w) == "?"
  {
    SpokenCommand(w, "interrogacion", 2, "?");
  }

  /** commandParser.test.ts:48-50: `exclamacion` is `!`. */
  lemma SpokenExclamacion(w: string)
    requires AllWordChars(w) && AsciiLower(w) == "exclamacion"
    ensures ParseCommands(w) == "!"
  {
    SpokenCommand(w, "exclamacion", 2, "!");
  }

  /** commandParser.test.ts:58-60: `arroba` is `@`. */
  lemma SpokenArroba(w: string)
    requires AllWordChars(w) && AsciiLower(w) == "arroba"
    ensures ParseCommands(w) == "@"
  {
    SpokenCommand(w, "arroba", 0, "@");
  }

  /** commandParser.ts:47, 156-163 and commandParser.test.ts:254-256:
      `espacio` is one space, kept although the result is only white
      space. */
  lemma SpokenEspacio(w: string)
    requires AllWordChars(w) && AsciiLower(w) == "espacio"
    ensures ParseCommands(w) == " "
  {
    ProbeCommand(w, 0);
    NbspSpacing();
  }

  /** One explicit space alone comes out as a regular space. */
  lemma NbspSpacing()
    ensures FinishTrim(NormalizeSpacing([Nbsp])) == " "
  {
    var s := [Nbsp];
    JoinOpeningBracketsUnmarked(s);
    JoinOpeningQuotesUnmarked(s);
    DropSpacesBeforeNoTarget(s, {CloseMark});
    RemoveCharAbsent(s, CloseMark);
    DropSpacesBeforeNoTarget(s, AttachLeft);
    DropSpacesBeforeNoTarget(s, {'@'});
    DropSpacesAfterNoLead(s, "@", "@");
    DropSpacesBeforeDotComNoDot(s);
    DropSpacesAfterNoLead(s, [HashMark, '#'], "#");
    DropSpacesBeforeNoSpace(s, {Nbsp});
    DropSpacesAfterNoSpace(s, [Nbsp]);
    assert NbspToSpace(s) == [' '] + NbspToSpace([]);
    assert FinishTrim(" ") == " ";
  }

  /** commandParser.test.ts:169-181: a command word at the start or the
      end of a longer word is not a command, in any case. */
  lemma CompoundWordUnchanged(w: string)
    requires AllWordChars(w) && AsciiLower(w) in {"contrapunto", "comadreja", "puntoaparte"}
    ensures ParseCommands(w) == w
  {
    DifferBefore(AsciiLower(w));
    assert LowerChar(w[0]) == AsciiLower(w)[0];
    OtherWordUnchanged(w);
  }

  // ---------------------------------------------------------------------
  // Phrases of the tests against the table

  /** The multi-word phrases the tests speak, each with a letter it lacks
      and that every earlier pattern no longer than it has. */
  predicate PhraseProbe(p: string, x: char) {
    || (p == "abre parentesis" && x == 'c')
    || ((p == "punto y coma" || p == "dos puntos" || p == "punto com") && x == 'e')
  }

  /** The index of the command a probe phrase belongs to. */
  function PhraseHome(p: string): nat {
    if p == "abre parentesis" then 6
    else if p == "punto y coma" then 13
    else if p == "dos puntos" then 14
    else 15
  }

  /** Earlier pattern `q` cannot match inside a text spelling `p`. */
  predicate Avoids(q: string, p: string, x: char) {
    |q| > |p| || x in q
  }

  lemma Avoid0(p: string, x: char, k: nat)
    requires PhraseProbe(p, x) && k < 3 && k < PhraseHome(p)
    ensures forall i :: 0 <= i < |Commands[k].patterns| ==> Avoids(Commands[k].patterns[i], p, x)
  {
    if k == 0 {} else if k == 1 {} else {}
  }

  lemma Avoid3(p: string, x: char, k: nat)
    requires PhraseProbe(p, x) && 3 <= k < 6 && k < PhraseHome(p)
    ensures forall i :: 0 <= i < |Commands[k].patterns| ==> Avoids(Commands[k].patterns[i], p, x)
  {
    if k == 3 {} else if k == 4 {} else {}
  }

  lemma Avoid6(p: string, x: char, k: nat)
    requires PhraseProbe(p, x) && 6 <= k < 9 && k < PhraseHome(p)
    ensures forall i :: 0 <= i < |Commands[k].patterns| ==> Avoids(Commands[k].patterns[i], p, x)
  {
    if k == 6 {} else if k == 7 {} else {}
  }

  lemma Avoid9(p: string, x: char, k: nat)
    requires PhraseProbe(p, x) && 9 <= k < 12 && k < PhraseHome(p)
    ensures forall i :: 0 <= i < |Commands[k].patterns| ==> Avoids(Commands[k].patterns[i], p, x)
  {
    if k == 9 {} else if k == 10 {} else {}
  }

  lemma Avoid12(p: string, x: char, k: nat)
    requires PhraseProbe(p, x) && 12 <= k < PhraseHome(p)
    ensures forall i :: 0 <= i < |Commands[k].patterns| ==> Avoids(Commands[k].patterns[i], p, x)
  {
    if k == 12 {} else if k == 13 {} else {}
  }

  /** The probe phrases lack their letter, and `l`. */
  lemma PhraseLetters(p: string, x: char)
    requires PhraseProbe(p, x)
    ensures x !in p && 'l' !in p
    ensures |p| > 0 && 'a' <= p[0] <= 'z' && 'a' <= p[|p| - 1] <= 'z'
  {
    if p == "abre parentesis" {
    } else if p == "punto y coma" {
    } else if p == "dos puntos" {
    } else {
    }
  }

  lemma LowerLetter(c: char)
    requires 'a' <= LowerChar(c) <= 'z'
    ensures IsWordChar(c)
  {
  }

  /** No pattern before a probe phrase's own command matches anywhere in
      it. */
  lemma PhraseUnmatched(t: string, p: string, x: char)
    requires PhraseProbe(p, x) && AsciiLower(t) == p
    ensures PhraseHome(p) <= |Commands| && UnmatchedBefore(t, Commands, PhraseHome(p))
  {
    PhraseLetters(p, x);
    forall i | 0 <= i < |t|
      ensures LowerChar(t[i]) != x
    {
      assert AsciiLower(t)[i] == LowerChar(t[i]);
    }
    forall k, i | 0 <= k < PhraseHome(p) && 0 <= i < |Commands[k].patterns|
      ensures NoMatch(false, t, Commands[k].patterns[i])
    {
      if k < 3 { Avoid0(p, x, k); }
      else if k < 6 { Avoid3(p, x, k); }
      else if k < 9 { Avoid6(p, x, k); }
      else if k < 12 { Avoid9(p, x, k); }
      else { Avoid12(p, x, k); }
      var q := Commands[k].patterns[i];
      if |q| > |p| {
        NoMatchShort(false, t, q);
      } else {
        NoMatchAbsentChar(false, t, q, x);
      }
    }
  }

  /** A probe phrase spoken in any ASCII case is its command. */
  lemma PhraseProbeCommand(t: string, p: string, x: char)
    requires PhraseProbe(p, x) && AsciiLower(t) == p
    requires PhraseHome(p) < |Commands| && Commands[PhraseHome(p)].patterns != []
    requires Commands[PhraseHome(p)].patterns[0] == p
    ensures ParseCommands(t) == FinishTrim(NormalizeSpacing(Commands[PhraseHome(p)].output))
  {
    PhraseLetters(p, x);
    forall i | 0 <= i < |t|
      ensures LowerChar(t[i]) != 'l'
    {
      assert AsciiLower(t)[i] == LowerChar(t[i]);
    }
    NoEscapeWithoutL(false, t);
    assert t[..|p|] == t;
    assert LowerChar(t[0]) == p[0] && LowerChar(t[|t| - 1]) == p[|p| - 1];
    LowerLetter(t[0]);
    LowerLetter(t[|t| - 1]);
    assert MatchHere(false, t, p);
    PhraseUnmatched(t, p, x);
    PhraseCommand(t, PhraseHome(p), 0);
  }

  /** A probe phrase whose command's output has no space and no mark
      gives that output. */
  lemma PhraseSpoken(t: string, p: string, x: char, o: string)
    requires PhraseProbe(p, x) && AsciiLower(t) == p
    requires PhraseHome(p) < |Commands| && Commands[PhraseHome(p)].patterns != []
    requires Commands[PhraseHome(p)].patterns[0] == p
    requires Commands[PhraseHome(p)].output == o && Spaceless(o)
    ensures ParseCommands(t) == o
  {
    PhraseProbeCommand(t, p, x);
    SpacelessUnchanged(o);
  }

  /** A probe phrase whose command opens a bracket gives the bracket. */
  lemma PhraseSpokenOpening(t: string, p: string, x: char, b: char)
    requires PhraseProbe(p, x) && AsciiLower(t) == p
    requires PhraseHome(p) < |Commands| && Commands[PhraseHome(p)].patterns != []
    requires Commands[PhraseHome(p)].patterns[0] == p
    requires Commands[PhraseHome(p)].output == [OpenMark, b]
    requires IsOpeningBracket(b) && Spaceless([b])
    ensures ParseCommands(t) == [b]
  {
    PhraseProbeCommand(t, p, x);
    OpeningSpacing(b);
  }

  /** An opening bracket alone loses its marker and nothing else. */
  lemma OpeningSpacing(b: char)
    requires IsOpeningBracket(b) && Spaceless([b])
    ensures FinishTrim(NormalizeSpacing([OpenMark, b])) == [b]
  {
    JoinOpeningBracketsHead(0, b, 0, []);
    assert Spaces(0) + ([OpenMark, b] + (Spaces(0) + [])) == [OpenMark, b];
    JoinOpeningBracketsUnmarked([b]);
    SpacelessUnchanged([b]);
  }

  /** commandParser.test.ts:28-30: `dos puntos` is `:`. */
  lemma SpokenDosPuntos(t: string)
    requires AsciiLower(t) == "dos puntos"
    ensures ParseCommands(t) == ":"
  {
    PhraseSpoken(t, "dos puntos", 'e', ":");
  }

  /** commandParser.test.ts:32-34: `punto y coma` is `;`, although
      `punto` and `coma` are commands of their own. */
  lemma SpokenPuntoYComa(t: string)
    requires AsciiLower(t) == "punto y coma"
    ensures ParseCommands(t) == ";"
  {
    PhraseSpoken(t, "punto y coma", 'e', ";");
  }

  /** commandParser.test.ts:138-140: `punto com` is `.com`. */
  lemma SpokenPuntoCom(t: string)
    requires AsciiLower(t) == "punto com"
    ensures ParseCommands(t) == ".com"
  {
    PhraseSpoken(t, "punto com", 'e', ".com");
  }

  /** commandParser.test.ts:84-86: `abre parentesis` is `(`, its marker
      removed by the spacing step. */
  lemma SpokenAbreParentesis(t: string)
    requires AsciiLower(t) == "abre parentesis"
    ensures ParseCommands(t) == "("
  {
    PhraseSpokenOpening(t, "abre parentesis", 'c', '(');
  }
}
