/** The mobile app's voice-command rewriter
    (mobile-app/src/services/commandParser.ts): Spanish command words such
    as "punto" or "abre parentesis" become punctuation, `literal X` keeps X
    as typed, and spaces around the produced symbols are tidied.

    Every regular expression the source builds is written out as a
    left-to-right scan with the same leftmost, greedy, global semantics.
    `\b` and `/i` are taken in JavaScript's non-Unicode sense: word
    characters are ASCII `[A-Za-z0-9_]`, and case folding only pairs ASCII
    letters. */
module CommandParser {
  import opened Common

  const Nul: char := '\U{0000}'
  /** Marks an opening bracket or quote in a command's output. */
  const OpenMark: char := '\U{0001}'
  /** Marks a closing quote in a command's output. */
  const CloseMark: char := '\U{0002}'
  /** Marks the `#` whose following spaces are dropped. */
  const HashMark: char := '\U{0003}'
  /** Stands for an explicit space ("espacio") until the very end. */
  const Nbsp: char := '\U{00A0}'

  /** `\w`: the characters on one side of a `\b`. */
  predicate IsWordChar(c: char) {
    ('a' <= c <= 'z') || ('A' <= c <= 'Z') || ('0' <= c <= '9') || c == '_'
  }

  predicate AllWordChars(s: string) {
    forall i :: 0 <= i < |s| ==> IsWordChar(s[i])
  }

  // ---------------------------------------------------------------------
  // escapeRegexChars

  /** The characters `escapeRegexChars` puts a backslash before. */
  predicate IsRegexSpecial(c: char) {
    || c == '.' || c == '*' || c == '+' || c == '?' || c == '^' || c == '$'
    || c == '{' || c == '}' || c == '(' || c == ')' || c == '|' || c == '['
    || c == ']' || c == '\\'
  }

  /** `escapeRegexChars`: a backslash before every special character. */
  function EscapeRegexChars(s: string): string {
    if s == [] then []
    else (if IsRegexSpecial(s[0]) then ['\\', s[0]] else [s[0]]) + EscapeRegexChars(s[1..])
  }

  /** How a regular expression reads an escaped source back: a backslash
      stands for the character after it. */
  function ReadEscaped(s: string): string
    decreases |s|
  {
    if s == [] then []
    else if s[0] == '\\' && |s| >= 2 then [s[1]] + ReadEscaped(s[2..])
    else [s[0]] + ReadEscaped(s[1..])
  }

  /** The escaped pattern denotes the pattern itself: reading it back as a
      regular expression gives the original characters. */
  lemma {:induction false} EscapeRegexCharsRoundTrip(s: string)
    ensures ReadEscaped(EscapeRegexChars(s)) == s
  {
    if s != [] {
      EscapeRegexCharsRoundTrip(s[1..]);
      var tail := EscapeRegexChars(s[1..]);
      if IsRegexSpecial(s[0]) {
        assert EscapeRegexChars(s) == ['\\', s[0]] + tail;
        assert (['\\', s[0]] + tail)[2..] == tail;
      } else {
        assert EscapeRegexChars(s) == [s[0]] + tail;
        assert ([s[0]] + tail)[1..] == tail;
      }
    }
  }

  /** A string without special characters is its own escaped form; every
      command pattern is such a string. */
  lemma {:induction false} EscapeRegexCharsPlain(s: string)
    requires forall i :: 0 <= i < |s| ==> !IsRegexSpecial(s[i])
    ensures EscapeRegexChars(s) == s
  {
    if s != [] {
      EscapeRegexCharsPlain(s[1..]);
    }
  }

  // ---------------------------------------------------------------------
  // Step 2's regular expression: \b<pattern>\b, global, case-insensitive

  /** `\b<p>\b` matches at the head of `s`; `prevWord` tells whether the
      character before `s` is a word character (false at the start). */
  predicate MatchHere(prevWord: bool, s: string, p: string) {
    && 0 < |p| <= |s|
    && AsciiLower(s[..|p|]) == p
    && prevWord != IsWordChar(s[0])
    && IsWordChar(s[|p| - 1]) != (|p| < |s| && IsWordChar(s[|p|]))
  }

  /** `s.replace(/\b<p>\b/gi, o)` on the rest `s` of a string, the part
      before it ending in a word character exactly when `prevWord`. The
      outputs of the command table hold no `$` sequences, so `o` is
      inserted as it is. */
  function ReplaceWord(prevWord: bool, s: string, p: string, o: string): string
    decreases |s|
  {
    if s == [] then []
    else if MatchHere(prevWord, s, p) then o + ReplaceWord(IsWordChar(s[|p| - 1]), s[|p|..], p, o)
    else [s[0]] + ReplaceWord(IsWordChar(s[0]), s[1..], p, o)
  }

  /** `\b<p>\b` matches nowhere in `s`. */
  predicate NoMatch(prevWord: bool, s: string, p: string)
    decreases |s|
  {
    s == [] || (!MatchHere(prevWord, s, p) && NoMatch(IsWordChar(s[0]), s[1..], p))
  }

  /** Where the pattern never matches, the replacement changes nothing. */
  lemma {:induction false} NoMatchUnchanged(prevWord: bool, s: string, p: string, o: string)
    requires NoMatch(prevWord, s, p)
    decreases |s|
    ensures ReplaceWord(prevWord, s, p, o) == s
  {
    if s != [] {
      NoMatchUnchanged(IsWordChar(s[0]), s[1..], p, o);
      assert [s[0]] + s[1..] == s;
    }
  }

  /** Inside a run of word characters there is no word boundary, so
      nothing matches. */
  lemma {:induction false} NoMatchInsideWord(s: string, p: string)
    requires AllWordChars(s)
    ensures NoMatch(true, s, p)
  {
    if s != [] {
      NoMatchInsideWord(s[1..], p);
    }
  }

  /** commandParser.ts:112: a single word is replaced only when the whole
      word is the pattern, in any letter case; a pattern inside a longer
      word ("contrapunto", "puntoaparte") is left alone. */
  lemma WholeWordOnly(w: string, p: string, o: string)
    requires w != [] && AllWordChars(w) && p != []
    ensures ReplaceWord(false, w, p, o) == if AsciiLower(w) == p then o else w
  {
    NoMatchInsideWord(w[1..], p);
    if AsciiLower(w) == p {
      assert MatchHere(false, w, p) by {
        assert w[..|p|] == w;
      }
      assert w[|p|..] == [];
    } else {
      NoMatchUnchanged(true, w[1..], p, o);
      assert [w[0]] + w[1..] == w;
    }
  }

  /** A word that is not the pattern contains no match of it. */
  lemma NoMatchOtherWord(w: string, p: string)
    requires w != [] && AllWordChars(w) && p != [] && AsciiLower(w) != p
    ensures NoMatch(false, w, p)
  {
    NoMatchInsideWord(w[1..], p);
  }

  /** A pattern whose character at `k` folds from no character of `s`
      cannot match anywhere in `s`. */
  lemma {:induction false} NoMatchMissingChar(prevWord: bool, s: string, p: string, k: nat)
    requires k < |p|
    requires forall i :: 0 <= i < |s| ==> LowerChar(s[i]) != p[k]
    ensures NoMatch(prevWord, s, p)
    decreases |s|
  {
    if s != [] {
      NoMatchMissingChar(IsWordChar(s[0]), s[1..], p, k);
    }
  }

  // ---------------------------------------------------------------------
  // Step 2: the command table, applied pattern by pattern

  /** A command: its spoken patterns (primary and aliases) and its output. */
  datatype CommandDef = CommandDef(patterns: seq<string>, output: string)

  /** `COMMANDS`, in the source's order: multi-word commands first. */
  const Commands: seq<CommandDef> := [
    CommandDef(["signo de interrogacion", "signo de interrogaci\U{00F3}n", "interrogacion", "interrogaci\U{00F3}n"], "?"),
    CommandDef(["signo de exclamacion", "signo de exclamaci\U{00F3}n", "exclamacion", "exclamaci\U{00F3}n"], "!"),
    CommandDef(["cierra comilla simple", "sierra comilla simple", "cierra comillas simple", "sierra comillas simple",
                "cierra comilla simples", "sierra comilla simples", "cierra comillas simples", "sierra comillas simples"],
               [CloseMark, '\'']),
    CommandDef(["abre comilla simple", "abre comillas simple", "abre comilla simples", "abre comillas simples"],
               [OpenMark, '\'']),
    CommandDef(["comilla simple", "comillas simple", "comilla simples", "comillas simples"], "'"),
    CommandDef(["cierra parentesis", "sierra parentesis", "cierra par\U{00E9}ntesis", "sierra par\U{00E9}ntesis"], ")"),
    CommandDef(["abre parentesis", "abre par\U{00E9}ntesis"], [OpenMark, '(']),
    CommandDef(["cierra corchete", "sierra corchete"], "]"),
    CommandDef(["abre corchete"], [OpenMark, '[']),
    CommandDef(["cierra comillas", "sierra comillas"], [CloseMark, '"']),
    CommandDef(["abre comillas"], [OpenMark, '"']),
    CommandDef(["cierra llave", "sierra llave"], "}"),
    CommandDef(["abre llave"], [OpenMark, '{']),
    CommandDef(["punto y coma"], ";"),
    CommandDef(["dos puntos"], ":"),
    CommandDef(["punto com"], ".com"),
    CommandDef(["porcentaje"], "%"),
    CommandDef(["hashtag", "numeral"], [HashMark, '#']),
    CommandDef(["comillas"], "\""),
    CommandDef(["espacio"], [Nbsp]),
    CommandDef(["punto"], "."),
    CommandDef(["guion", "gui\U{00F3}n"], "-"),
    CommandDef(["pesos", "dolar", "d\U{00F3}lar"], "$"),
    CommandDef(["coma"], ","),
    CommandDef(["arroba"], "@")
  ]

  /** One command: each of its patterns in turn, over the whole text. */
  function ApplyPatterns(s: string, patterns: seq<string>, output: string): string
    decreases |patterns|
  {
    if patterns == [] then s
    else ApplyPatterns(ReplaceWord(false, s, patterns[0], output), patterns[1..], output)
  }

  /** Step 2: the commands in table order. */
  function ApplyCommands(s: string, commands: seq<CommandDef>): string
    decreases |commands|
  {
    if commands == [] then s
    else ApplyCommands(ApplyPatterns(s, commands[0].patterns, commands[0].output), commands[1..])
  }

  // ---------------------------------------------------------------------
  // Step 1: `literal X`

  const EscapeKeyword: string := "literal"

  /** The length of the run of non-white-space characters `s` starts with. */
  function NonWhitespaceRun(s: string): (n: nat)
    ensures n <= |s|
  {
    if s != [] && !IsWhitespace(s[0]) then 1 + NonWhitespaceRun(s[1..]) else 0
  }

  /** `\bliteral[\s]*(\S+)`, case-insensitive, matches at the head of `s`:
      nothing is required between the keyword and the escaped word. */
  predicate EscapeHere(prevWord: bool, s: string) {
    && |s| >= |EscapeKeyword|
    && AsciiLower(s[..|EscapeKeyword|]) == EscapeKeyword
    && prevWord != IsWordChar(s[0])
    && TrimStart(s[|EscapeKeyword|..]) != []
  }

  /** `punctToWord`: punctuation the recogniser may already have produced,
      mapped back to its spoken command. */
  function PunctToWord(c: char): Option<string> {
    match c
    case '.' => Some("punto")
    case ',' => Some("coma")
    case ':' => Some("dos puntos")
    case ';' => Some("punto y coma")
    case '?' => Some("interrogacion")
    case '!' => Some("exclamacion")
    case '-' => Some("guion")
    case '@' => Some("arroba")
    case '#' => Some("hashtag")
    case '$' => Some("pesos")
    case '%' => Some("porcentaje")
    case '(' => Some("abre parentesis")
    case ')' => Some("cierra parentesis")
    case '[' => Some("abre corchete")
    case ']' => Some("cierra corchete")
    case '{' => Some("abre llave")
    case '}' => Some("cierra llave")
    case '"' => Some("comillas")
    case '\'' => Some("comilla simple")
    case _ => None
  }

  /** A replacement given to `String.prototype.replace`: a string, or a
      function that `replace` calls on the match. */
  datatype Replacement = Literal(text: string) | Replacer(name: string)

  /** The methods every object literal inherits from `Object.prototype`. */
  const PrototypeMethods: set<string> := {
    "constructor", "toString", "toLocaleString", "valueOf", "hasOwnProperty",
    "isPrototypeOf", "propertyIsEnumerable", "__defineGetter__", "__defineSetter__",
    "__lookupGetter__", "__lookupSetter__"
  }

  /** Names a lookup on an object literal finds without its own key. */
  predicate IsInheritedName(word: string) {
    word == "__proto__" || word in PrototypeMethods
  }

  /** `punctToWord[word] || word`. `punctToWord` is an object literal, so
      the lookup also finds what it inherits: `__proto__` is the prototype
      object, which `replace` turns into the string `[object Object]`, and
      each inherited method is a function that `replace` later calls. */
  function EscapedWord(word: string): Replacement {
    if |word| == 1 && PunctToWord(word[0]).Some? then Literal(PunctToWord(word[0]).value)
    else if word == "__proto__" then Literal("[object Object]")
    else if word in PrototypeMethods then Replacer(word)
    else Literal(word)
  }

  /** Whether an inherited method throws when `replace` calls it: it is
      called with `this` undefined, and all but three of them first convert
      `this` to an object, which raises a `TypeError`. */
  predicate ReplacerThrows(name: string) {
    name !in {"constructor", "toString", "isPrototypeOf"}
  }

  /** What an inherited method that does not throw returns for the match:
      `Object(matched)` wraps the match, which `replace` turns back into
      the match; `toString` of `undefined` is `[object Undefined]`; and
      `isPrototypeOf` of a string is `false`. For a method that throws the
      value is never used. */
  function ReplacerResult(name: string, matched: string): string {
    if name == "toString" then "[object Undefined]"
    else if name == "isPrototypeOf" then "false"
    else matched
  }

  function DigitChar(d: nat): char
    requires d < 10
  {
    ('0' as int + d) as char
  }

  /** The decimal digits of `n`, as template literals print it. */
  function Decimal(n: nat): string
    decreases n
  {
    if n < 10 then [DigitChar(n)] else Decimal(n / 10) + [DigitChar(n % 10)]
  }

  /** `${ESC_PLACEHOLDER}${i}\u0000`. */
  function Placeholder(i: nat): string {
    [Nul] + "ESC" + Decimal(i) + [Nul]
  }

  /** The text after step 1 and the escaped words, in order. */
  datatype Escapes = Escapes(text: string, words: seq<Replacement>)

  /** Step 1 on the rest `s` of the text, `n` words having been escaped
      before it: each match becomes the next placeholder and its word
      (mapped back if it is punctuation) is recorded. */
  function EscapeFrom(prevWord: bool, s: string, n: nat): Escapes
    decreases |s|
  {
    if s == [] then Escapes([], [])
    else if EscapeHere(prevWord, s) then
      TrimStartSpec(s[|EscapeKeyword|..]);
      var rest := TrimStart(s[|EscapeKeyword|..]);
      var k := NonWhitespaceRun(rest);
      if k == 0 then Escapes([], [])  // EscapeHere rules this out
      else
        var word := rest[..k];
        var tail := EscapeFrom(IsWordChar(word[k - 1]), rest[k..], n + 1);
        Escapes(Placeholder(n) + tail.text, [EscapedWord(word)] + tail.words)
    else
      var tail := EscapeFrom(IsWordChar(s[0]), s[1..], n);
      Escapes([s[0]] + tail.text, tail.words)
  }

  /** `\bliteral[\s]*(\S+)` matches nowhere in `s`. */
  predicate NoEscape(prevWord: bool, s: string)
    decreases |s|
  {
    s == [] || (!EscapeHere(prevWord, s) && NoEscape(IsWordChar(s[0]), s[1..]))
  }

  // ---------------------------------------------------------------------
  // Step 3: restoring the escaped words

  /** Where `pat` first occurs in `s` at or after `from`. */
  function IndexOf(s: string, pat: string, from: nat): (r: Option<nat>)
    ensures r.Some? ==> from <= r.value && r.value + |pat| <= |s| && s[r.value..r.value + |pat|] == pat
    decreases |s| - from
  {
    if from + |pat| > |s| then None
    else if s[from..from + |pat|] == pat then Some(from)
    else IndexOf(s, pat, from + 1)
  }

  /** The `$` sequences of a replacement string for a string search (no
      capture groups): `$$`, `$&`, `` $` `` and `$'`; any other `$` is
      kept as it is. */
  function Substitute(rep: string, matched: string, before: string, after: string): string
    decreases |rep|
  {
    if rep == [] then []
    else if |rep| >= 2 && rep[0] == '$' && rep[1] == '$' then "$" + Substitute(rep[2..], matched, before, after)
    else if |rep| >= 2 && rep[0] == '$' && rep[1] == '&' then matched + Substitute(rep[2..], matched, before, after)
    else if |rep| >= 2 && rep[0] == '$' && rep[1] == '`' then before + Substitute(rep[2..], matched, before, after)
    else if |rep| >= 2 && rep[0] == '$' && rep[1] == '\'' then after + Substitute(rep[2..], matched, before, after)
    else [rep[0]] + Substitute(rep[1..], matched, before, after)
  }

  /** `s.replace(pat, rep)` with a string `pat`: only the first occurrence.
      A string replacement has its `$` sequences expanded; a function's
      result is inserted as it is. */
  function ReplaceFirst(s: string, pat: string, rep: Replacement): string {
    match IndexOf(s, pat, 0)
    case None => s
    case Some(k) =>
      var inserted := match rep
        case Literal(t) => Substitute(t, pat, s[..k], s[k + |pat|..])
        case Replacer(name) => ReplacerResult(name, pat);
      s[..k] + inserted + s[k + |pat|..]
  }

  /** Step 3: placeholder `i` gives way to escaped word `i`, in order. */
  function RestoreFrom(s: string, words: seq<Replacement>, i: nat): string
    decreases |words| - i
  {
    if i >= |words| then s else RestoreFrom(ReplaceFirst(s, Placeholder(i), words[i]), words, i + 1)
  }

  /** Whether step 3 throws: some placeholder is found while its escaped
      word is an inherited method that throws when called. */
  predicate RestoreThrows(s: string, words: seq<Replacement>, i: nat)
    decreases |words| - i
  {
    if i >= |words| then false
    else if words[i].Replacer? && ReplacerThrows(words[i].name) && IndexOf(s, Placeholder(i), 0).Some? then true
    else RestoreThrows(ReplaceFirst(s, Placeholder(i), words[i]), words, i + 1)
  }

  // ---------------------------------------------------------------------
  // Steps 4 and 5: spacing

  /** The length of the run of regular spaces (U+0020) `s` starts with. */
  function SpaceRun(s: string): (n: nat)
    ensures n <= |s|
  {
    if s != [] && s[0] == ' ' then 1 + SpaceRun(s[1..]) else 0
  }

  predicate IsOpeningBracket(c: char) {
    c == '(' || c == '{' || c == '['
  }

  predicate IsQuote(c: char) {
    c == '"' || c == '\''
  }

  /** `[.,;:!?)\]}]`: symbols that attach to the word before them. */
  const AttachLeft: set<char> := {'.', ',', ';', ':', '!', '?', ')', ']', '}'}

  // `/ *\u0001([({\[]) *` + `/g` → `$1`: a marked opening bracket loses
  // the spaces on both sides and its mark.
  function JoinOpeningBrackets(s: string): string
    decreases |s|
  {
    if s == [] then []
    else
      var k := SpaceRun(s);
      if k + 1 < |s| && s[k] == OpenMark && IsOpeningBracket(s[k + 1]) then
        var rest := s[k + 2..];
        [s[k + 1]] + JoinOpeningBrackets(rest[SpaceRun(rest)..])
      else [s[0]] + JoinOpeningBrackets(s[1..])
  }

  // `/\u0001(["']) *` + `/g` → `$1`: a marked opening quote loses its mark
  // and the spaces after it, and keeps the ones before.
  function JoinOpeningQuotes(s: string): string
    decreases |s|
  {
    if s == [] then []
    else if |s| >= 2 && s[0] == OpenMark && IsQuote(s[1]) then
      var rest := s[2..];
      [s[1]] + JoinOpeningQuotes(rest[SpaceRun(rest)..])
    else [s[0]] + JoinOpeningQuotes(s[1..])
  }

  /** `/(?: )+(c)/g` → `$1` for the characters `c` in `targets`: a run of
      one or more spaces before a target is dropped. */
  function DropSpacesBefore(s: string, targets: set<char>): string
    decreases |s|
  {
    if s == [] then []
    else
      var k := SpaceRun(s);
      if 0 < k < |s| && s[k] in targets then [s[k]] + DropSpacesBefore(s[k + 1..], targets)
      else [s[0]] + DropSpacesBefore(s[1..], targets)
  }

  /** `/(?: )+\.com/g` → `.com`. */
  function DropSpacesBeforeDotCom(s: string): string
    decreases |s|
  {
    if s == [] then []
    else
      var k := SpaceRun(s);
      if 0 < k && k + 4 <= |s| && s[k..k + 4] == ".com" then ".com" + DropSpacesBeforeDotCom(s[k + 4..])
      else [s[0]] + DropSpacesBeforeDotCom(s[1..])
  }

  // `/<lead> *` + `/g` → `keep`. With `keep == lead` this is also
  // `/<lead>(?: )+/g` → `lead`: where no space follows, both leave the
  // text as it is.
  function DropSpacesAfter(s: string, lead: string, keep: string): string
    requires lead != []
    decreases |s|
  {
    if s == [] then []
    else if |lead| <= |s| && s[..|lead|] == lead then
      var rest := s[|lead|..];
      keep + DropSpacesAfter(rest[SpaceRun(rest)..], lead, keep)
    else [s[0]] + DropSpacesAfter(s[1..], lead, keep)
  }

  /** `/c/g` → `''`. */
  function RemoveChar(s: string, c: char): string {
    if s == [] then [] else (if s[0] == c then [] else [s[0]]) + RemoveChar(s[1..], c)
  }

  /** `/ /g` → `' '`. */
  function NbspToSpace(s: string): string {
    if s == [] then [] else [if s[0] == Nbsp then ' ' else s[0]] + NbspToSpace(s[1..])
  }

  /** Steps 4 and 5 up to the final trim, in the source's order. */
  function NormalizeSpacing(s: string): string {
    var brackets := JoinOpeningBrackets(s);
    var quotes := JoinOpeningQuotes(brackets);
    var closing := DropSpacesBefore(quotes, {CloseMark});
    var unmarked := RemoveChar(closing, CloseMark);
    var attached := DropSpacesBefore(unmarked, AttachLeft);
    var atBefore := DropSpacesBefore(attached, {'@'});
    var atAfter := DropSpacesAfter(atBefore, "@", "@");
    var dotCom := DropSpacesBeforeDotCom(atAfter);
    var hash := DropSpacesAfter(dotCom, [HashMark, '#'], "#");
    var nbspBefore := DropSpacesBefore(hash, {Nbsp});
    var nbspAfter := DropSpacesAfter(nbspBefore, [Nbsp], [Nbsp]);
    NbspToSpace(nbspAfter)
  }

  /** The final trim, skipped when it would leave nothing of a text made
      only of spaces. */
  function FinishTrim(s: string): string {
    var trimmed := Trim(s);
    if trimmed == [] && |s| > 0 then s else trimmed
  }

  /** Whether `parseCommands` throws on `text` instead of returning. */
  predicate ParseThrows(text: string) {
    text != [] &&
    var escaped := EscapeFrom(false, text, 0);
    RestoreThrows(ApplyCommands(escaped.text, Commands), escaped.words, 0)
  }

  /** What `parseCommands` returns when `ParseThrows` does not hold. */
  function ParseCommands(text: string): string {
    if text == [] then text
    else
      var escaped := EscapeFrom(false, text, 0);
      var commanded := ApplyCommands(escaped.text, Commands);
      var restored := RestoreFrom(commanded, escaped.words, 0);
      FinishTrim(NormalizeSpacing(restored))
  }

  // ---------------------------------------------------------------------
  // What each stage leaves alone

  function Spaces(n: nat): string {
    seq(n, _ => ' ')
  }

  lemma {:induction false} SpaceRunSpec(s: string)
    ensures forall i :: 0 <= i < SpaceRun(s) ==> s[i] == ' '
    ensures SpaceRun(s) < |s| ==> s[SpaceRun(s)] != ' '
  {
    if s != [] && s[0] == ' ' {
      SpaceRunSpec(s[1..]);
    }
  }

  lemma {:induction false} SpaceRunOfSpaces(n: nat, y: string)
    requires y == [] || y[0] != ' '
    ensures SpaceRun(Spaces(n) + y) == n
    ensures (Spaces(n) + y)[n..] == y
  {
    if n > 0 {
      assert (Spaces(n) + y)[1..] == Spaces(n - 1) + y;
      SpaceRunOfSpaces(n - 1, y);
    } else {
      assert Spaces(n) + y == y;
    }
  }

  /** The characters the spacing steps act on. */
  predicate IsSpacingMark(c: char) {
    c == OpenMark || c == CloseMark || c == HashMark || c == Nbsp || c in AttachLeft || c == '@'
  }

  predicate NoSpacingMarks(s: string) {
    forall i :: 0 <= i < |s| ==> !IsSpacingMark(s[i])
  }

  lemma {:induction false} JoinOpeningBracketsUnmarked(s: string)
    requires forall i :: 0 <= i < |s| ==> s[i] != OpenMark
    ensures JoinOpeningBrackets(s) == s
  {
    if s != [] {
      JoinOpeningBracketsUnmarked(s[1..]);
      assert [s[0]] + s[1..] == s;
    }
  }

  lemma {:induction false} JoinOpeningQuotesUnmarked(s: string)
    requires forall i :: 0 <= i < |s| ==> s[i] != OpenMark
    ensures JoinOpeningQuotes(s) == s
  {
    if s != [] {
      JoinOpeningQuotesUnmarked(s[1..]);
      assert [s[0]] + s[1..] == s;
    }
  }

  lemma {:induction false} DropSpacesBeforeNoTarget(s: string, targets: set<char>)
    requires forall i :: 0 <= i < |s| ==> s[i] !in targets
    ensures DropSpacesBefore(s, targets) == s
  {
    if s != [] {
      DropSpacesBeforeNoTarget(s[1..], targets);
      assert [s[0]] + s[1..] == s;
    }
  }

  lemma {:induction false} DropSpacesBeforeDotComNoDot(s: string)
    requires forall i :: 0 <= i < |s| ==> s[i] != '.'
    ensures DropSpacesBeforeDotCom(s) == s
  {
    if s != [] {
      var k := SpaceRun(s);
      if 0 < k && k + 4 <= |s| {
        assert s[k..k + 4][0] == s[k];
      }
      DropSpacesBeforeDotComNoDot(s[1..]);
      assert [s[0]] + s[1..] == s;
    }
  }

  lemma {:induction false} DropSpacesAfterNoLead(s: string, lead: string, keep: string)
    requires lead != []
    requires forall i :: 0 <= i < |s| ==> s[i] != lead[0]
    ensures DropSpacesAfter(s, lead, keep) == s
  {
    if s != [] {
      if |lead| <= |s| {
        assert s[..|lead|][0] == s[0];
      }
      DropSpacesAfterNoLead(s[1..], lead, keep);
      assert [s[0]] + s[1..] == s;
    }
  }

  lemma {:induction false} RemoveCharAbsent(s: string, c: char)
    requires forall i :: 0 <= i < |s| ==> s[i] != c
    ensures RemoveChar(s, c) == s
  {
    if s != [] {
      RemoveCharAbsent(s[1..], c);
      assert [s[0]] + s[1..] == s;
    }
  }

  lemma {:induction false} NbspToSpaceAbsent(s: string)
    requires forall i :: 0 <= i < |s| ==> s[i] != Nbsp
    ensures NbspToSpace(s) == s
  {
    if s != [] {
      NbspToSpaceAbsent(s[1..]);
      assert [s[0]] + s[1..] == s;
    }
  }

  /** Text holding none of the characters steps 4 and 5 look for goes
      through them unchanged. */
  lemma NormalizeSpacingUnmarked(s: string)
    requires NoSpacingMarks(s)
    ensures NormalizeSpacing(s) == s
  {
    JoinOpeningBracketsUnmarked(s);
    JoinOpeningQuotesUnmarked(s);
    DropSpacesBeforeNoTarget(s, {CloseMark});
    RemoveCharAbsent(s, CloseMark);
    DropSpacesBeforeNoTarget(s, AttachLeft);
    DropSpacesBeforeNoTarget(s, {'@'});
    DropSpacesAfterNoLead(s, "@", "@");
    DropSpacesBeforeDotComNoDot(s);
    DropSpacesAfterNoLead(s, [HashMark, '#'], "#");
    DropSpacesBeforeNoTarget(s, {Nbsp});
    DropSpacesAfterNoLead(s, [Nbsp], [Nbsp]);
    NbspToSpaceAbsent(s);
  }

  /** commandParser.ts:162-163: the final trim applies unless it would
      leave nothing of a non-empty text, which is then kept whole. */
  lemma FinishTrimSpec(s: string)
    ensures s != [] && AllWhitespace(s) ==> FinishTrim(s) == s
    ensures !AllWhitespace(s) ==> FinishTrim(s) == Trim(s) && FinishTrim(s) != []
    ensures FinishTrim(s) == [] <==> s == []
  {
    TrimEmptyIffAllWhitespace(s);
  }

  /** Text that neither starts nor ends with white space is not trimmed. */
  lemma FinishTrimUntrimmed(s: string)
    requires s != [] && !IsWhitespace(s[0]) && !IsWhitespace(s[|s| - 1])
    ensures FinishTrim(s) == s
  {
    assert [] + s + [] == s;
    TrimOfPadded([], s, []);
  }

  /** Text with no `literal` match goes through step 1 unchanged, with
      nothing escaped. */
  lemma {:induction false} EscapeFromNoEscape(prevWord: bool, s: string, n: nat)
    requires NoEscape(prevWord, s)
    ensures EscapeFrom(prevWord, s, n) == Escapes(s, [])
    decreases |s|
  {
    if s != [] {
      EscapeFromNoEscape(IsWordChar(s[0]), s[1..], n);
      assert [s[0]] + s[1..] == s;
    }
  }

  /** No pattern of `commands` matches anywhere in `s`. */
  predicate Untouched(s: string, commands: seq<CommandDef>) {
    forall i, j :: 0 <= i < |commands| && 0 <= j < |commands[i].patterns| ==>
      NoMatch(false, s, commands[i].patterns[j])
  }

  lemma {:induction false} ApplyPatternsUntouched(s: string, patterns: seq<string>, output: string)
    requires forall j :: 0 <= j < |patterns| ==> NoMatch(false, s, patterns[j])
    ensures ApplyPatterns(s, patterns, output) == s
    decreases |patterns|
  {
    if patterns != [] {
      NoMatchUnchanged(false, s, patterns[0], output);
      ApplyPatternsUntouched(s, patterns[1..], output);
    }
  }

  /** Text in which no command pattern occurs goes through step 2
      unchanged. */
  lemma {:induction false} ApplyCommandsUntouched(s: string, commands: seq<CommandDef>)
    requires Untouched(s, commands)
    ensures ApplyCommands(s, commands) == s
    decreases |commands|
  {
    if commands != [] {
      ApplyPatternsUntouched(s, commands[0].patterns, commands[0].output);
      assert forall i, j :: 0 <= i < |commands| - 1 && 0 <= j < |commands[1..][i].patterns| ==>
        commands[1..][i].patterns[j] == commands[i + 1].patterns[j];
      ApplyCommandsUntouched(s, commands[1..]);
    }
  }

  // ---------------------------------------------------------------------
  // What the spacing steps achieve

  /** No regular space stands right before a character of `targets`. */
  predicate NoSpaceBefore(r: string, targets: set<char>) {
    forall i :: 0 <= i < |r| - 1 ==> !(r[i] == ' ' && r[i + 1] in targets)
  }

  /** No regular space stands right after `c`. */
  predicate NoSpaceAfter(r: string, c: char) {
    forall i :: 0 <= i < |r| - 1 ==> !(r[i] == c && r[i + 1] == ' ')
  }

  lemma DropSpacesBeforeHead(s: string, targets: set<char>)
    requires ' ' !in targets
    ensures var r := DropSpacesBefore(s, targets);
      r != [] && r[0] in targets ==> SpaceRun(s) < |s| && s[SpaceRun(s)] in targets
  {
  }

  /** commandParser.ts:134, 140, 143, 156: after a "spaces before" step no
      regular space is left right before any of its target characters. */
  lemma {:induction false} DropSpacesBeforeTight(s: string, targets: set<char>)
    requires ' ' !in targets
    ensures NoSpaceBefore(DropSpacesBefore(s, targets), targets)
    decreases |s|
  {
    if s != [] {
      var k := SpaceRun(s);
      if 0 < k < |s| && s[k] in targets {
        DropSpacesBeforeTight(s[k + 1..], targets);
      } else {
        DropSpacesBeforeTight(s[1..], targets);
        var rest := DropSpacesBefore(s[1..], targets);
        if s[0] == ' ' && rest != [] && rest[0] in targets {
          DropSpacesBeforeHead(s[1..], targets);
          assert SpaceRun(s) == 1 + SpaceRun(s[1..]);
        }
      }
    }
  }

  lemma {:induction false} RemoveCharConcat(a: string, b: string, c: char)
    ensures RemoveChar(a + b, c) == RemoveChar(a, c) + RemoveChar(b, c)
  {
    if a != [] {
      assert (a + b)[1..] == a[1..] + b;
      RemoveCharConcat(a[1..], b, c);
    } else {
      assert a + b == b;
    }
  }

  lemma {:induction false} RemoveSpacesOfRun(s: string, k: nat)
    requires k <= |s| && forall i :: 0 <= i < k ==> s[i] == ' '
    ensures RemoveChar(s[..k], ' ') == []
  {
    if k > 0 {
      assert s[..k][1..] == s[1..][..k - 1];
      RemoveSpacesOfRun(s[1..], k - 1);
    }
  }

  /** The "spaces before" steps delete spaces and nothing else. */
  lemma {:induction false} DropSpacesBeforeOnlySpaces(s: string, targets: set<char>)
    requires ' ' !in targets
    ensures RemoveChar(DropSpacesBefore(s, targets), ' ') == RemoveChar(s, ' ')
    decreases |s|
  {
    if s != [] {
      var k := SpaceRun(s);
      if 0 < k < |s| && s[k] in targets {
        DropSpacesBeforeOnlySpaces(s[k + 1..], targets);
        OnlySpacesDroppedAt(s, k, targets);
      } else {
        DropSpacesBeforeOnlySpaces(s[1..], targets);
        OnlySpacesKeptHead(s, targets);
      }
    }
  }

  /** The step of `DropSpacesBeforeOnlySpaces` where the run of `k` spaces
      before a target is dropped. */
  lemma OnlySpacesDroppedAt(s: string, k: nat, targets: set<char>)
    requires k == SpaceRun(s) && 0 < k < |s| && s[k] in targets
    requires RemoveChar(DropSpacesBefore(s[k + 1..], targets), ' ') == RemoveChar(s[k + 1..], ' ')
    ensures RemoveChar(DropSpacesBefore(s, targets), ' ') == RemoveChar(s, ' ')
  {
    SpaceRunSpec(s);
    RemoveSpacesOfRun(s, k);
    assert s == s[..k] + ([s[k]] + s[k + 1..]);
    RemoveCharConcat(s[..k], [s[k]] + s[k + 1..], ' ');
    RemoveCharConcat([s[k]], s[k + 1..], ' ');
    RemoveCharConcat([s[k]], DropSpacesBefore(s[k + 1..], targets), ' ');
  }

  /** The step of `DropSpacesBeforeOnlySpaces` where the first character
      is kept. */
  lemma OnlySpacesKeptHead(s: string, targets: set<char>)
    requires s != [] && !(0 < SpaceRun(s) < |s| && s[SpaceRun(s)] in targets)
    requires RemoveChar(DropSpacesBefore(s[1..], targets), ' ') == RemoveChar(s[1..], ' ')
    ensures RemoveChar(DropSpacesBefore(s, targets), ' ') == RemoveChar(s, ' ')
  {
    assert s == [s[0]] + s[1..];
    RemoveCharConcat([s[0]], s[1..], ' ');
    RemoveCharConcat([s[0]], DropSpacesBefore(s[1..], targets), ' ');
  }

  /** When `keep` is `lead`, a "spaces after" step starts with what its
      input starts with. */
  lemma DropSpacesAfterHead(s: string, lead: string)
    requires lead != []
    ensures var r := DropSpacesAfter(s, lead, lead);
      (r == [] <==> s == []) && (r != [] ==> r[0] == s[0])
  {
    if s != [] && |lead| <= |s| && s[..|lead|] == lead {
      assert s[..|lead|][0] == s[0];
    }
  }

  /** commandParser.ts:144, 157: after `/c(?: )+/g` → `c` no regular space
      is left right after `c`. */
  lemma {:induction false} DropSpacesAfterTight(s: string, c: char)
    requires c != ' '
    ensures NoSpaceAfter(DropSpacesAfter(s, [c], [c]), c)
    decreases |s|
  {
    if s != [] {
      if s[0] == c {
        var rest := s[1..];
        var t := rest[SpaceRun(rest)..];
        DropSpacesAfterTight(t, c);
        DropSpacesAfterHead(t, [c]);
        SpaceRunSpec(rest);
        assert s[..1] == [c];
      } else {
        DropSpacesAfterTight(s[1..], c);
      }
    }
  }

  lemma NoSpaceBeforeSuffix(s: string, j: nat, targets: set<char>)
    requires j <= |s| && NoSpaceBefore(s, targets)
    ensures NoSpaceBefore(s[j..], targets)
  {
    forall i | 0 <= i < |s[j..]| - 1
      ensures !(s[j..][i] == ' ' && s[j..][i + 1] in targets)
    {
      assert s[j..][i] == s[j + i] && s[j..][i + 1] == s[j + i + 1];
    }
  }

  /** `/c(?: )+/g` → `c` creates no space before `c` where there was none. */
  lemma {:induction false} DropSpacesAfterKeepsTight(s: string, c: char)
    requires c != ' ' && NoSpaceBefore(s, {c})
    ensures NoSpaceBefore(DropSpacesAfter(s, [c], [c]), {c})
    decreases |s|
  {
    if s != [] {
      if s[0] == c {
        var rest := s[1..];
        var t := rest[SpaceRun(rest)..];
        assert t == s[1 + SpaceRun(rest)..];
        NoSpaceBeforeSuffix(s, 1 + SpaceRun(rest), {c});
        DropSpacesAfterKeepsTight(t, c);
        assert s[..1] == [c];
      } else {
        NoSpaceBeforeSuffix(s, 1, {c});
        DropSpacesAfterKeepsTight(s[1..], c);
        DropSpacesAfterHead(s[1..], [c]);
      }
    }
  }

  /** commandParser.ts:143-144: once both `@` steps have run, no regular
      space touches an `@` on either side. */
  lemma AtSignTight(s: string)
    ensures var r := DropSpacesAfter(DropSpacesBefore(s, {'@'}), "@", "@");
      NoSpaceBefore(r, {'@'}) && NoSpaceAfter(r, '@')
  {
    var before := DropSpacesBefore(s, {'@'});
    DropSpacesBeforeTight(s, {'@'});
    DropSpacesAfterKeepsTight(before, '@');
    DropSpacesAfterTight(before, '@');
  }

  // ---------------------------------------------------------------------
  // The spacing steps in context

  /** A run of spaces that starts inside `x` ends inside it when `x` does
      not end with a space. */
  lemma SpaceRunInside(x: string, z: string)
    requires x != [] && x[|x| - 1] != ' '
    ensures SpaceRun(x + z) < |x|
  {
    SpaceRunSpec(x + z);
    assert (x + z)[|x| - 1] == x[|x| - 1];
  }

  /** Text whose first non-space is not a mark keeps its first character. */
  lemma JoinOpeningBracketsFirst(s: string)
    requires s != [] && SpaceRun(s) < |s| && s[SpaceRun(s)] != OpenMark
    ensures JoinOpeningBrackets(s) == [s[0]] + JoinOpeningBrackets(s[1..])
  {
  }

  lemma ConcatAssoc(a: string, b: string, c: string)
    ensures a + (b + c) == (a + b) + c
  {
  }

  /** Unmarked text before `z` keeps its first character. */
  lemma JoinOpeningBracketsHeadOf(x: string, z: string)
    requires x != [] && x[|x| - 1] != ' '
    requires forall i :: 0 <= i < |x| ==> x[i] != OpenMark
    ensures JoinOpeningBrackets(x + z) == [x[0]] + JoinOpeningBrackets(x[1..] + z)
  {
    var s := x + z;
    SpaceRunInside(x, z);
    assert s[SpaceRun(s)] == x[SpaceRun(s)];
    JoinOpeningBracketsFirst(s);
    assert s[1..] == x[1..] + z;
  }

  /** The tail of unmarked text not ending in a space is such text too. */
  lemma UnmarkedTail(x: string)
    requires x != [] && x[|x| - 1] != ' '
    requires forall i :: 0 <= i < |x| ==> x[i] != OpenMark
    ensures forall i :: 0 <= i < |x[1..]| ==> x[1..][i] != OpenMark
    ensures x[1..] == [] || x[1..][|x[1..]| - 1] != ' '
    ensures [x[0]] + x[1..] == x
  {
    var tail := x[1..];
    forall i | 0 <= i < |tail|
      ensures tail[i] != OpenMark
    {
      assert tail[i] == x[i + 1];
    }
  }

  lemma {:induction false} JoinOpeningBracketsPrefix(x: string, z: string)
    requires forall i :: 0 <= i < |x| ==> x[i] != OpenMark
    requires x == [] || x[|x| - 1] != ' '
    ensures JoinOpeningBrackets(x + z) == x + JoinOpeningBrackets(z)
    decreases |x|
  {
    if x != [] {
      JoinOpeningBracketsHeadOf(x, z);
      var tail := x[1..];
      UnmarkedTail(x);
      JoinOpeningBracketsPrefix(tail, z);
      ConcatAssoc([x[0]], tail, JoinOpeningBrackets(z));
    } else {
      assert x + z == z;
    }
  }

  /** commandParser.ts:129: an opening bracket drops the spaces on both of
      its sides ("abre parentesis hola" gives "(hola"). */
  lemma JoinOpeningBracketsAround(x: string, n1: nat, b: char, n2: nat, y: string)
    requires forall i :: 0 <= i < |x| ==> x[i] != OpenMark
    requires x == [] || x[|x| - 1] != ' '
    requires IsOpeningBracket(b)
    requires y == [] || y[0] != ' '
    ensures JoinOpeningBrackets(x + (Spaces(n1) + ([OpenMark, b] + (Spaces(n2) + y)))) == x + ([b] + JoinOpeningBrackets(y))
  {
    var z := Spaces(n1) + ([OpenMark, b] + (Spaces(n2) + y));
    JoinOpeningBracketsPrefix(x, z);
    JoinOpeningBracketsHead(n1, b, n2, y);
  }

  lemma JoinOpeningBracketsHead(n1: nat, b: char, n2: nat, y: string)
    requires IsOpeningBracket(b)
    requires y == [] || y[0] != ' '
    ensures JoinOpeningBrackets(Spaces(n1) + ([OpenMark, b] + (Spaces(n2) + y))) == [b] + JoinOpeningBrackets(y)
  {
    var rest := Spaces(n2) + y;
    var w := [OpenMark, b] + rest;
    SpaceRunOfSpaces(n1, w);
    SpaceRunOfSpaces(n2, y);
    SuffixPair(Spaces(n1) + w, n1, OpenMark, b, rest);
    JoinOpeningBracketsMarked(Spaces(n1) + w, n1, b, rest);
  }

  /** Reading a suffix that starts with two given characters. */
  lemma SuffixPair(s: string, k: nat, c: char, d: char, rest: string)
    requires k <= |s| && s[k..] == [c, d] + rest
    ensures k + 1 < |s| && s[k] == c && s[k + 1] == d && s[k + 2..] == rest
  {
    assert s[k] == s[k..][0] && s[k + 1] == s[k..][1];
    assert s[k + 2..] == s[k..][2..];
  }

  /** A marked opening bracket after `k` leading spaces is joined, and
      the spaces after it are dropped. */
  lemma JoinOpeningBracketsMarked(s: string, k: nat, b: char, rest: string)
    requires SpaceRun(s) == k && k + 1 < |s| && s[k] == OpenMark && s[k + 1] == b && s[k + 2..] == rest
    requires IsOpeningBracket(b)
    ensures JoinOpeningBrackets(s) == [b] + JoinOpeningBrackets(rest[SpaceRun(rest)..])
  {
  }

  lemma {:induction false} JoinOpeningQuotesPrefix(x: string, z: string)
    requires forall i :: 0 <= i < |x| ==> x[i] != OpenMark
    ensures JoinOpeningQuotes(x + z) == x + JoinOpeningQuotes(z)
    decreases |x|
  {
    if x != [] {
      assert (x + z)[1..] == x[1..] + z;
      JoinOpeningQuotesPrefix(x[1..], z);
    } else {
      assert x + z == z;
    }
  }

  /** commandParser.ts:130: an opening quote keeps the spaces before it
      and drops the ones after it ("dijo abre comillas hola" gives
      `dijo "hola`). */
  lemma JoinOpeningQuotesAround(x: string, q: char, n: nat, y: string)
    requires forall i :: 0 <= i < |x| ==> x[i] != OpenMark
    requires IsQuote(q)
    requires y == [] || y[0] != ' '
    ensures JoinOpeningQuotes(x + ([OpenMark, q] + (Spaces(n) + y))) == x + ([q] + JoinOpeningQuotes(y))
  {
    JoinOpeningQuotesPrefix(x, [OpenMark, q] + (Spaces(n) + y));
    JoinOpeningQuotesHead(q, n, y);
  }

  lemma JoinOpeningQuotesHead(q: char, n: nat, y: string)
    requires IsQuote(q)
    requires y == [] || y[0] != ' '
    ensures JoinOpeningQuotes([OpenMark, q] + (Spaces(n) + y)) == [q] + JoinOpeningQuotes(y)
  {
    var rest := Spaces(n) + y;
    var z := [OpenMark, q] + rest;
    SpaceRunOfSpaces(n, y);
    assert z[0] == OpenMark && z[1] == q && z[2..] == rest;
  }

  lemma {:induction false} DropSpacesBeforePrefix(x: string, z: string, targets: set<char>)
    requires forall i :: 0 <= i < |x| ==> x[i] !in targets
    requires x == [] || x[|x| - 1] != ' '
    ensures DropSpacesBefore(x + z, targets) == x + DropSpacesBefore(z, targets)
    decreases |x|
  {
    if x != [] {
      DropSpacesBeforeHeadOf(x, z, targets);
      var tail := x[1..];
      TailAvoids(x, targets);
      DropSpacesBeforePrefix(tail, z, targets);
      ConcatAssoc([x[0]], tail, DropSpacesBefore(z, targets));
    } else {
      assert x + z == z;
    }
  }

  /** Text with no target, not ending in a space, before `z` keeps its
      first character. */
  lemma DropSpacesBeforeHeadOf(x: string, z: string, targets: set<char>)
    requires x != [] && x[|x| - 1] != ' '
    requires forall i :: 0 <= i < |x| ==> x[i] !in targets
    ensures DropSpacesBefore(x + z, targets) == [x[0]] + DropSpacesBefore(x[1..] + z, targets)
  {
    var s := x + z;
    SpaceRunInside(x, z);
    assert s[SpaceRun(s)] == x[SpaceRun(s)];
    assert s[1..] == x[1..] + z;
  }

  /** The tail of text with no target, not ending in a space, is such
      text too. */
  lemma TailAvoids(x: string, targets: set<char>)
    requires x != [] && x[|x| - 1] != ' '
    requires forall i :: 0 <= i < |x| ==> x[i] !in targets
    ensures forall i :: 0 <= i < |x[1..]| ==> x[1..][i] !in targets
    ensures x[1..] == [] || x[1..][|x[1..]| - 1] != ' '
    ensures [x[0]] + x[1..] == x
  {
    var tail := x[1..];
    forall i | 0 <= i < |tail|
      ensures tail[i] !in targets
    {
      assert tail[i] == x[i + 1];
    }
  }

  /** commandParser.ts:140: the spaces between a word and a symbol such as
      `.` or `)` are removed ("hola punto" gives "hola."). */
  lemma DropSpacesBeforeAround(x: string, n: nat, t: char, y: string, targets: set<char>)
    requires forall i :: 0 <= i < |x| ==> x[i] !in targets
    requires x == [] || x[|x| - 1] != ' '
    requires n > 0 && t in targets && t != ' '
    ensures DropSpacesBefore(x + (Spaces(n) + ([t] + y)), targets) == x + ([t] + DropSpacesBefore(y, targets))
  {
    var z := Spaces(n) + ([t] + y);
    DropSpacesBeforePrefix(x, z, targets);
    SpaceRunOfSpaces(n, [t] + y);
    assert z[n] == t && z[n + 1..] == y;
    assert DropSpacesBefore(z, targets) == [t] + DropSpacesBefore(y, targets);
  }

  lemma {:induction false} DropSpacesAfterPrefix(x: string, z: string, lead: string, keep: string)
    requires lead != []
    requires forall i :: 0 <= i < |x| ==> x[i] != lead[0]
    ensures DropSpacesAfter(x + z, lead, keep) == x + DropSpacesAfter(z, lead, keep)
    decreases |x|
  {
    if x != [] {
      var s := x + z;
      if |lead| <= |s| {
        assert s[..|lead|][0] == x[0];
      }
      assert s[1..] == x[1..] + z;
      DropSpacesAfterPrefix(x[1..], z, lead, keep);
    } else {
      assert x + z == z;
    }
  }

  /** commandParser.ts:144, 150, 157: the spaces after `@`, after a
      hashtag's `#` and after an explicit space are removed, along with the
      hashtag's mark. */
  lemma DropSpacesAfterAround(x: string, lead: string, keep: string, n: nat, y: string)
    requires lead != []
    requires forall i :: 0 <= i < |x| ==> x[i] != lead[0]
    requires y == [] || y[0] != ' '
    ensures DropSpacesAfter(x + (lead + (Spaces(n) + y)), lead, keep) == x + (keep + DropSpacesAfter(y, lead, keep))
  {
    var z := lead + (Spaces(n) + y);
    DropSpacesAfterPrefix(x, z, lead, keep);
    SpaceRunOfSpaces(n, y);
    assert z[..|lead|] == lead;
    assert z[|lead|..] == Spaces(n) + y;
    assert DropSpacesAfter(z, lead, keep) == keep + DropSpacesAfter(y, lead, keep);
  }
}
