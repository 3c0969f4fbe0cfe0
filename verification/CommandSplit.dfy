/** The shell-like tokenizer `split_command` of `src/deploy.rs`. */
module CommandSplit {
  import opened Wrappers

  /** `char::is_whitespace`: the Unicode White_Space property. */
  predicate IsWhitespace(c: char) {
    var n := c as int;
    9 <= n <= 13 || n == 0x20 || n == 0x85 || n == 0xA0 || n == 0x1680 || 0x2000 <= n <= 0x200A
    || n == 0x2028 || n == 0x2029 || n == 0x202F || n == 0x205F || n == 0x3000
  }

  predicate IsQuote(c: char) {
    c == '"' || c == '\''
  }

  /** The tokenizer's local variables. */
  datatype Scan = Scan(out: seq<string>, cur: string, quote: Option<char>, escaped: bool)

  const START := Scan([], "", None, false)

  function Take(s: Scan): Scan {
    if s.cur != "" then s.(out := s.out + [s.cur], cur := "") else s
  }

  function Next(s: Scan, ch: char): Scan {
    if s.escaped then s.(cur := s.cur + [ch], escaped := false)
    else if ch == '\\' then s.(escaped := true)
    else match s.quote
         case Some(q) => if q == ch then s.(quote := None) else s.(cur := s.cur + [ch])
         case None =>
           if IsQuote(ch) then s.(quote := Some(ch))
           else if IsWhitespace(ch) then Take(s)
           else s.(cur := s.cur + [ch])
  }

  function After(s: Scan, text: string): Scan
    decreases |text|
  {
    if text == "" then s else After(Next(s, text[0]), text[1..])
  }

  function Split(cmd: string): seq<string> {
    Take(After(START, cmd)).out
  }

  method SplitCommand(cmd: string) returns (out: seq<string>)
    ensures out == Split(cmd)
    ensures forall token <- out :: token != ""
  {
    var cur: string := "";
    var quote: Option<char> := None;
    var escaped := false;
    out := [];
    for i := 0 to |cmd|
      invariant Scan(out, cur, quote, escaped) == After(START, cmd[..i])
      invariant forall token <- out :: token != ""
    {
      var ch := cmd[i];
      assert cmd[..i + 1] == cmd[..i] + [ch];
      AfterAppend(START, cmd[..i], [ch]);
      if escaped {
        cur := cur + [ch];
        escaped := false;
        continue;
      }
      if ch == '\\' {
        escaped := true;
        continue;
      }
      if quote.Some? {
        if quote.value == ch {
          quote := None;
        } else {
          cur := cur + [ch];
        }
      } else if ch == '"' || ch == '\'' {
        quote := Some(ch);
      } else if IsWhitespace(ch) {
        if cur != "" {
          out := out + [cur];
          cur := "";
        }
      } else {
        cur := cur + [ch];
      }
    }
    assert cmd[..|cmd|] == cmd;
    if cur != "" {
      out := out + [cur];
    }
  }

  lemma {:induction false} AfterAppend(s: Scan, a: string, b: string)
    ensures After(s, a + b) == After(After(s, a), b)
    decreases |a|
  {
    if a == "" {
      assert a + b == b;
    } else {
      assert (a + b)[1..] == a[1..] + b;
      AfterAppend(Next(s, a[0]), a[1..], b);
    }
  }

  lemma AfterCons(s: Scan, c: char, text: string)
    ensures After(s, [c] + text) == After(Next(s, c), text)
    ensures After(s, [c]) == Next(s, c)
  {
    assert ([c] + text)[1..] == text;
    assert [c][1..] == "";
  }

  /** Only the two quote characters ever open a quoted run. */
  lemma {:induction false} QuoteIsQuote(s: Scan, text: string)
    requires s.quote.Some? ==> IsQuote(s.quote.value)
    ensures After(s, text).quote.Some? ==> IsQuote(After(s, text).quote.value)
    decreases |text|
  {
    if text == "" {
    } else {
      QuoteIsQuote(Next(s, text[0]), text[1..]);
    }
  }

  function Behind(tokens: seq<string>, s: Scan): Scan {
    s.(out := tokens + s.out)
  }

  lemma NextBehind(tokens: seq<string>, s: Scan, ch: char)
    ensures Next(Behind(tokens, s), ch) == Behind(tokens, Next(s, ch))
  {
    assert tokens + (s.out + [s.cur]) == tokens + s.out + [s.cur];
  }

  /** Tokens already out never influence what follows. */
  lemma {:induction false} AfterBehind(tokens: seq<string>, s: Scan, text: string)
    ensures After(Behind(tokens, s), text) == Behind(tokens, After(s, text))
    decreases |text|
  {
    if text == "" {
    } else {
      NextBehind(tokens, s, text[0]);
      AfterBehind(tokens, Next(s, text[0]), text[1..]);
    }
  }

  /** The text ends outside quotes and not after a lone backslash. */
  predicate EndsNeutral(text: string) {
    After(START, text).quote.None? && !After(START, text).escaped
  }

  lemma SplitAtSpace(a: string, b: string)
    requires EndsNeutral(a)
    ensures Split(a + " " + b) == Split(a) + Split(b)
  {
    var s := After(START, a);
    AfterAppend(START, a + " ", b);
    AfterAppend(START, a, " ");
    assert " "[1..] == "";
    assert After(s, " ") == Take(s);
    assert Take(s) == Behind(Take(s).out, START);
    AfterBehind(Take(s).out, START, b);
    var t := After(START, b);
    assert Take(s).out + (t.out + [t.cur]) == Take(s).out + t.out + [t.cur];
  }

  /** A space splits a command in two, whatever follows it, if and only if the first half ends neutral. */
  lemma SpaceSeparatesIff(a: string)
    ensures (forall b :: Split(a + " " + b) == Split(a) + Split(b)) <==> EndsNeutral(a)
  {
    if EndsNeutral(a) {
      forall b ensures Split(a + " " + b) == Split(a) + Split(b) { SplitAtSpace(a, b); }
    } else {
      SpaceIsKept(a);
      assert a + " " + "" == a + " ";
      assert Split("") == [];
      assert Split(a) + [] == Split(a);
    }
  }

  lemma SpaceIsKept(a: string)
    requires !EndsNeutral(a)
    ensures Split(a + " ") != Split(a)
  {
    var s := After(START, a);
    AfterAppend(START, a, " ");
    AfterCons(s, ' ', "");
    QuoteIsQuote(START, a);
    assert Next(s, ' ').cur == s.cur + [' '] && Next(s, ' ').out == s.out;
    assert Split(a + " ") == s.out + [s.cur + [' ']];
    assert (s.out + [s.cur + [' ']])[|s.out|] == s.cur + [' '];
    assert s.cur + [' '] != s.cur;
  }

  // ---- Rendering arguments so that they survive splitting ----

  /** Inside quotes a character stands for itself or is escaped; outside also a quoted run may stand. */
  datatype Quoted = Raw(c: char) | Slashed(c: char)

  datatype Piece = Plain(c: char) | Escaped(c: char) | Run(quote: char, inside: seq<Quoted>)

  type Word = seq<Piece>

  predicate QuotedOk(q: char, x: Quoted) {
    x.Raw? ==> x.c != q && x.c != '\\'
  }

  predicate PieceOk(p: Piece) {
    match p
    case Plain(c) => c != '\\' && !IsQuote(c) && !IsWhitespace(c)
    case Escaped(_) => true
    case Run(q, inside) => IsQuote(q) && forall x <- inside :: QuotedOk(q, x)
  }

  predicate WordOk(w: Word) {
    forall p <- w :: PieceOk(p)
  }

  function RenderInside(inside: seq<Quoted>): string {
    if inside == [] then ""
    else (if inside[0].Raw? then [inside[0].c] else ['\\', inside[0].c]) + RenderInside(inside[1..])
  }

  function InsideText(inside: seq<Quoted>): string {
    if inside == [] then "" else [inside[0].c] + InsideText(inside[1..])
  }

  function RenderPiece(p: Piece): string {
    match p
    case Plain(c) => [c]
    case Escaped(c) => ['\\', c]
    case Run(q, inside) => [q] + RenderInside(inside) + [q]
  }

  function PieceText(p: Piece): string {
    match p
    case Plain(c) => [c]
    case Escaped(c) => [c]
    case Run(_, inside) => InsideText(inside)
  }

  function RenderWord(w: Word): string {
    if w == [] then "" else RenderPiece(w[0]) + RenderWord(w[1..])
  }

  /** The argument a word stands for. */
  function WordText(w: Word): string {
    if w == [] then "" else PieceText(w[0]) + WordText(w[1..])
  }

  lemma {:induction false} ScanInside(s: Scan, q: char, inside: seq<Quoted>)
    requires IsQuote(q) && s.quote == Some(q) && !s.escaped && forall x <- inside :: QuotedOk(q, x)
    ensures After(s, RenderInside(inside)) == s.(cur := s.cur + InsideText(inside))
    decreases |inside|
  {
    if inside != [] {
      var x, rest := inside[0], RenderInside(inside[1..]);
      assert QuotedOk(q, x);
      if x.Raw? {
        AfterCons(s, x.c, rest);
      } else {
        assert ['\\', x.c] + rest == ['\\'] + ([x.c] + rest);
        AfterCons(s, '\\', [x.c] + rest);
        AfterCons(s.(escaped := true), x.c, rest);
      }
      ScanInside(s.(cur := s.cur + [x.c]), q, inside[1..]);
      assert s.cur + [x.c] + InsideText(inside[1..]) == s.cur + ([x.c] + InsideText(inside[1..]));
    } else {
      assert s.cur + "" == s.cur;
    }
  }

  lemma ScanPiece(s: Scan, p: Piece)
    requires s.quote.None? && !s.escaped && PieceOk(p)
    ensures After(s, RenderPiece(p)) == s.(cur := s.cur + PieceText(p))
  {
    match p
    case Plain(c) => AfterCons(s, c, "");
    case Escaped(c) =>
      assert ['\\', c] == ['\\'] + [c];
      AfterCons(s, '\\', [c]);
      AfterCons(s.(escaped := true), c, "");
    case Run(q, inside) =>
      var text, s' := RenderInside(inside), s.(quote := Some(q));
      AfterAppend(s, [q] + text, [q]);
      AfterCons(s, q, text);
      ScanInside(s', q, inside);
      AfterCons(s'.(cur := s.cur + InsideText(inside)), q, "");
  }

  lemma {:induction false} ScanWord(s: Scan, w: Word)
    requires s.quote.None? && !s.escaped && WordOk(w)
    ensures After(s, RenderWord(w)) == s.(cur := s.cur + WordText(w))
    decreases |w|
  {
    if w != [] {
      var p, rest := w[0], w[1..];
      var piece, tail := RenderPiece(p), RenderWord(rest);
      var s' := s.(cur := s.cur + PieceText(p));
      assert PieceOk(p);
      assert RenderWord(w) == piece + tail && WordText(w) == PieceText(p) + WordText(rest);
      ScanPiece(s, p);
      AfterAppend(s, piece, tail);
      ScanWord(s', rest);
      CurAppend(s.cur, PieceText(p), WordText(rest));
    } else {
      assert s.cur + "" == s.cur;
    }
  }

  lemma CurAppend(cur: string, a: string, b: string)
    ensures (cur + a) + b == cur + (a + b)
  {
  }

  predicate IsGap(gap: string) {
    gap != "" && forall c <- gap :: IsWhitespace(c)
  }

  lemma {:induction false} ScanGap(s: Scan, gap: string)
    requires s.quote.None? && !s.escaped && IsGap(gap)
    ensures After(s, gap) == Take(s)
    decreases |gap|
  {
    assert IsWhitespace(gap[0]);
    if |gap| > 1 {
      ScanGap(Take(s), gap[1..]);
    } else {
      assert gap[1..] == "";
    }
  }

  /** Each word followed by its gap; only the last gap may be missing. */
  function RenderCommand(words: seq<Word>, gaps: seq<string>): string
    requires |words| == |gaps|
  {
    if words == [] then "" else RenderWord(words[0]) + gaps[0] + RenderCommand(words[1..], gaps[1..])
  }

  predicate GapsOk(gaps: seq<string>) {
    forall i :: 0 <= i < |gaps| ==> IsGap(gaps[i]) || (i == |gaps| - 1 && gaps[i] == "")
  }

  /** The arguments that are not empty, in order. */
  function NonEmptyTexts(words: seq<Word>): seq<string> {
    if words == [] then []
    else TokenOf(words[0]) + NonEmptyTexts(words[1..])
  }

  function TokenOf(word: Word): seq<string> {
    if WordText(word) != "" then [WordText(word)] else []
  }

  /** A word and its gap give the word's text as one token, if there is any text, and start afresh. */
  lemma ScanWordAndGap(word: Word, gap: string)
    requires WordOk(word) && IsGap(gap)
    ensures After(START, RenderWord(word) + gap) == Behind(TokenOf(word), START)
  {
    AfterAppend(START, RenderWord(word), gap);
    ScanWord(START, word);
    assert "" + WordText(word) == WordText(word);
    ScanGap(START.(cur := WordText(word)), gap);
  }

  /** Once a token is complete the rest is split on its own. */
  lemma SplitAfresh(head: string, tokens: seq<string>, rest: string)
    requires After(START, head) == Behind(tokens, START)
    ensures Split(head + rest) == tokens + Split(rest)
  {
    var t := After(START, rest);
    AfterAppend(START, head, rest);
    AfterBehind(tokens, START, rest);
    assert tokens + (t.out + [t.cur]) == tokens + t.out + [t.cur];
  }

  lemma SplitLastWord(word: Word)
    requires WordOk(word)
    ensures Split(RenderWord(word)) == TokenOf(word)
  {
    ScanWord(START, word);
    assert "" + WordText(word) == WordText(word);
  }

  lemma SplitFirstWord(word: Word, gap: string, rest: string)
    requires WordOk(word) && IsGap(gap)
    ensures Split(RenderWord(word) + gap + rest) == TokenOf(word) + Split(rest)
  {
    ScanWordAndGap(word, gap);
    SplitAfresh(RenderWord(word) + gap, TokenOf(word), rest);
  }

  /**
   * The round trip in full: words rendered with any mix of plain characters,
   * escapes and quoted runs and joined by any whitespace split back into the
   * arguments they stand for, except that empty ones disappear.
   */
  lemma {:induction false} SplitUndoesRendering(words: seq<Word>, gaps: seq<string>)
    requires |words| == |gaps| && GapsOk(gaps) && forall w <- words :: WordOk(w)
    ensures Split(RenderCommand(words, gaps)) == NonEmptyTexts(words)
    decreases |words|
  {
    if words == [] {
    } else {
      assert WordOk(words[0]);
      var rest := RenderCommand(words[1..], gaps[1..]);
      assert forall i :: 0 <= i < |gaps[1..]| ==> gaps[1..][i] == gaps[i + 1];
      SplitUndoesRendering(words[1..], gaps[1..]);
      if gaps[0] == "" {
        assert RenderWord(words[0]) + gaps[0] + rest == RenderWord(words[0]);
        SplitLastWord(words[0]);
      } else {
        SplitFirstWord(words[0], gaps[0], rest);
      }
    }
  }

  /** A word that escapes every character. */
  function EscapeAll(arg: string): (w: Word)
    ensures WordOk(w) && WordText(w) == arg
  {
    if arg == "" then [] else [Escaped(arg[0])] + EscapeAll(arg[1..])
  }

  function QuoteInside(q: char, arg: string): (inside: seq<Quoted>)
    ensures (forall x <- inside :: QuotedOk(q, x)) && InsideText(inside) == arg
  {
    if arg == "" then []
    else [if arg[0] == q || arg[0] == '\\' then Slashed(arg[0]) else Raw(arg[0])] + QuoteInside(q, arg[1..])
  }

  /** A word that is one quoted run, with the quote itself and backslashes escaped. */
  function QuoteAll(q: char, arg: string): (w: Word)
    requires IsQuote(q)
    ensures WordOk(w) && WordText(w) == arg
  {
    [Run(q, QuoteInside(q, arg))]
  }

  /** How one argument is to be protected. */
  datatype Style = Backslashes | SingleQuotes | DoubleQuotes

  function Protect(style: Style, arg: string): (w: Word)
    ensures WordOk(w) && WordText(w) == arg
  {
    match style
    case Backslashes => EscapeAll(arg)
    case SingleQuotes => QuoteAll('\'', arg)
    case DoubleQuotes => QuoteAll('"', arg)
  }

  function ProtectAll(styles: seq<Style>, args: seq<string>): (words: seq<Word>)
    requires |styles| == |args|
    ensures |words| == |args| && forall w <- words :: WordOk(w)
  {
    if args == [] then [] else [Protect(styles[0], args[0])] + ProtectAll(styles[1..], args[1..])
  }

  predicate NoneEmpty(args: seq<string>) {
    forall i :: 0 <= i < |args| ==> args[i] != ""
  }

  lemma NoneEmptyFirst(args: seq<string>)
    requires args != []
    ensures NoneEmpty(args) <==> args[0] != "" && NoneEmpty(args[1..])
  {
    assert forall i :: 0 < i < |args| ==> args[i] == args[1..][i - 1];
    if NoneEmpty(args) {
      forall i | 0 <= i < |args[1..]| ensures args[1..][i] != "" { assert args[1..][i] == args[i + 1]; }
    }
  }

  lemma {:induction false} ProtectedTexts(styles: seq<Style>, args: seq<string>)
    requires |styles| == |args|
    ensures NonEmptyTexts(ProtectAll(styles, args)) == args <==> NoneEmpty(args)
    ensures |NonEmptyTexts(ProtectAll(styles, args))| <= |args|
  {
    if args == [] {
    } else {
      ProtectedTexts(styles[1..], args[1..]);
      var words := ProtectAll(styles, args);
      var rest := NonEmptyTexts(words[1..]);
      assert words[1..] == ProtectAll(styles[1..], args[1..]);
      assert WordText(words[0]) == args[0];
      assert args == [args[0]] + args[1..];
      assert ([args[0]] + rest)[1..] == rest;
      NoneEmptyFirst(args);
    }
  }

  /** Protecting each argument in any style and joining with whitespace is undone by splitting, if and only if none is empty. */
  lemma RoundTripIff(styles: seq<Style>, args: seq<string>, gaps: seq<string>)
    requires |styles| == |args| == |gaps| && GapsOk(gaps)
    ensures Split(RenderCommand(ProtectAll(styles, args), gaps)) == args <==> NoneEmpty(args)
  {
    SplitUndoesRendering(ProtectAll(styles, args), gaps);
    ProtectedTexts(styles, args);
  }

  // ---- Separators, and commands that end early ----

  /** Among the ASCII characters the separators are space, tab, and the line and form breaks. */
  lemma AsciiWhitespace(c: char)
    requires (c as int) < 128
    ensures IsWhitespace(c) <==> c == ' ' || c == '\t' || c == '\n' || c == '\r' || c as int == 11 || c as int == 12
  {
  }

  /** Any separator does what a space does. */
  lemma SplitAtSeparator(a: string, c: char, b: string)
    requires EndsNeutral(a) && IsWhitespace(c)
    ensures Split(a + [c] + b) == Split(a) + Split(b)
  {
    var s := After(START, a);
    AfterAppend(START, a, [c]);
    ScanGap(s, [c]);
    assert Take(s) == Behind(Take(s).out, START);
    SplitAfresh(a + [c], Take(s).out, b);
  }

  lemma SplitAtTabsAndNewlines(a: string, b: string)
    requires EndsNeutral(a)
    ensures Split(a + "\t" + b) == Split(a + "\n" + b) == Split(a + " " + b) == Split(a) + Split(b)
  {
    SplitAtSeparator(a, '\t', b);
    SplitAtSeparator(a, '\n', b);
    SplitAtSeparator(a, ' ', b);
  }

  /** A quote that is still open at the end may as well be closed there. */
  lemma ClosingQuoteIsOptional(text: string)
    requires After(START, text).quote.Some? && !After(START, text).escaped
    ensures Split(text + [After(START, text).quote.value]) == Split(text)
  {
    var s := After(START, text);
    AfterAppend(START, text, [s.quote.value]);
    AfterCons(s, s.quote.value, "");
    QuoteIsQuote(START, text);
  }

  /** An unterminated quoted run after separated text yields its text as the last token. */
  lemma UnterminatedRun(head: string, c: char, q: char, inside: seq<Quoted>)
    requires EndsNeutral(head) && IsWhitespace(c) && IsQuote(q) && forall x <- inside :: QuotedOk(q, x)
    ensures Split(head + [c] + ([q] + RenderInside(inside)))
            == Split(head) + (if InsideText(inside) != "" then [InsideText(inside)] else [])
  {
    SplitAtSeparator(head, c, [q] + RenderInside(inside));
    AfterCons(START, q, RenderInside(inside));
    ScanInside(START.(quote := Some(q)), q, inside);
    assert "" + InsideText(inside) == InsideText(inside);
  }

  /** A backslash at the very end escapes nothing and disappears. */
  lemma FinalBackslashIsDropped(text: string)
    requires !After(START, text).escaped
    ensures Split(text + "\\") == Split(text)
  {
    AfterAppend(START, text, "\\");
    AfterCons(After(START, text), '\\', "");
  }
}
