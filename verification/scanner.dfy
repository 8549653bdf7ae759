/** The scanner: a character cursor with line bookkeeping, and a
    tokenizer that leaves the current token in `sym` (and its spelling in
    `val`). Also the diagnostic sink every phase reports through. */
module Scanner {
  import opened Base
  import opened Keywords
  import opened InputData

  // ----- diagnostics -----

  /** A diagnostic is printed only past the position of the last one. */
  predicate Reports(st: State) {
    st.cur.lastLine > st.errorLine || st.lastPos > st.errorPos
  }

  /** `PrintError`: always marks the run as failed and remembers the
      position; prints (appends to `diags`) only past the last reported
      position, so a second diagnostic at the same spot is suppressed. */
  function PrintError(st: State, msg: string): (r: State)
    ensures r.error
    ensures r.errorLine == st.cur.lastLine && r.errorPos == st.lastPos
    ensures Reports(st) ==> r.diags == st.diags + [Diagnostic(st.cur.lastLine, st.lastPos, msg)]
    ensures !Reports(st) ==> r.diags == st.diags
    ensures !Reports(r)
    ensures r.(errorLine := st.errorLine, errorPos := st.errorPos, error := st.error, diags := st.diags) == st
  {
    var printed := if Reports(st) then st.diags + [Diagnostic(st.cur.lastLine, st.lastPos, msg)] else st.diags;
    st.(diags := printed, errorLine := st.cur.lastLine, errorPos := st.lastPos, error := true)
  }

  /** Two diagnostics in a row print at most one line. */
  lemma DuplicateSuppressed(st: State, m1: string, m2: string)
    ensures PrintError(PrintError(st, m1), m2).diags == PrintError(st, m1).diags
    ensures |PrintError(PrintError(st, m1), m2).diags| <= |st.diags| + 1
  {
  }

  /** The scanner never advances `lastPos`, so once it is 0 a diagnostic
      is printed exactly when the reading has moved past the line of the
      last one: at most one diagnostic per line. */
  lemma OneDiagnosticPerLine(st: State, msg: string)
    requires st.lastPos == 0 <= st.errorPos
    ensures |PrintError(st, msg).diags| == |st.diags| + (if st.cur.lastLine > st.errorLine then 1 else 0)
    ensures PrintError(st, msg).lastPos == 0 <= PrintError(st, msg).errorPos
  {
  }

  // ----- the character cursor -----

  /** What the scanner needs of its cursor: the text ends with the
      sentinel, the cursor is inside it, and `ch` is the character just
      read. */
  predicate CursorInv(c: Cursor) {
    && |c.input| > 0 && c.input[|c.input| - 1] == Sentinel
    && 0 <= c.index < |c.input|
    && (c.ch == Sentinel ==> c.input[c.index] == Sentinel)
    && (c.ch != Sentinel && c.ch != NoChar ==> 1 <= c.index && c.input[c.index - 1] == c.ch)
  }

  /** Decreases with every character consumed, and once more when the
      sentinel is reached. */
  function Measure(c: Cursor): nat
    requires CursorInv(c)
  {
    2 * (|c.input| - c.index) + (if c.ch == Sentinel then 0 else 1)
  }

  /** `c` has just read the character at `e`: the sentinel is read in
      place, any other character moves the index past it. */
  predicate ReadUpTo(c: Cursor, e: int) {
    0 <= e < |c.input| && c.ch == c.input[e] && c.index == (if c.input[e] == Sentinel then e else e + 1)
  }

  /** `GetChar` (the wait for the preprocessors is not modelled): reads the
      next character; at the sentinel the cursor stays put. */
  function GetChar(c: Cursor): (r: Cursor)
    requires CursorInv(c)
    ensures CursorInv(r) && r.input == c.input
    ensures ReadUpTo(r, c.index)
    ensures c.input[c.index] == '\n' ==> r.pos == 0 && r.lineNumber == c.lineNumber + 1 && r.lastLine == c.lastLine
    ensures c.input[c.index] != '\n' && c.input[c.index] != Sentinel ==>
              r.pos == c.pos + 1 && r.lineNumber == c.lineNumber && r.lastLine == c.lineNumber
    ensures c.input[c.index] == Sentinel ==> r.pos == c.pos && r.lineNumber == c.lineNumber && r.lastLine == c.lastLine
    ensures c.ch != Sentinel ==> Measure(r) < Measure(c)
    ensures c.ch == Sentinel ==> r == c
  {
    var ch := c.input[c.index];
    if ch == Sentinel then c.(ch := ch)
    else if ch == '\n' then c.(ch := ch, index := c.index + 1, pos := 0, lineNumber := c.lineNumber + 1)
    else c.(ch := ch, index := c.index + 1, lastLine := c.lineNumber, pos := c.pos + 1)
  }

  function CountChar(ch: char, s: string): nat {
    if |s| == 0 then 0 else CountChar(ch, s[..|s| - 1]) + (if s[|s| - 1] == ch then 1 else 0)
  }

  /** The line number is one more than the newlines consumed so far. */
  predicate LineCountInv(c: Cursor)
    requires CursorInv(c)
  {
    c.lineNumber == 1 + CountChar('\n', c.input[..c.index])
  }

  /** GetChar keeps the line number in step with the text. */
  lemma {:induction false} GetCharCountsLines(c: Cursor)
    requires CursorInv(c) && LineCountInv(c)
    ensures LineCountInv(GetChar(c))
  {
    var r := GetChar(c);
    if c.input[c.index] != Sentinel {
      assert r.input[..r.index][..c.index] == c.input[..c.index];
    }
  }

  // ----- runs of letters and digits -----

  /** The end of the run of characters satisfying `p` that starts at `i`. */
  function RunEnd(s: string, i: nat, p: char -> bool): (e: nat)
    requires i <= |s|
    decreases |s| - i
    ensures i <= e <= |s|
    ensures forall k :: i <= k < e ==> p(s[k])
    ensures e < |s| ==> !p(s[e])
  {
    if i == |s| || !p(s[i]) then i else RunEnd(s, i + 1, p)
  }

  /** The run end is the only position with those two properties. */
  lemma RunEndUnique(s: string, i: nat, e: nat, p: char -> bool)
    requires i <= e <= |s|
    requires forall k :: i <= k < e ==> p(s[k])
    requires e < |s| ==> !p(s[e])
    ensures RunEnd(s, i, p) == e
  {
  }

  /** Every character of a prefix of a run satisfies the run's predicate. */
  lemma RunSlice(s: string, i: nat, j: nat, p: char -> bool)
    requires i <= |s| && i <= j <= RunEnd(s, i, p)
    ensures forall k :: 0 <= k < j - i ==> p(s[i..j][k])
  {
  }

  /** What `IdentKeyword` reads from the letter run that starts at
      `start`, having tried the prefixes shorter than `e - start`: the
      shortest longer prefix that is a reserved word, or else the whole
      run. */
  function Spelling(s: string, start: nat, e: nat): (w: string)
    requires start <= |s| && start < e <= RunEnd(s, start, IsLetter)
    decreases RunEnd(s, start, IsLetter) - e
    ensures e - start <= |w| && start + |w| <= RunEnd(s, start, IsLetter)
    ensures w == s[start..start + |w|]
    ensures w in KeywordMap || start + |w| == RunEnd(s, start, IsLetter)
    ensures forall k :: e - start <= k < |w| ==> w[..k] !in KeywordMap
  {
    if s[start..e] in KeywordMap || e == RunEnd(s, start, IsLetter) then s[start..e]
    else
      var w := Spelling(s, start, e + 1);
      assert w[..e - start] == s[start..e];
      w
  }

  // ----- identifiers and keywords -----

  predicate AllLetters(s: string) {
    forall i :: 0 <= i < |s| ==> IsLetter(s[i])
  }

  /** The loop of `IdentKeyword`: the letters from `start` up to the
      current character are read; the run grows one letter at a time
      until it is a reserved word or the letters end. Yields the cursor,
      the spelling and the token. */
  function IdentLoop(c: Cursor, start: nat): (r: (Cursor, string, int))
    requires CursorInv(c) && IsLetter(c.ch)
    requires start < c.index <= RunEnd(c.input, start, IsLetter)
    decreases Measure(c)
    ensures r.1 == Spelling(c.input, start, c.index)
    ensures CursorInv(r.0) && r.0.input == c.input && Measure(r.0) < Measure(c)
  {
    var cur := c.input[start..c.index];
    var n := GetChar(c);
    IdentStep(c, start);
    if cur in KeywordMap then (n, cur, KeywordMap[cur])
    else if IsLetter(n.ch) then IdentLoop(n, start)
    else (n, cur, IDENT)
  }

  /** IdentLoop stops just past the spelling it returns, with the
      reserved word's token or IDENT. */
  lemma {:induction false} IdentLoopReads(c: Cursor, start: nat, r: (Cursor, string, int))
    requires CursorInv(c) && IsLetter(c.ch)
    requires start < c.index <= RunEnd(c.input, start, IsLetter)
    requires r == IdentLoop(c, start)
    decreases Measure(c)
    ensures ReadUpTo(r.0, start + |r.1|)
    ensures r.2 == WordToken(r.1)
  {
    var cur := c.input[start..c.index];
    var n := GetChar(c);
    IdentStep(c, start);
    if cur !in KeywordMap && IsLetter(n.ch) {
      IdentLoopReads(n, start, r);
    }
  }

  /** One iteration of IdentLoop: the spelling is the text read so far
      when it is a reserved word or the letters end, and otherwise what
      the next iteration reads. */
  lemma IdentStep(c: Cursor, start: nat)
    requires CursorInv(c) && IsLetter(c.ch)
    requires start < c.index <= RunEnd(c.input, start, IsLetter)
    ensures var cur := c.input[start..c.index];
            var n := GetChar(c);
            && |cur| == c.index - start
            && (cur in KeywordMap || !IsLetter(n.ch) ==> Spelling(c.input, start, c.index) == cur)
            && (cur !in KeywordMap && IsLetter(n.ch) ==>
                  n.index == c.index + 1 && n.index <= RunEnd(c.input, start, IsLetter)
                  && Spelling(c.input, start, c.index) == Spelling(c.input, start, n.index))
  {
    var n := GetChar(c);
    if !IsLetter(n.ch) {
      RunEndUnique(c.input, start, c.index, IsLetter);
    }
  }

  /** The token a spelling stands for: its reserved word's code, or IDENT. */
  function WordToken(w: string): (t: int)
    ensures t == IDENT <==> w !in KeywordMap
    ensures ValidToken(t) && t != EOF && t != NUMBER
  {
    KeywordCodeRange();
    if w in KeywordMap then KeywordMap[w] else IDENT
  }

  /** A token code GetSym can yield: 0 after an illegal character, and
      never BECOMES. */
  predicate ValidToken(t: int) {
    0 <= t <= EOF && t != BECOMES
  }

  /** `IdentKeyword`: reads the letter run that starts at the current
      character (IdentLoopReads: the cursor stops just past it). */
  function IdentKeyword(c: Cursor): (r: (Cursor, string, int))
    requires CursorInv(c) && IsLetter(c.ch)
    ensures CursorInv(r.0) && r.0.input == c.input && Measure(r.0) < Measure(c)
    ensures r.1 == Spelling(c.input, c.index - 1, c.index) && r.2 == WordToken(r.1)
  {
    var r := IdentLoop(c, c.index - 1);
    IdentLoopReads(c, c.index - 1, r);
    r
  }

  /** What a letter run reads as: the shortest prefix of the run that is
      a reserved word wins; otherwise the token is IDENT spelled by the
      whole run, which the next character (a non-letter) ends. */
  lemma SpellingMeaning(s: string, start: nat)
    requires start < |s| && IsLetter(s[start]) && s[|s| - 1] == Sentinel
    ensures var w := Spelling(s, start, start + 1);
            && 1 <= |w| && start + |w| < |s|
            && w == s[start..start + |w|] && AllLetters(w)
            && (forall k :: 1 <= k < |w| ==> w[..k] !in KeywordMap)
            && (WordToken(w) == IDENT ==> w !in KeywordMap && !IsLetter(s[start + |w|]))
            && (WordToken(w) != IDENT ==> w in KeywordMap && WordToken(w) == KeywordMap[w])
  {
    var w := Spelling(s, start, start + 1);
    RunSlice(s, start, start + |w|, IsLetter);
  }

  // ----- numbers -----

  /** The loop of `Number`: appends digits to `acc` while they last. */
  function DigitRun(c: Cursor, acc: string): (r: (Cursor, string))
    requires CursorInv(c)
    decreases Measure(c)
    ensures CursorInv(r.0) && r.0.input == c.input
    ensures !IsDigit(c.ch) ==> r == (c, acc)
    ensures IsDigit(c.ch) ==>
              && r.1 == acc + c.input[c.index - 1..RunEnd(c.input, c.index - 1, IsDigit)]
              && Measure(r.0) < Measure(c)
  {
    if !IsDigit(c.ch) then (c, acc)
    else
      var n := GetChar(c);
      var r := DigitRun(n, acc + [c.ch]);
      var e := RunEnd(c.input, c.index, IsDigit);
      assert c.input[c.index - 1..e] == [c.ch] + c.input[c.index..e];
      assert !IsDigit(n.ch) ==> RunEnd(c.input, c.index - 1, IsDigit) == c.index by {
        if !IsDigit(n.ch) {
          RunEndUnique(c.input, c.index - 1, c.index, IsDigit);
        }
      }
      r
  }

  /** DigitRun stops on the first character after the digit run. */
  lemma {:induction false} DigitRunStops(c: Cursor, acc: string, r: (Cursor, string))
    requires CursorInv(c) && IsDigit(c.ch) && r == DigitRun(c, acc)
    decreases Measure(c)
    ensures ReadUpTo(r.0, RunEnd(c.input, c.index - 1, IsDigit)) && !IsDigit(r.0.ch)
  {
    var n := GetChar(c);
    if IsDigit(n.ch) {
      DigitRunStops(n, acc + [c.ch], r);
    } else {
      RunEndUnique(c.input, c.index - 1, c.index, IsDigit);
    }
  }

  /** Numbers of 2^31 or more are reported as too large. */
  const NumberLimit: int := 0x8000_0000

  /** Only the scanner's fields differ between `st` and `r`, and
      diagnostics are only added. */
  predicate ScanFrame(st: State, r: State) {
    && r.cur.input == st.cur.input && r.lastPos == st.lastPos
    && r.symTable == st.symTable && r.curlev == st.curlev && r.memsize == st.memsize
    && r.asm == st.asm && r.halted == st.halted
    && st.diags <= r.diags && (st.error ==> r.error)
  }

  /** The conversion at the end of `Number`: a value of 2^31 or more is
      an error, reported once (as too large and, beyond 64 bits, as not
      convertible, which the first report suppresses). */
  function CheckNumber(st: State): (r: State)
    requires |st.val| >= 1 && AllDigits(st.val)
    ensures r.(errorLine := st.errorLine, errorPos := st.errorPos, error := st.error, diags := st.diags) == st
    ensures r.error <==> st.error || DecimalValue(st.val) >= NumberLimit
    ensures DecimalValue(st.val) < NumberLimit ==> r == st
    ensures st.diags <= r.diags && |r.diags| <= |st.diags| + 1
  {
    var (res, ok) := Atoi(st.val);
    var s1 := if res >= NumberLimit then PrintError(st, "number too large") else st;
    if !ok then PrintError(s1, "cannot convert to number") else s1
  }

  /** `Number`: NUMBER spelled by the whole digit run, then checked. */
  function Number(st: State): (r: State)
    requires CursorInv(st.cur) && IsDigit(st.cur.ch)
    ensures CursorInv(r.cur) && ScanFrame(st, r) && Measure(r.cur) < Measure(st.cur)
    ensures r.sym == NUMBER && |r.val| >= 1 && AllDigits(r.val)
    ensures r.error <==> st.error || DecimalValue(r.val) >= NumberLimit
    ensures DecimalValue(r.val) < NumberLimit ==> r.diags == st.diags
    ensures |r.diags| <= |st.diags| + 1
  {
    var (c, digits) := DigitRun(st.cur, "");
    RunSlice(st.cur.input, st.cur.index - 1, RunEnd(st.cur.input, st.cur.index - 1, IsDigit), IsDigit);
    CheckNumber(st.(cur := c, sym := NUMBER, val := digits))
  }

  /** A number is spelled by the whole digit run at the cursor, and the
      cursor stops just past it. */
  lemma NumberReads(st: State)
    requires CursorInv(st.cur) && IsDigit(st.cur.ch)
    ensures var r := Number(st);
            var e := RunEnd(st.cur.input, st.cur.index - 1, IsDigit);
            r.val == st.cur.input[st.cur.index - 1..e] && ReadUpTo(r.cur, e)
  {
    DigitRunStops(st.cur, "", DigitRun(st.cur, ""));
  }

  // ----- operators and punctuation -----

  /** Every operator and punctuation spelling and its token. */
  const OperatorTable: map<string, int> := map[
    "*" := TIMES, "+" := PLUS, "-" := MINUS, "=" := EQ,
    "<" := LT, "<=" := LE, "<>" := NE, ">" := GT, ">=" := GE,
    ";" := SEMICOLON, "," := COMMA, ":" := COLON, "." := PERIOD,
    "(" := LPAREN, ")" := RPAREN, "[" := LBRAK, "]" := RBRAK]

  predicate IsOperatorChar(ch: char) {
    ch in "*+-=<>;,:.()[]"
  }

  /** The operator characters are exactly the one-character spellings. */
  lemma OperatorChars(ch: char)
    ensures IsOperatorChar(ch) <==> [ch] in OperatorTable
  {
  }

  /** The operator branches of `GetSym`. */
  function Operator(c: Cursor): (r: (Cursor, int))
    requires CursorInv(c) && IsOperatorChar(c.ch)
    ensures CursorInv(r.0) && r.0.input == c.input && Measure(r.0) < Measure(c)
    ensures ValidToken(r.1) && r.1 !in {0, NUMBER, IDENT, EOF}
  {
    var ch := c.ch;
    var n := GetChar(c);
    if ch == '*' then (n, TIMES)
    else if ch == '+' then (n, PLUS)
    else if ch == '-' then (n, MINUS)
    else if ch == '=' then (n, EQ)
    else if ch == '<' then
      if n.ch == '=' then (GetChar(n), LE)
      else if n.ch == '>' then (GetChar(n), NE)
      else (n, LT)
    else if ch == '>' then
      if n.ch == '=' then (GetChar(n), GE)
      else (n, GT)
    else if ch == ';' then (n, SEMICOLON)
    else if ch == ',' then (n, COMMA)
    else if ch == ':' then (n, COLON)
    else if ch == '.' then (n, PERIOD)
    else if ch == '(' then (n, LPAREN)
    else if ch == ')' then (n, RPAREN)
    else if ch == '[' then (n, LBRAK)
    else (n, RBRAK)
  }

  /** The two-character spellings of the operator table. */
  lemma TwoCharSpellings(a: char, b: char)
    ensures [a, b] in OperatorTable <==> (a == '<' && (b == '=' || b == '>')) || (a == '>' && b == '=')
  {
    var two := [a, b];
    if a == '<' && b == '=' { assert two == "<="; }
    else if a == '<' && b == '>' { assert two == "<>"; }
    else if a == '>' && b == '=' { assert two == ">="; }
    else {
      assert two != "<=" && two != "<>" && two != ">=";
    }
  }

  /** Operator reads the longest spelling in the operator table that the
      input starts with (maximal munch). */
  lemma OperatorLongestMatch(c: Cursor)
    requires CursorInv(c) && IsOperatorChar(c.ch)
    ensures var r := Operator(c);
            var two := [c.ch, c.input[c.index]];
            if two in OperatorTable then r.1 == OperatorTable[two] && ReadUpTo(r.0, c.index + 1)
            else r.1 == OperatorTable[[c.ch]] && r.0 == GetChar(c)
  {
    TwoCharSpellings(c.ch, c.input[c.index]);
    if c.ch == '<' {
      LessMatch(c);
    } else if c.ch == '>' {
      GreaterMatch(c);
    } else {
      OneCharTokens(c.ch);
    }
  }

  lemma LessMatch(c: Cursor)
    requires CursorInv(c) && c.ch == '<'
    ensures var r := Operator(c);
            var d := c.input[c.index];
            && (d == '=' ==> r.1 == OperatorTable["<="] && ReadUpTo(r.0, c.index + 1))
            && (d == '>' ==> r.1 == OperatorTable["<>"] && ReadUpTo(r.0, c.index + 1))
            && (d != '=' && d != '>' ==> r.1 == OperatorTable["<"] && r.0 == GetChar(c))
  {
  }

  lemma GreaterMatch(c: Cursor)
    requires CursorInv(c) && c.ch == '>'
    ensures var r := Operator(c);
            var d := c.input[c.index];
            && (d == '=' ==> r.1 == OperatorTable[">="] && ReadUpTo(r.0, c.index + 1))
            && (d != '=' ==> r.1 == OperatorTable[">"] && r.0 == GetChar(c))
  {
  }

  /** The one-character spellings other than `<` and `>`. */
  lemma OneCharTokens(ch: char)
    requires IsOperatorChar(ch) && ch != '<' && ch != '>'
    ensures [ch] in OperatorTable && OperatorTable[[ch]] == OneCharToken(ch)
  {
    if ch in "*+-=;," {
      OneCharTokensArithmetic(ch);
    } else {
      OneCharTokensBrackets(ch);
    }
  }

  function OneCharToken(ch: char): int {
    if ch == '*' then TIMES else if ch == '+' then PLUS else if ch == '-' then MINUS
    else if ch == '=' then EQ else if ch == ';' then SEMICOLON else if ch == ',' then COMMA
    else if ch == ':' then COLON else if ch == '.' then PERIOD else if ch == '(' then LPAREN
    else if ch == ')' then RPAREN else if ch == '[' then LBRAK else RBRAK
  }

  lemma OneCharTokensArithmetic(ch: char)
    requires ch in "*+-=;,"
    ensures [ch] in OperatorTable && OperatorTable[[ch]] == OneCharToken(ch)
  {
  }

  lemma OneCharTokensBrackets(ch: char)
    requires ch in ":.()[]"
    ensures [ch] in OperatorTable && OperatorTable[[ch]] == OneCharToken(ch)
  {
  }

  // ----- tokens -----

  predicate IsBlank(ch: char) {
    ch == '\n' || ch == ' ' || ch == '!'
  }

  /** The skip loop at the head of `GetSym`: newlines, spaces and the `!`
      delimiters separate tokens. */
  function SkipBlanks(c: Cursor): (r: Cursor)
    requires CursorInv(c)
    decreases Measure(c)
    ensures CursorInv(r) && r.input == c.input
    ensures !IsBlank(r.ch)
    ensures !IsBlank(c.ch) ==> r == c
    ensures Measure(r) <= Measure(c)
    ensures IsBlank(c.ch) ==> Measure(r) < Measure(c)
  {
    if IsBlank(c.ch) then SkipBlanks(GetChar(c)) else c
  }

  /** `GetSym`: skips blanks and reads the next token. At the sentinel it
      yields EOF and leaves the cursor where it is, so EOF repeats;
      otherwise it consumes at least one character. */
  function GetSym(st: State): (r: State)
    requires CursorInv(st.cur)
    ensures CursorInv(r.cur) && ScanFrame(st, r) && ValidToken(r.sym)
    ensures st.cur.ch == Sentinel ==> r == st.(sym := EOF)
    ensures st.cur.ch != Sentinel ==> Measure(r.cur) < Measure(st.cur)
  {
    ReadToken(st.(cur := SkipBlanks(st.cur)))
  }

  /** The branches of `GetSym` after the blanks, chosen by the current
      character: identifier or reserved word, number, operator, end of
      input, or an illegal character. */
  function ReadToken(st: State): (r: State)
    requires CursorInv(st.cur) && !IsBlank(st.cur.ch)
    ensures CursorInv(r.cur) && ScanFrame(st, r) && ValidToken(r.sym)
    ensures st.cur.ch == Sentinel ==> r == st.(sym := EOF)
    ensures st.cur.ch != Sentinel ==> Measure(r.cur) < Measure(st.cur)
  {
    if IsLetter(st.cur.ch) then WordSym(st)
    else if IsDigit(st.cur.ch) then Number(st)
    else if IsOperatorChar(st.cur.ch) then OperatorSym(st)
    else if st.cur.ch == Sentinel then st.(sym := EOF)
    else IllegalChar(st)
  }

  /** The identifier branch: the spelling goes to `val`, its token to `sym`. */
  function WordSym(st: State): (r: State)
    requires CursorInv(st.cur) && IsLetter(st.cur.ch)
    ensures CursorInv(r.cur) && ScanFrame(st, r) && ValidToken(r.sym)
    ensures Measure(r.cur) < Measure(st.cur)
    ensures r.val == Spelling(st.cur.input, st.cur.index - 1, st.cur.index) && r.sym == WordToken(r.val)
  {
    var (n, w, t) := IdentKeyword(st.cur);
    st.(cur := n, sym := t, val := w)
  }

  function OperatorSym(st: State): (r: State)
    requires CursorInv(st.cur) && IsOperatorChar(st.cur.ch)
    ensures CursorInv(r.cur) && ScanFrame(st, r) && ValidToken(r.sym)
    ensures Measure(r.cur) < Measure(st.cur) && r.sym !in {0, NUMBER, IDENT, EOF}
  {
    var (n, t) := Operator(st.cur);
    st.(cur := n, sym := t)
  }

  /** Any other character is reported, skipped, and yields token 0. */
  function IllegalChar(st: State): (r: State)
    requires CursorInv(st.cur) && st.cur.ch != Sentinel
    ensures CursorInv(r.cur) && ScanFrame(st, r) && r.sym == 0 && r.error
    ensures Measure(r.cur) < Measure(st.cur)
  {
    var s := PrintError(st, "illegal character");
    s.(cur := GetChar(s.cur), sym := 0)
  }

  /** What each token GetSym yields stands for: EOF only at the
      sentinel; an identifier is a letter run that is not a reserved word;
      a number is a digit run. */
  lemma GetSymTokens(st: State)
    requires CursorInv(st.cur)
    ensures var r := GetSym(st);
            && (r.sym == EOF ==> r.cur.ch == Sentinel)
            && (r.sym == IDENT ==> |r.val| > 0 && AllLetters(r.val) && r.val !in KeywordMap)
            && (r.sym == NUMBER ==> |r.val| > 0 && AllDigits(r.val))
  {
    ReadTokenKinds(st.(cur := SkipBlanks(st.cur)));
  }

  /** `val` changes only for a word or a number: when the first character
      after the blanks is neither a letter nor a digit (an operator, the
      sentinel or an illegal character), the previous `val` is kept. */
  lemma GetSymKeepsVal(st: State)
    requires CursorInv(st.cur)
    ensures var c := SkipBlanks(st.cur).ch;
            && (!IsLetter(c) && !IsDigit(c) ==> GetSym(st).val == st.val)
            && (IsLetter(c) ==> GetSym(st).val == Spelling(st.cur.input, SkipBlanks(st.cur).index - 1, SkipBlanks(st.cur).index))
            && (IsDigit(c) ==> GetSym(st).sym == NUMBER)
  {
  }

  lemma ReadTokenKinds(st: State)
    requires CursorInv(st.cur) && !IsBlank(st.cur.ch)
    ensures var r := ReadToken(st);
            && (r.sym == EOF ==> r.cur.ch == Sentinel)
            && (r.sym == IDENT ==> |r.val| > 0 && AllLetters(r.val) && r.val !in KeywordMap)
            && (r.sym == NUMBER ==> |r.val| > 0 && AllDigits(r.val))
  {
    if IsLetter(st.cur.ch) {
      WordSymMeaning(st);
    }
  }

  lemma WordSymMeaning(st: State)
    requires CursorInv(st.cur) && IsLetter(st.cur.ch)
    ensures var r := WordSym(st);
            && r.sym != EOF && r.sym != NUMBER
            && (r.sym == IDENT ==> |r.val| > 0 && AllLetters(r.val) && r.val !in KeywordMap)
  {
    SpellingMeaning(st.cur.input, st.cur.index - 1);
  }

  /** `:` is always COLON and consumes only itself. */
  lemma ColonToken(st: State)
    requires CursorInv(st.cur) && st.cur.ch == ':'
    ensures GetSym(st).sym == COLON && GetSym(st).cur == GetChar(st.cur)
  {
    assert SkipBlanks(st.cur) == st.cur;
    assert st.(cur := st.cur) == st;
    assert GetSym(st) == OperatorSym(st);
  }

  /** `=` is always EQ. */
  lemma EqualsToken(st: State)
    requires CursorInv(st.cur) && st.cur.ch == '='
    ensures GetSym(st).sym == EQ
  {
    assert SkipBlanks(st.cur) == st.cur;
    assert st.(cur := st.cur) == st;
    assert GetSym(st) == OperatorSym(st);
  }

  /** So `:=` reads as COLON followed by EQ: no input yields BECOMES. */
  lemma BecomesReadsAsColonEq(st: State)
    requires CursorInv(st.cur) && st.cur.ch == ':' && st.cur.input[st.cur.index] == '='
    ensures GetSym(st).sym == COLON && GetSym(GetSym(st)).sym == EQ
  {
    ColonToken(st);
    EqualsToken(GetSym(st));
  }

  /** `Init`: reads the first character and the first token. */
  function Init(st: State): (r: State)
    requires CursorInv(st.cur)
    ensures CursorInv(r.cur) && ScanFrame(st, r)
    ensures st.cur.input[st.cur.index] == Sentinel ==> r.sym == EOF
  {
    GetSym(st.(cur := GetChar(st.cur)))
  }
}
