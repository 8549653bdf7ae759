/** `InputData`: the one record every phase of the compiler threads
    through — scanner cursor, current token, diagnostics bookkeeping,
    scope stack, generator state and the instruction log. */
module InputData {
  import opened SymTable

  /** A printed diagnostic: the line and position reported, and the text. */
  datatype Diagnostic = Diagnostic(line: int, pos: int, msg: string)

  /** The end-of-input sentinel appended to every source text. */
  const Sentinel: char := '~'

  /** The character before the first `GetChar` (Go's empty string). */
  const NoChar: char := '\0'

  /** The fields of `InputData` that only the character reader moves. */
  datatype Cursor = Cursor(
    input: string,               // preprocessed source text, ending in the sentinel
    index: int,                  // index of the next character to read
    ch: char,                    // current character
    pos: int,                    // position in the current line
    lineNumber: int,             // current line
    lastLine: int)               // line of the last character that was not a newline

  datatype State = State(
    cur: Cursor,
    sym: int,                    // current token code
    val: string,                 // spelling of the current identifier or number
    lastPos: int,                // never advanced by the scanner
    errorLine: int,              // position of the last diagnostic, to suppress repeats
    errorPos: int,
    error: bool,
    diags: seq<Diagnostic>,      // diagnostics printed so far
    symTable: seq<seq<Entry>>,   // scope stack, innermost scope first
    curlev: int,                 // procedure nesting depth of the generator
    memsize: int,                // bytes of linear memory allocated so far
    asm: seq<string>,            // the instruction log
    halted: bool)                // a Go run-time panic stopped the compiler

  /** `FileHelper`: the file contents followed by the sentinel. */
  function LoadInput(contents: string): (s: string)
    ensures |s| == |contents| + 1 && s[|s| - 1] == Sentinel
    ensures s[..|contents|] == contents
  {
    contents + [Sentinel]
  }

  /** `NewInputData` with the file contents already read. */
  function NewInputData(contents: string): (st: State)
    ensures st.cur.input == LoadInput(contents)
    ensures st.symTable == [[]]
    ensures st.curlev == 0 && st.memsize == 0 && st.asm == []
    ensures st.cur.lineNumber == 1 && st.cur.lastLine == 1 && st.errorLine == 1
    ensures st.cur.pos == 0 && st.lastPos == 0 && st.errorPos == 0
    ensures !st.error && st.diags == [] && !st.halted
    ensures st.cur.index == 0 && st.sym == 0 && st.val == ""
  {
    State(Cursor(LoadInput(contents), 0, NoChar, 0, 1, 1), 0, "", 0, 1, 0, false, [], [[]], 0, 0, [], false)
  }
}
