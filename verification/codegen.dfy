/** The code generator: WebAssembly text appended line by line to the
    instruction log, driven by the level tag of each entry (0 global,
    `curlev` local, -2 in linear memory, -1 already on the stack). */
module CodeGen {
  import opened Base
  import opened Keywords
  import opened SymTable
  import opened InputData
  import opened Scanner

  /** What every generator keeps: the scanner does not move, the scope
      stack and the panic flag are untouched, the instruction log and the
      diagnostics only grow, and a reported error stays reported. */
  predicate GenFrame(st: State, r: State) {
    && r.cur == st.cur && r.sym == st.sym && r.val == st.val && r.lastPos == st.lastPos
    && r.symTable == st.symTable && r.halted == st.halted
    && st.asm <= r.asm && st.diags <= r.diags && (st.error ==> r.error)
  }

  function Emit(st: State, lines: seq<string>): (r: State)
    ensures r.asm == st.asm + lines && GenFrame(st, r)
  {
    st.(asm := st.asm + lines)
  }

  /** The lines a generator appended between `st` and `r`. */
  function Emitted(st: State, r: State): seq<string>
    requires |st.asm| <= |r.asm|
  {
    r.asm[|st.asm|..]
  }

  const Imports: seq<string> := [
    "(module",
    "(import \"P0lib\" \"write\" (func $write (param i32)))",
    "(import \"P0lib\" \"writeln\" (func $writeln))",
    "(import \"P0lib\" \"read\" (func $read (result i32)))"]

  /** `GenProgStart`: the module header with the three library imports. */
  function GenProgStart(st: State): (r: State)
    ensures GenFrame(st, r) && r.asm == st.asm + Imports
    ensures r == st.(asm := r.asm)
  {
    Emit(st, Imports)
  }

  // ----- sizes -----

  /** `GenBool`: a boolean occupies 1 unit. */
  function GenBool(e: Entry): (r: Entry)
    ensures r == e.(size := 1) && r.size == PrimSize(TBool)
  {
    e.(size := 1)
  }

  /** `GenInt`: an integer occupies 4 units. */
  function GenInt(e: Entry): (r: Entry)
    ensures r == e.(size := 4) && r.size == PrimSize(TInt)
  {
    e.(size := 4)
  }

  /** `GenArray`: the array occupies `length` elements of the element size. */
  function GenArray(e: Entry): (r: Entry)
    ensures r == e.(size := e.ctp.length * e.ctp.size)
    ensures e.ctp.length >= 0 && e.ctp.size >= 0 ==> r.size >= 0
  {
    e.(size := e.ctp.length * e.ctp.size)
  }

  /** The total size of a list of fields. */
  function SumSizes(fields: seq<Entry>): int {
    if |fields| == 0 then 0 else SumSizes(fields[..|fields| - 1]) + fields[|fields| - 1].size
  }

  /** `GenRec` as written: the size is the sum of the field sizes, but the
      offsets are assigned to the loop's copy of each field, so the
      record's own fields keep the offsets they had. */
  function GenRecAsWritten(e: Entry): (r: Entry)
    ensures r.size == SumSizes(e.ctp.fields) && r.ctp == e.ctp
    ensures r == e.(size := r.size)
  {
    e.(size := SumSizes(e.ctp.fields))
  }

  /** The fields with offsets assigned as running sums from `start`. */
  function Layout(fields: seq<Entry>, start: int): (r: seq<Entry>)
    ensures |r| == |fields|
    ensures forall j :: 0 <= j < |fields| ==> r[j] == fields[j].(offset := r[j].offset)
    decreases |fields|
  {
    if |fields| == 0 then []
    else [fields[0].(offset := start)] + Layout(fields[1..], start + fields[0].size)
  }

  /** Each field's offset is the total size of the fields before it. */
  lemma LayoutOffsets(fields: seq<Entry>, start: int)
    ensures forall j :: 0 <= j < |fields| ==> Layout(fields, start)[j].offset == start + SumSizes(fields[..j])
  {
    forall j | 0 <= j < |fields| ensures Layout(fields, start)[j].offset == start + SumSizes(fields[..j]) {
      LayoutOffsetAt(fields, start, j);
    }
  }

  /** Field `j` of the layout sits at the total size of the fields before
      it. */
  lemma {:induction false} LayoutOffsetAt(fields: seq<Entry>, start: int, j: nat)
    requires j < |fields|
    ensures Layout(fields, start)[j].offset == start + SumSizes(fields[..j])
    decreases j
  {
    if j > 0 {
      var rest := Layout(fields[1..], start + fields[0].size);
      calc {
        Layout(fields, start)[j].offset;
        == { LayoutAfterFirst(fields, start, j); }
        rest[j - 1].offset;
        == { LayoutOffsetAt(fields[1..], start + fields[0].size, j - 1); }
        start + fields[0].size + SumSizes(fields[1..][..j - 1]);
        == { SumSizesPrefix(fields, j); }
        start + SumSizes(fields[..j]);
      }
    } else {
      assert fields[..0] == [];
    }
  }

  /** Past the first field, the layout is the layout of the rest. */
  lemma LayoutAfterFirst(fields: seq<Entry>, start: int, j: nat)
    requires 0 < j < |fields|
    ensures Layout(fields, start)[j] == Layout(fields[1..], start + fields[0].size)[j - 1]
  {
  }

  /** A non-empty prefix sums to its first size and the rest. */
  lemma SumSizesPrefix(fields: seq<Entry>, j: nat)
    requires 0 < j <= |fields|
    ensures SumSizes(fields[..j]) == fields[0].size + SumSizes(fields[1..][..j - 1])
  {
    SumSizesFront(fields[..j]);
    assert fields[..j][1..] == fields[1..][..j - 1];
  }

  /** The total size splits into the first field and the rest. */
  lemma {:induction false} SumSizesFront(fields: seq<Entry>)
    requires |fields| > 0
    ensures SumSizes(fields) == fields[0].size + SumSizes(fields[1..])
    decreases |fields|
  {
    if |fields| > 1 {
      var init := fields[..|fields| - 1];
      SumSizesFront(init);
      assert init[1..] == fields[1..][..|fields[1..]| - 1];
    }
  }

  /** `GenRec` with the offsets stored in the record's fields, as the
      record layout requires: every field sits at the total size of the
      fields before it, and the record's size is the total. */
  function GenRec(e: Entry): (r: Entry)
    ensures r.size == SumSizes(e.ctp.fields)
    ensures |r.ctp.fields| == |e.ctp.fields|
    ensures forall j :: 0 <= j < |e.ctp.fields| ==>
              r.ctp.fields[j] == e.ctp.fields[j].(offset := SumSizes(e.ctp.fields[..j]))
    ensures r == e.(size := r.size, ctp := e.ctp.(fields := r.ctp.fields))
  {
    LayoutOffsets(e.ctp.fields, 0);
    e.(size := SumSizes(e.ctp.fields), ctp := e.ctp.(fields := Layout(e.ctp.fields, 0)))
  }

  /** Two integer fields: as written both stay at offset 0, so they
      overlap; with the offsets stored the second is at 4. */
  lemma GenRecOffsetCounterexample()
    ensures var rec := Record([Var(TInt).(name := "a"), Var(TInt).(name := "b")]);
            && GenRecAsWritten(rec).size == 8
            && GenRecAsWritten(rec).ctp.fields[1].offset == GenRecAsWritten(rec).ctp.fields[0].offset == 0
            && GenRec(rec).ctp.fields[1].offset == 4
  {
    var fields := [Var(TInt).(name := "a"), Var(TInt).(name := "b")];
    assert fields[..1] == [fields[0]];
    assert SumSizes(fields[..1]) == 4;
  }

  // ----- variable allocation -----

  /** A variable the generator can hold in a WebAssembly global or local. */
  predicate ScalarVar(e: Entry) {
    e.kind == VarEntry && (e.tp == TInt || e.tp == TBool)
  }

  /** A variable of any other type; the generator rejects it. */
  predicate OtherVar(e: Entry) {
    e.kind == VarEntry && !(e.tp == TInt || e.tp == TBool)
  }

  /** Reference definition: one declaration line per scalar variable, in
      order, made by `line`. */
  function Decls(scope: seq<Entry>, line: string -> string): (r: seq<string>)
    ensures |r| <= |scope|
  {
    if |scope| == 0 then []
    else (if ScalarVar(scope[0]) then [line(scope[0].name)] else []) + Decls(scope[1..], line)
  }

  function GlobalLine(name: string): string {
    "(global $" + name + " (mut i32) i32.const 0)"
  }

  function LocalLine(name: string): string {
    "(local $" + name + " i32)"
  }

  /** `GenGlobalVars` from index `i` of the scope. The aggregate branch
      of the source re-tests the kind inside the variable branch, so it
      never runs: no memory is allocated, and a variable of another type
      is reported. */
  function GenGlobalVars(st: State, scope: seq<Entry>, i: nat): (r: State)
    ensures GenFrame(st, r) && r.curlev == st.curlev && r.memsize == st.memsize
    ensures i <= |scope| ==> r.asm == st.asm + Decls(scope[i..], GlobalLine)
    ensures i >= |scope| ==> r == st
    ensures st.error ==> r.error
    decreases |scope| - i
  {
    if i >= |scope| then st
    else
      var s1 := DeclareVar(st, scope[i], GlobalLine);
      assert scope[i..] == [scope[i]] + scope[i + 1..];
      GenGlobalVars(s1, scope, i + 1)
  }

  /** One step of the allocation loops: a scalar variable is declared,
      a variable of another type is reported, anything else is skipped. */
  function DeclareVar(st: State, e: Entry, line: string -> string): (r: State)
    ensures GenFrame(st, r) && r.curlev == st.curlev && r.memsize == st.memsize
    ensures r.asm == st.asm + (if ScalarVar(e) then [line(e.name)] else [])
    ensures st.error || OtherVar(e) ==> r.error
  {
    if e.kind != VarEntry then st
    else if e.tp == TInt || e.tp == TBool then Emit(st, [line(e.name)])
    else PrintError(st, "WASM: type?")
  }

  /** A variable of a type the generator cannot allocate is reported. */
  lemma {:induction false} GlobalVarsReportOthers(st: State, scope: seq<Entry>, i: nat, j: nat)
    requires i <= j < |scope| && OtherVar(scope[j])
    ensures GenGlobalVars(st, scope, i).error && GenLocalVars(st, scope, i).error
    decreases j - i
  {
    if i < j {
      GlobalVarsReportOthers(DeclareVar(st, scope[i], GlobalLine), scope, i + 1, j);
      GlobalVarsReportOthers(DeclareVar(st, scope[i], LocalLine), scope, i + 1, j);
    }
  }

  /** `GenLocalVars`: as `GenGlobalVars` with local declarations; the
      branch rejecting local aggregates never runs for the same reason. */
  function GenLocalVars(st: State, scope: seq<Entry>, i: nat): (r: State)
    ensures GenFrame(st, r) && r.curlev == st.curlev && r.memsize == st.memsize
    ensures i <= |scope| ==> r.asm == st.asm + Decls(scope[i..], LocalLine)
    ensures i >= |scope| ==> r == st
    ensures st.error ==> r.error
    decreases |scope| - i
  {
    if i >= |scope| then st
    else
      var s1 := DeclareVar(st, scope[i], LocalLine);
      assert scope[i..] == [scope[i]] + scope[i + 1..];
      GenLocalVars(s1, scope, i + 1)
  }

  // ----- loading -----

  /** `loadItem`: the instructions that push the value of an entry, by
      kind and level. */
  function LoadItem(st: State, e: Entry): (r: State)
    ensures GenFrame(st, r) && r.curlev == st.curlev && r.memsize == st.memsize
    ensures e.kind == VarEntry && e.lev == 0 ==> r.asm == st.asm + ["global.get $" + e.name]
    ensures e.kind == VarEntry && e.lev != 0 && e.lev == st.curlev ==> r.asm == st.asm + ["local.get $" + e.name]
    ensures e.kind == VarEntry && e.lev == -2 != st.curlev ==> r.asm == st.asm + ["i32.const" + Itoa(e.adr), "i32.load"]
    ensures e.kind == VarEntry && e.lev == -1 != st.curlev ==> r == st
    ensures e.kind == VarEntry && e.lev !in {0, -1, -2, st.curlev} ==> r == PrintError(st, "WASM: var Level")
    ensures e.kind == RefEntry && e.lev == -1 ==> r.asm == st.asm + ["i32.load"]
    ensures e.kind == RefEntry && e.lev != -1 && e.lev == st.curlev ==> r.asm == st.asm + ["local.get $" + e.name, "i32.load"]
    ensures e.kind == RefEntry && e.lev !in {-1, st.curlev} ==> r == PrintError(st, "WASM: ref Level")
    ensures e.kind == ConstEntry ==> r.asm == st.asm + ["i32.const " + Itoa(e.val)]
    ensures e.kind !in {VarEntry, RefEntry} || LevelOk(e, st.curlev) ==> r == st.(asm := r.asm)
  {
    if e.kind == VarEntry then
      if e.lev == 0 then Emit(st, ["global.get $" + e.name])
      else if e.lev == st.curlev then Emit(st, ["local.get $" + e.name])
      else if e.lev == -2 then Emit(st, ["i32.const" + Itoa(e.adr), "i32.load"])
      else if e.lev != -1 then PrintError(st, "WASM: var Level")
      else st
    else if e.kind == RefEntry then
      if e.lev == -1 then Emit(st, ["i32.load"])
      else if e.lev == st.curlev then Emit(st, ["local.get $" + e.name, "i32.load"])
      else PrintError(st, "WASM: ref Level")
    else if e.kind == ConstEntry then Emit(st, ["i32.const " + Itoa(e.val)])
    else st
  }

  /** The levels the generator can address: a variable is global, local,
      in memory or on the stack; a reference is on the stack or local. */
  predicate LevelOk(e: Entry, curlev: int) {
    && (e.kind == VarEntry ==> e.lev in {0, -1, -2, curlev})
    && (e.kind == RefEntry ==> e.lev in {-1, curlev})
  }

  /** Loading fails exactly for a variable or reference at a level it
      cannot address; then nothing is emitted and a diagnostic may be
      printed. Otherwise only the log changes. */
  lemma LoadItemFailsOnlyOnBadLevel(st: State, e: Entry)
    ensures var r := LoadItem(st, e);
            && (LevelOk(e, st.curlev) ==> r == st.(asm := r.asm))
            && (!LevelOk(e, st.curlev) ==> r.asm == st.asm && r.error)
  {
  }

  // ----- operators -----

  /** `GenUnaryOp`: loads the operand, then negates (`-`), complements
      (`not`), or opens the block of a short-circuit `and`/`or`. The
      result is a transient on the stack. */
  function GenUnaryOp(st: State, op: int, e: Entry): (r: (State, Entry))
    ensures GenFrame(st, r.0) && r.0.curlev == st.curlev && r.0.memsize == st.memsize
    ensures var l := LoadItem(st, e);
            && (op == MINUS ==> r == (Emit(l, ["i32.const -1", "i32.mul"]), e.(kind := VarEntry, tp := TInt, lev := -1)))
            && (op == NOT ==> r == (Emit(l, ["i32.eqz"]), e.(tp := TBool, lev := -1)))
            && (op == AND ==> r == (Emit(l, ["if (result i32)"]), e.(tp := TBool, lev := -1)))
            && (op == OR ==> r == (Emit(l, ["if (result i32)", "i32.const 1", "else"]), e.(tp := TBool, lev := -1)))
            && (op !in {MINUS, NOT, AND, OR} ==> r == (PrintError(l, "WASM: unary operator?"), e))
  {
    var l := LoadItem(st, e);
    if op == MINUS then (Emit(l, ["i32.const -1", "i32.mul"]), e.(kind := VarEntry, tp := TInt, lev := -1))
    else if op == NOT then (Emit(l, ["i32.eqz"]), e.(tp := TBool, lev := -1))
    else if op == AND then (Emit(l, ["if (result i32)"]), e.(tp := TBool, lev := -1))
    else if op == OR then (Emit(l, ["if (result i32)", "i32.const 1", "else"]), e.(tp := TBool, lev := -1))
    else (PrintError(l, "WASM: unary operator?"), e)
  }

  /** A transient of the given type: already on the stack. */
  function Transient(tp: PrimitiveType): (r: Entry)
    ensures r.kind == VarEntry && r.tp == tp && r.lev == -1
  {
    Var(tp).(lev := -1)
  }

  /** The one WebAssembly instruction of each arithmetic operator. */
  function ArithOpcode(op: int): string
    requires op in {PLUS, MINUS, TIMES, DIV, MOD}
  {
    if op == PLUS then "i32.add"
    else if op == MINUS then "i32.sub"
    else if op == TIMES then "i32.mul"
    else if op == DIV then "i32.div_s"
    else "i32.rem_s"
  }

  /** Distinct arithmetic operators get distinct signed instructions. */
  lemma ArithOpcodesDistinct()
    ensures forall a, b :: a in {PLUS, MINUS, TIMES, DIV, MOD} && b in {PLUS, MINUS, TIMES, DIV, MOD} && a != b ==>
              ArithOpcode(a) != ArithOpcode(b)
  {
  }

  /** `GenBinaryOp`: arithmetic loads both operands and applies one
      instruction; `and`/`or` load the right operand and close the block
      `GenUnaryOp` opened (`and` yields 0 when the left operand is false).
      The result is a transient. */
  function GenBinaryOp(st: State, op: int, x: Entry, y: Entry): (r: (State, Entry))
    ensures GenFrame(st, r.0) && r.0.curlev == st.curlev && r.0.memsize == st.memsize
    ensures op in {PLUS, MINUS, TIMES, DIV, MOD} ==>
              r == (Emit(LoadItem(LoadItem(st, x), y), [ArithOpcode(op)]), Transient(TInt))
    ensures op == AND ==> r == (Emit(LoadItem(st, y), ["else", "i32.const 0", "end"]), Transient(TBool))
    ensures op == OR ==> r == (Emit(LoadItem(st, y), ["end"]), Transient(TBool))
    ensures op !in {PLUS, MINUS, TIMES, DIV, MOD, AND, OR} ==> r == (st, x)
  {
    if op in {PLUS, MINUS, TIMES, DIV, MOD} then
      (Emit(LoadItem(LoadItem(st, x), y), [ArithOpcode(op)]), Transient(TInt))
    else if op == AND then (Emit(LoadItem(st, y), ["else", "i32.const 0", "end"]), Transient(TBool))
    else if op == OR then (Emit(LoadItem(st, y), ["end"]), Transient(TBool))
    else (st, x)
  }

  /** The instruction of each relational operator (none for others). */
  function RelOpcode(op: int): (r: seq<string>)
    ensures |r| == (if op in {EQ, NE, LT, GT, LE, GE} then 1 else 0)
  {
    if op == EQ then ["i32.eq"]
    else if op == NE then ["i32.ne"]
    else if op == LT then ["i32.lt_s"]
    else if op == GT then ["i32.gt_s"]
    else if op == LE then ["i32.le_s"]
    else if op == GE then ["i32.ge_s"]
    else []
  }

  /** `GenRelation`: loads both operands and compares them, leaving a
      boolean transient. */
  function GenRelation(st: State, op: int, x: Entry, y: Entry): (r: (State, Entry))
    ensures GenFrame(st, r.0) && r.0.curlev == st.curlev && r.0.memsize == st.memsize
    ensures r == (Emit(LoadItem(LoadItem(st, x), y), RelOpcode(op)), Transient(TBool))
  {
    var s := LoadItem(LoadItem(st, x), y);
    (Emit(s, RelOpcode(op)), Transient(TBool))
  }

  /** Distinct relations get distinct instructions. */
  lemma RelOpcodesDistinct()
    ensures forall a, b :: a in {EQ, NE, LT, GT, LE, GE} && b in {EQ, NE, LT, GT, LE, GE} && a != b ==>
              RelOpcode(a) != RelOpcode(b)
  {
  }

  /** Short-circuit `and`: the left operand is tested, the right
      operand's code (`code`, then its load) runs only in the `then`
      branch, and the `else` branch yields false. */
  lemma ShortCircuitAnd(st: State, x: Entry, code: seq<string>, y: Entry)
    requires LevelOk(x, st.curlev) && LevelOk(y, st.curlev)
    ensures var s1 := GenUnaryOp(st, AND, x).0;
            var s2 := Emit(s1, code);
            var s3 := GenBinaryOp(s2, AND, GenUnaryOp(st, AND, x).1, y).0;
            s3.asm == st.asm + Emitted(st, LoadItem(st, x)) + ["if (result i32)"] + code
                      + Emitted(s2, LoadItem(s2, y)) + ["else", "i32.const 0", "end"]
  {
    var l := LoadItem(st, x);
    assert l.asm == st.asm + Emitted(st, l);
    var s1 := GenUnaryOp(st, AND, x).0;
    var s2 := Emit(s1, code);
    var ly := LoadItem(s2, y);
    assert ly.asm == s2.asm + Emitted(s2, ly);
  }

  /** Short-circuit `or`: the `then` branch yields true, the right
      operand's code runs only in the `else` branch. */
  lemma ShortCircuitOr(st: State, x: Entry, code: seq<string>, y: Entry)
    requires LevelOk(x, st.curlev) && LevelOk(y, st.curlev)
    ensures var s1 := GenUnaryOp(st, OR, x).0;
            var s2 := Emit(s1, code);
            var s3 := GenBinaryOp(s2, OR, GenUnaryOp(st, OR, x).1, y).0;
            s3.asm == st.asm + Emitted(st, LoadItem(st, x)) + ["if (result i32)", "i32.const 1", "else"] + code
                      + Emitted(s2, LoadItem(s2, y)) + ["end"]
  {
    var l := LoadItem(st, x);
    assert l.asm == st.asm + Emitted(st, l);
    var s1 := GenUnaryOp(st, OR, x).0;
    var s2 := Emit(s1, code);
    var ly := LoadItem(s2, y);
    assert ly.asm == s2.asm + Emitted(s2, ly);
  }

  // ----- selectors -----

  /** The line pushing the constant `n`. */
  function ConstInstr(n: int): string {
    "i32.const " + Itoa(n)
  }

  /** The offset of element `i` of an array with lower bound `lo` and
      element size `sz`. */
  function ElementOffset(i: int, lo: int, sz: int): int {
    (i - lo) * sz
  }

  /** Adding a constant to the address on the stack. */
  function OffsetCode(n: int): seq<string> {
    [ConstInstr(n), "i32.add"]
  }

  /** `GenSelect`: a field of a variable is reached by adding the field's
      offset to the address at compile time; for a reference the offset
      is added at run time. The result has the field's type. */
  function GenSelect(st: State, e: Entry, field: Entry): (r: (State, Entry))
    ensures GenFrame(st, r.0) && r.0.curlev == st.curlev && r.0.memsize == st.memsize
    ensures e.kind == VarEntry ==> r == (st, e.(adr := e.adr + field.offset, tp := field.tp))
    ensures e.kind == RefEntry ==>
              && r.0.asm == st.asm + (if e.lev > 0 then ["local.get $" + e.name] else [])
                                   + OffsetCode(field.offset)
              && r.1 == e.(lev := -1, tp := field.tp)
    ensures e.kind !in {VarEntry, RefEntry} ==> r == (st, e.(tp := field.tp))
  {
    if e.kind == VarEntry then (st, e.(adr := e.adr + field.offset, tp := field.tp))
    else if e.kind == RefEntry then
      var s := if e.lev > 0 then Emit(st, ["local.get $" + e.name]) else st;
      (Emit(s, OffsetCode(field.offset)), e.(lev := -1, tp := field.tp))
    else (st, e.(tp := field.tp))
  }

  /** Index arithmetic on the constant lines `l1`, `l2`, `l3`: subtract
      the first (when `sub` holds), multiply by the second, add the third. */
  function IndexLines(l1: string, l2: string, l3: string, sub: bool): seq<string> {
    (if sub then [l1, "i32.sub"] else []) + ([l2, "i32.mul"] + [l3, "i32.add"])
  }

  /** The address arithmetic of a dynamic index: the lower bound is
      subtracted (when it is not zero), the element size multiplied and
      the base address added. */
  function IndexCode(lo: int, sz: int, adr: int): seq<string> {
    IndexLines(ConstInstr(lo), ConstInstr(sz), ConstInstr(adr), lo != 0)
  }

  /** The address arithmetic of an index into an array reached through a
      reference: the index value on the stack is offset by the lower
      bound, scaled by the element size and added to the address below. */
  function ScaledIndexCode(lo: int, sz: int): seq<string> {
    [ConstInstr(lo), "i32.sub", ConstInstr(sz), "i32.mul", "i32.add"]
  }

  /** `GenIndex`: a constant index into a variable moves its address at
      compile time; any other index computes the element address at run
      time (subtracting the lower bound only when it is not zero) and
      turns the variable into a reference to the element. */
  function GenIndex(st: State, x: Entry, y: Entry): (r: (State, Entry))
    ensures GenFrame(st, r.0) && r.0.curlev == st.curlev && r.0.memsize == st.memsize
    ensures x.kind == VarEntry && y.kind == ConstEntry ==>
              r == (st, x.(adr := x.adr + ElementOffset(y.val, x.ctp.lower, x.ctp.size), tp := x.ctp.base))
    ensures x.kind == VarEntry && y.kind != ConstEntry ==>
              && r.1 == x.(kind := RefEntry, tp := x.ctp.base)
              && r.0.asm == LoadItem(st, y).asm + IndexCode(x.ctp.lower, x.ctp.size, x.adr)
    ensures x.kind != VarEntry ==>
              var here := x.lev == st.curlev;
              var s := if here then LoadItem(st, x) else st;
              && r.1 == (if here then x.(lev := -1) else x)
              && (x.kind == ConstEntry ==> r.0.asm == s.asm + OffsetCode(ElementOffset(y.val, x.ctp.lower, x.ctp.size)))
              && (x.kind != ConstEntry ==> r.0.asm == LoadItem(s, y).asm + ScaledIndexCode(x.ctp.lower, x.ctp.size))
  {
    if x.kind == VarEntry then
      if y.kind == ConstEntry then
        (st, x.(adr := x.adr + ElementOffset(y.val, x.ctp.lower, x.ctp.size), tp := x.ctp.base))
      else
        (Emit(LoadItem(st, y), IndexCode(x.ctp.lower, x.ctp.size, x.adr)), x.(kind := RefEntry, tp := x.ctp.base))
    else
      var (s, x1) := if x.lev == st.curlev then (LoadItem(st, x), x.(lev := -1)) else (st, x);
      if x1.kind == ConstEntry then
        (Emit(s, OffsetCode(ElementOffset(y.val, x1.ctp.lower, x1.ctp.size))), x1)
      else
        (Emit(LoadItem(s, y), ScaledIndexCode(x1.ctp.lower, x1.ctp.size)), x1)
  }

  // ----- what straight-line code computes -----

  /** The operand of an `i32.const` line, when the line is one. */
  function ConstOperand(line: string): Option<int> {
    if |line| >= 10 && line[..10] == "i32.const " && Atoi(line[10..]).1 then Some(Atoi(line[10..]).0)
    else None
  }

  /** The value of a binary integer instruction on its two operands, as
      section 4.3.2 of the WebAssembly Core Specification defines it,
      on unbounded integers; `None` for any other line. */
  function BinaryValue(instr: string, a: int, b: int): Option<int> {
    if instr == "i32.add" then Some(a + b)
    else if instr == "i32.sub" then Some(a - b)
    else if instr == "i32.mul" then Some(a * b)
    else if instr == "i32.eq" then Some(if a == b then 1 else 0)
    else if instr == "i32.ne" then Some(if a != b then 1 else 0)
    else if instr == "i32.lt_s" then Some(if a < b then 1 else 0)
    else if instr == "i32.gt_s" then Some(if a > b then 1 else 0)
    else if instr == "i32.le_s" then Some(if a <= b then 1 else 0)
    else if instr == "i32.ge_s" then Some(if a >= b then 1 else 0)
    else None
  }

  /** A reference semantics of straight-line code on the operand stack
      (top last): a constant is pushed, a binary instruction replaces the
      top two values by its result. `None` on any other line or when the
      stack runs short. */
  function Run(lines: seq<string>, stack: seq<int>): Option<seq<int>>
    decreases |lines|
  {
    if |lines| == 0 then Some(stack)
    else if ConstOperand(lines[0]).Some? then Run(lines[1..], stack + [ConstOperand(lines[0]).value])
    else if |stack| >= 2 && BinaryValue(lines[0], stack[|stack| - 2], stack[|stack| - 1]).Some? then
      Run(lines[1..], stack[..|stack| - 2] + [BinaryValue(lines[0], stack[|stack| - 2], stack[|stack| - 1]).value])
    else None
  }

  /** Running two pieces of code one after the other. */
  lemma {:induction false} RunAppend(a: seq<string>, b: seq<string>, stack: seq<int>)
    ensures Run(a + b, stack) == if Run(a, stack).Some? then Run(b, Run(a, stack).value) else None
    decreases |a|
  {
    if |a| > 0 {
      assert (a + b)[0] == a[0] && (a + b)[1..] == a[1..] + b;
      var c := ConstOperand(a[0]);
      if c.Some? {
        RunAppend(a[1..], b, stack + [c.value]);
      } else if |stack| >= 2 && BinaryValue(a[0], stack[|stack| - 2], stack[|stack| - 1]).Some? {
        RunAppend(a[1..], b, stack[..|stack| - 2] + [BinaryValue(a[0], stack[|stack| - 2], stack[|stack| - 1]).value]);
      }
    } else {
      assert a + b == b;
    }
  }

  /** A constant line the generator writes pushes its 64-bit value. */
  lemma ConstLine(n: int)
    requires InInt64(n)
    ensures ConstOperand(ConstInstr(n)) == Some(n)
  {
    var line := "i32.const " + Itoa(n);
    assert line[..10] == "i32.const " && line[10..] == Itoa(n);
    AtoiItoa(n);
  }

  /** A constant followed by a binary instruction applies the
      instruction to the value below and the constant. */
  lemma RunConstThen(line: string, instr: string, n: int, a: int)
    requires ConstOperand(line) == Some(n) && BinaryValue(instr, a, n).Some?
    ensures Run([line, instr], [a]) == Some([BinaryValue(instr, a, n).value])
  {
    var w := BinaryValue(instr, a, n).value;
    assert ConstOperand(instr).None?;
    assert Run([instr], [a, n]) == Run([], [w]) by {
      assert [a, n][..0] + [w] == [w];
    }
    assert Run([line, instr], [a]) == Run([instr], [a] + [n]) by {
      assert [line, instr][1..] == [instr];
    }
    assert [a] + [n] == [a, n];
  }

  /** The address arithmetic on any constant lines. */
  lemma {:induction false} IndexLinesRun(l1: string, l2: string, l3: string, lo: int, sz: int, adr: int, v: int)
    requires ConstOperand(l1) == Some(lo) && ConstOperand(l2) == Some(sz) && ConstOperand(l3) == Some(adr)
    ensures Run(IndexLines(l1, l2, l3, lo != 0), [v]) == Some([adr + ElementOffset(v, lo, sz)])
  {
    var sub: seq<string> := if lo != 0 then [l1, "i32.sub"] else [];
    if lo != 0 {
      RunConstThen(l1, "i32.sub", lo, v);
    }
    RunConstThen(l2, "i32.mul", sz, v - lo);
    RunConstThen(l3, "i32.add", adr, (v - lo) * sz);
    RunThree(sub, [l2, "i32.mul"], [l3, "i32.add"], [v], [v - lo], [(v - lo) * sz], [adr + (v - lo) * sz]);
  }

  /** Three pieces of code run one after the other. */
  lemma RunThree(a: seq<string>, b: seq<string>, c: seq<string>, s0: seq<int>, s1: seq<int>, s2: seq<int>, s3: seq<int>)
    requires Run(a, s0) == Some(s1) && Run(b, s1) == Some(s2) && Run(c, s2) == Some(s3)
    ensures Run(a + (b + c), s0) == Some(s3)
  {
    RunAppend(b, c, s1);
    RunAppend(a, b + c, s0);
  }

  /** The address arithmetic turns the index value `v` on the stack into
      `adr + (v - lo) * sz`. */
  lemma IndexCodeRuns(lo: int, sz: int, adr: int, v: int)
    requires InInt64(lo) && InInt64(sz) && InInt64(adr)
    ensures Run(IndexCode(lo, sz, adr), [v]) == Some([adr + ElementOffset(v, lo, sz)])
  {
    ConstLine(lo);
    ConstLine(sz);
    ConstLine(adr);
    IndexLinesRun(ConstInstr(lo), ConstInstr(sz), ConstInstr(adr), lo, sz, adr, v);
  }

  /** The code of a dynamic index into an array variable, emitted after
      the index value is loaded, is the address arithmetic. */
  lemma DynamicIndexCode(st: State, x: Entry, y: Entry)
    requires x.kind == VarEntry && y.kind != ConstEntry
    ensures Emitted(LoadItem(st, y), GenIndex(st, x, y).0) == IndexCode(x.ctp.lower, x.ctp.size, x.adr)
  {
  }

  /** On the index value `v` the address arithmetic of an array variable
      leaves the element's address: the address a constant index `v`
      gives at compile time. */
  lemma DynamicIndexAddress(st: State, x: Entry, v: int)
    requires x.kind == VarEntry
    requires InInt64(x.ctp.lower) && InInt64(x.ctp.size) && InInt64(x.adr)
    ensures Run(IndexCode(x.ctp.lower, x.ctp.size, x.adr), [v]) == Some([GenIndex(st, x, Const(TInt, v)).1.adr])
  {
    ConstIndexAddress(st, x, v);
    IndexCodeRuns(x.ctp.lower, x.ctp.size, x.adr, v);
  }

  /** A constant index `v` moves an array variable to element `v`. */
  lemma ConstIndexAddress(st: State, x: Entry, v: int)
    requires x.kind == VarEntry
    ensures GenIndex(st, x, Const(TInt, v)).1.adr == x.adr + ElementOffset(v, x.ctp.lower, x.ctp.size)
  {
  }

  /** Selecting field `k` of a record laid out with the offsets stored
      moves a variable's address by the total size of the fields before
      it; with the layout as written, by the offset the field already had. */
  lemma SelectedFieldAddress(st: State, v: Entry, rec: Entry, k: nat)
    requires v.kind == VarEntry && k < |rec.ctp.fields|
    ensures GenSelect(st, v, GenRec(rec).ctp.fields[k]).1.adr == v.adr + SumSizes(rec.ctp.fields[..k])
    ensures GenSelect(st, v, GenRecAsWritten(rec).ctp.fields[k]).1.adr == v.adr + rec.ctp.fields[k].offset
  {
  }

  /** Through a reference on the stack, the selection code is the
      addition of the field's stored offset, and adds it to the address
      at run time. */
  lemma SelectRuns(st: State, v: Entry, field: Entry, a: int)
    requires v.kind == RefEntry && v.lev <= 0 && InInt64(field.offset)
    ensures Emitted(st, GenSelect(st, v, field).0) == OffsetCode(field.offset)
    ensures Run(OffsetCode(field.offset), [a]) == Some([a + field.offset])
  {
    OffsetRuns(field.offset, a);
  }

  /** Adding a constant offset to the address on the stack. */
  lemma OffsetRuns(off: int, a: int)
    requires InInt64(off)
    ensures Run(OffsetCode(off), [a]) == Some([a + off])
  {
    ConstLine(off);
    RunConstThen(ConstInstr(off), "i32.add", off, a);
  }

  // ----- variables and assignment -----

  /** `GenVar`: the item for a variable or reference entry, keeping its
      name, type and level (and the address of a variable in memory) and
      the descriptor of an aggregate. A level between global and the
      current one is reported. */
  function GenVar(st: State, e: Entry): (r: (State, Entry))
    ensures GenFrame(st, r.0) && r.0.curlev == st.curlev && r.0.memsize == st.memsize
    ensures 0 < e.lev < st.curlev ==> r.0 == PrintError(st, "WASM: Level")
    ensures !(0 < e.lev < st.curlev) ==> r.0 == st
    ensures e.kind in {VarEntry, RefEntry} ==>
              && r.1.kind == e.kind && r.1.name == e.name && r.1.tp == e.tp && r.1.lev == e.lev
              && r.1.size == PrimSize(e.tp) && r.1.adr == (if e.kind == VarEntry && e.lev == -2 then e.adr else 0)
    ensures IsAggregate(e) ==> r.1.ctp == e.ctp && r.1.arrOrRec == e.arrOrRec
    ensures !IsAggregate(e) ==> r.1.arrOrRec == Scalar
  {
    var s := if 0 < e.lev && e.lev < st.curlev then PrintError(st, "WASM: Level") else st;
    var y := if e.kind == RefEntry then Ref(e.tp).(lev := e.lev, name := e.name)
             else if e.kind == VarEntry then
               Var(e.tp).(lev := e.lev, name := e.name, adr := if e.lev == -2 then e.adr else 0)
             else ZeroEntry;
    (s, if IsAggregate(e) then y.(ctp := e.ctp, arrOrRec := e.arrOrRec) else y)
  }

  /** `GenConst`: a constant needs no code. */
  function GenConst(e: Entry): Entry {
    e
  }

  /** `GenAssign`: stores the value of `y` into `x`, mirroring the
      addressing of `loadItem`: `global.set`, `local.set`, or an address
      then `i32.store`; a reference stores through its address. */
  function GenAssign(st: State, x: Entry, y: Entry): (r: State)
    ensures GenFrame(st, r) && r.curlev == st.curlev && r.memsize == st.memsize
    ensures x.kind == VarEntry && x.lev == 0 ==>
              r.asm == LoadItem(st, y).asm + ["global.set $" + x.name]
    ensures x.kind == VarEntry && x.lev != 0 && x.lev == st.curlev && x.lev != -2 ==>
              r.asm == LoadItem(st, y).asm + ["local.set $ " + x.name]
    ensures x.kind == VarEntry && x.lev == -2 && st.curlev != -2 ==>
              var s := Emit(st, ["i32.const " + Itoa(x.adr)]);
              r.asm == LoadItem(s, y).asm + ["i32.store"]
    ensures x.kind == VarEntry && x.lev !in {0, -2, st.curlev} ==>
              r == PrintError(LoadItem(st, y), "WASM: Level")
    ensures x.kind == RefEntry ==>
              var s := if x.lev == st.curlev then Emit(st, ["local.get $" + x.name]) else st;
              r.asm == LoadItem(s, y).asm + ["i32.store"]
    ensures x.kind !in {VarEntry, RefEntry} ==> r == st
  {
    if x.kind == VarEntry then
      var s := if x.lev == -2 then Emit(st, ["i32.const " + Itoa(x.adr)]) else st;
      var l := LoadItem(s, y);
      if x.lev == 0 then Emit(l, ["global.set $" + x.name])
      else if x.lev == st.curlev then Emit(l, ["local.set $ " + x.name])
      else if x.lev == -2 then Emit(l, ["i32.store"])
      else PrintError(l, "WASM: Level")
    else if x.kind == RefEntry then
      var s := if x.lev == st.curlev then Emit(st, ["local.get $" + x.name]) else st;
      Emit(LoadItem(s, y), ["i32.store"])
    else st
  }

  /** Assignment and loading agree on the addressing of a variable at
      the global or the current level: what `loadItem` reads with
      `get`, the assignment writes with `set`. */
  lemma AssignMirrorsLoad(st: State, x: Entry, y: Entry)
    requires x.kind == VarEntry && (x.lev == 0 || x.lev == st.curlev) && x.lev != -2
    ensures var load := Emitted(st, LoadItem(st, x));
            var store := Emitted(LoadItem(st, y), GenAssign(st, x, y));
            && (x.lev == 0 ==> load == ["global.get $" + x.name] && store == ["global.set $" + x.name])
            && (x.lev != 0 ==> load == ["local.get $" + x.name] && store == ["local.set $ " + x.name])
  {
  }

  // ----- program and procedures -----

  /** `GenProgEntry`: the function holding the main program body. */
  function GenProgEntry(st: State, ident: string): (r: State)
    ensures GenFrame(st, r) && r == st.(asm := st.asm + ["(func $program"])
  {
    Emit(st, ["(func $program"])
  }

  /** The page size of WebAssembly linear memory, 64 KiB. */
  const PageSize: int := 65536

  /** Pages declared for `memsize` units: one more than the whole pages. */
  function MemoryPages(memsize: int): int {
    TruncDiv(memsize, PageSize) + 1
  }

  /** The declared memory covers the allocated units, with less than one
      page to spare. */
  lemma MemoryPagesCover(memsize: int)
    requires memsize >= 0
    ensures (MemoryPages(memsize) - 1) * PageSize <= memsize < MemoryPages(memsize) * PageSize
  {
    TruncDivAgreesOnNaturals(memsize, PageSize);
  }

  /** The log joined into one text, each line preceded by a newline. */
  function Join(lines: seq<string>): (r: string)
    ensures |r| >= |lines|
  {
    if |lines| == 0 then "" else Join(lines[..|lines| - 1]) + "\n" + lines[|lines| - 1]
  }

  /** The text closing the module: the end of the program function, the
      memory declaration for `memsize` units and the start function. */
  function ClosingLine(memsize: int): string {
    ")\n(memory " + Itoa(MemoryPages(memsize)) + ")\n(start $program)\n)"
  }

  /** `GenProgExit`: closes the program function, declares the memory and
      the start function, and returns the whole log as one text. */
  function GenProgExit(st: State): (r: (State, string))
    ensures GenFrame(st, r.0) && r.0.curlev == st.curlev && r.0.memsize == st.memsize
    ensures r.0.asm == st.asm + [ClosingLine(st.memsize)]
    ensures r.1 == Join(r.0.asm)
  {
    var s := Emit(st, [ClosingLine(st.memsize)]);
    (s, Join(s.asm))
  }

  /** The parameter part of a function header: one `i32` parameter per
      formal, named after it. */
  function ParamList(params: seq<Entry>): (r: string)
  {
    if |params| == 0 then "" else ParamList(params[..|params| - 1]) + "(param $" + params[|params| - 1].name + " i32)"
  }

  /** `GenProcStart`: a nested procedure is reported; the nesting depth
      goes up by one and the function header is emitted. */
  function GenProcStart(st: State, ident: string, params: seq<Entry>): (r: State)
    ensures GenFrame(st, r) && r.memsize == st.memsize
    ensures r.curlev == st.curlev + 1
    ensures r.asm == st.asm + ["(func $" + ident + ParamList(params)]
    ensures st.curlev > 0 ==> r.error && r.diags == PrintError(st, "WASM: no nested procedures").diags
    ensures st.curlev <= 0 ==> r.diags == st.diags && r.error == st.error
  {
    var s := if st.curlev > 0 then PrintError(st, "WASM: no nested procedures") else st;
    Emit(s.(curlev := s.curlev + 1), ["(func $" + ident + ParamList(params)])
  }

  /** `GenProcExit`: the nesting depth goes down by one and the function
      is closed. */
  function GenProcExit(st: State): (r: State)
    ensures GenFrame(st, r) && r.memsize == st.memsize
    ensures r.curlev == st.curlev - 1 && r.asm == st.asm + [")"] && r.diags == st.diags
  {
    Emit(st.(curlev := st.curlev - 1), [")"])
  }

  /** A procedure's start and exit bracket its body: the depth returns to
      what it was, and the log gains the header, the body and `)`. */
  lemma ProcBracket(st: State, ident: string, params: seq<Entry>, body: seq<string>)
    ensures var s := GenProcExit(Emit(GenProcStart(st, ident, params), body));
            s.curlev == st.curlev && s.asm == st.asm + ["(func $" + ident + ParamList(params)] + body + [")"]
  {
  }

  /** `GenActualPara`: a by-reference formal receives the address of an
      actual in memory (nothing for other actuals); a by-value formal
      receives the loaded value of a variable, reference or constant. */
  function GenActualPara(st: State, ap: Entry, fp: Entry): (r: (State, Entry))
    ensures GenFrame(st, r.0) && r.0.curlev == st.curlev && r.0.memsize == st.memsize && r.1 == ap
    ensures fp.kind == RefEntry ==>
              r.0 == (if ap.lev == -2 then Emit(st, ["i32.const " + Itoa(ap.adr)]) else st)
    ensures fp.kind != RefEntry && ap.kind in {VarEntry, RefEntry, ConstEntry} ==> r.0 == LoadItem(st, ap)
    ensures fp.kind != RefEntry && ap.kind !in {VarEntry, RefEntry, ConstEntry} ==>
              r.0 == PrintError(st, "unsupported parameter type")
  {
    if fp.kind == RefEntry then
      (if ap.lev == -2 then Emit(st, ["i32.const " + Itoa(ap.adr)]) else st, ap)
    else if ap.kind in {VarEntry, RefEntry, ConstEntry} then (LoadItem(st, ap), ap)
    else (PrintError(st, "unsupported parameter type"), ap)
  }

  /** `GenCall`: calls the procedure by name. */
  function GenCall(st: State, e: Entry): (r: State)
    ensures GenFrame(st, r) && r == st.(asm := st.asm + ["call $" + e.name])
  {
    Emit(st, ["call $" + e.name])
  }

  /** `GenRead`: calls the library's `read`. */
  function GenRead(st: State, x: Entry): (r: State)
    ensures GenFrame(st, r) && r == st.(asm := st.asm + ["call $read"])
  {
    Emit(st, ["call $read"])
  }

  /** `GenWrite`: loads the argument and calls the library's `write`. */
  function GenWrite(st: State, x: Entry): (r: State)
    ensures GenFrame(st, r) && r.curlev == st.curlev && r.memsize == st.memsize
    ensures r == Emit(LoadItem(st, x), ["call $write"])
  {
    Emit(LoadItem(st, x), ["call $write"])
  }

  /** `GenWriteln`: calls the library's `writeln`. */
  function GenWriteln(st: State): (r: State)
    ensures GenFrame(st, r) && r == st.(asm := st.asm + ["call $writeln"])
  {
    Emit(st, ["call $writeln"])
  }

  // ----- control flow -----

  /** `GenThen`: tests the loaded condition. */
  function GenThen(st: State, x: Entry): (r: State)
    ensures GenFrame(st, r) && r.curlev == st.curlev && r.memsize == st.memsize
    ensures r == Emit(LoadItem(st, x), ["if"])
  {
    Emit(LoadItem(st, x), ["if"])
  }

  /** `GenIfThen`: closes the conditional. */
  function GenIfThen(st: State): (r: State)
    ensures GenFrame(st, r) && r == st.(asm := st.asm + ["end"])
  {
    Emit(st, ["end"])
  }

  /** `GenElse`: starts the alternative. */
  function GenElse(st: State): (r: State)
    ensures GenFrame(st, r) && r == st.(asm := st.asm + ["else"])
  {
    Emit(st, ["else"])
  }

  /** `GenIfElse`: closes the conditional with an alternative. */
  function GenIfElse(st: State): (r: State)
    ensures GenFrame(st, r) && r == st.(asm := st.asm + ["end"])
  {
    Emit(st, ["end"])
  }

  /** `GenWhile`: opens the loop. */
  function GenWhile(st: State): (r: State)
    ensures GenFrame(st, r) && r == st.(asm := st.asm + ["loop"])
  {
    Emit(st, ["loop"])
  }

  /** `GenDo`: tests the loaded loop condition. */
  function GenDo(st: State, x: Entry): (r: State)
    ensures GenFrame(st, r) && r.curlev == st.curlev && r.memsize == st.memsize
    ensures r == Emit(LoadItem(st, x), ["if"])
  {
    Emit(LoadItem(st, x), ["if"])
  }

  /** `GenWhileDo`: branches back to the loop head and closes both blocks. */
  function GenWhileDo(st: State): (r: State)
    ensures GenFrame(st, r) && r == st.(asm := st.asm + ["br 1", "end", "end"])
  {
    Emit(st, ["br 1", "end", "end"])
  }

  /** The shape of a generated `while`: `loop`, the condition's code and
      load, `if`, the body, and a branch back before both blocks close. */
  lemma WhileSkeleton(st: State, cond: seq<string>, x: Entry, body: seq<string>)
    requires LevelOk(x, st.curlev)
    ensures var s1 := Emit(GenWhile(st), cond);
            var s2 := Emit(GenDo(s1, x), body);
            GenWhileDo(s2).asm == st.asm + ["loop"] + cond + Emitted(s1, LoadItem(s1, x)) + ["if"] + body + ["br 1", "end", "end"]
  {
    var s1 := Emit(GenWhile(st), cond);
    var l := LoadItem(s1, x);
    assert l.asm == s1.asm + Emitted(s1, l);
  }

  /** The shape of a generated `if … then … else`: the condition's load,
      `if`, the `then` code, `else`, the `else` code, `end`. */
  lemma IfElseSkeleton(st: State, x: Entry, thenCode: seq<string>, elseCode: seq<string>)
    requires LevelOk(x, st.curlev)
    ensures var s := GenIfElse(Emit(GenElse(Emit(GenThen(st, x), thenCode)), elseCode));
            s.asm == st.asm + Emitted(st, LoadItem(st, x)) + ["if"] + thenCode + ["else"] + elseCode + ["end"]
  {
    var l := LoadItem(st, x);
    assert l.asm == st.asm + Emitted(st, l);
  }
}
