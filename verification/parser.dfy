/** The recursive-descent parser and semantic analyser. Every production
    reads the current token, consults and extends the scope stack, folds
    constants and drives the code generator; each returns the state after
    it and, for expressions and types, the item it synthesised.

    The productions are mutually recursive; each takes a `fuel` bound on
    the nesting depth and returns its input unchanged when the fuel is
    spent or a run-time panic has stopped the compiler (`halted`). */
module Parser {
  import opened Base
  import opened Keywords
  import opened SymTable
  import opened InputData
  import opened Scanner
  import opened SymTableFuncs
  import opened CodeGen

  // ----- token sets -----

  const FirstFactor: set<int> := {IDENT, NUMBER, LPAREN, NOT}
  const FollowFactor: set<int> := {TIMES, DIV, MOD, AND, OR, PLUS, MINUS, EQ, NE, LT, LE, GT, GE,
                                   COMMA, SEMICOLON, THEN, ELSE, RPAREN, RBRAK, DO, PERIOD, END}
  const FirstExpression: set<int> := {PLUS, MINUS, IDENT, NUMBER, LPAREN, NOT}
  const FirstStatement: set<int> := {IDENT, IF, WHILE, BEGIN}
  const FollowStatement: set<int> := {SEMICOLON, END, ELSE}
  const FirstType: set<int> := {IDENT, RECORD, ARRAY, LPAREN}
  const FirstDecl: set<int> := {CONST, TYPE, VAR, PROCEDURE}
  const FollowDecl: set<int> := {BEGIN}
  const StrongSyms: set<int> := {CONST, TYPE, VAR, PROCEDURE, WHILE, IF, BEGIN, EOF}

  /** `exists`: membership of a token in one of the sets. */
  function Exists(a: int, dict: set<int>): (r: bool)
    ensures r <==> a in dict
  {
    a in dict
  }

  /** The recovery sets of the productions: the symbols at which they
      resume after a syntax error. Each holds end of input. */
  const FactorRecovery: set<int> := FirstFactor + FollowFactor + StrongSyms
  const StatementRecovery: set<int> := FirstFactor + FollowStatement + StrongSyms
  const DeclRecovery: set<int> := FirstDecl + FollowDecl + StrongSyms

  lemma RecoverySetsHoldEof()
    ensures EOF in FactorRecovery && EOF in StatementRecovery && EOF in DeclRecovery
  {
  }

  // ----- what the productions keep -----

  /** What a parser state needs: a well-formed cursor and a scope. */
  predicate Ready(st: State) {
    CursorInv(st.cur) && |st.symTable| >= 1
  }

  /** The reading stays on the same text and the generated code only
      grows. */
  predicate Moves(st: State, r: State) {
    && CursorInv(r.cur) && r.cur.input == st.cur.input
    && st.asm <= r.asm
  }

  /** Expressions, statements and types leave the scope stack as they
      found it. */
  predicate Keeps(st: State, r: State) {
    Moves(st, r) && r.symTable == st.symTable
  }

  /** Declarations of names touch only the innermost scope. */
  predicate InnerOnly(st: State, r: State)
    requires |st.symTable| >= 1
  {
    && Moves(st, r) && |r.symTable| == |st.symTable| && r.symTable[1..] == st.symTable[1..]
  }

  /** The innermost scope only grows, and every entry added to it is of
      kind `a` or of kind `b`. */
  predicate AddsOnly(st: State, r: State, a: EntryKind, b: EntryKind)
    requires |st.symTable| >= 1 && |r.symTable| >= 1
  {
    && st.symTable[0] <= r.symTable[0]
    && forall j :: |st.symTable[0]| <= j < |r.symTable[0]| ==> r.symTable[0][j].kind == a || r.symTable[0][j].kind == b
  }

  /** Declarations may leave procedure scopes open, never fewer scopes. */
  predicate Deepens(st: State, r: State) {
    Moves(st, r) && |r.symTable| >= |st.symTable|
  }

  // ----- recovery -----

  /** The skipping loop of panic-mode recovery: tokens are read until one
      of `stop` comes. It ends because end of input is in every recovery
      set and repeats at the end of the text. */
  function SkipTo(st: State, stop: set<int>): (r: State)
    requires CursorInv(st.cur) && EOF in stop
    ensures r.sym in stop && CursorInv(r.cur) && ScanFrame(st, r)
    ensures st.sym in stop ==> r == st
    decreases Measure(st.cur), if st.sym == EOF then 0 else 1
  {
    if st.sym in stop then st
    else
      var s := GetSym(st);
      SkipTo(s, stop)
  }

  /** Consumes the expected token, or reports `msg` without consuming. */
  function Expect(st: State, sym: int, msg: string): (r: State)
    requires CursorInv(st.cur)
    ensures CursorInv(r.cur) && ScanFrame(st, r)
    ensures st.sym == sym ==> r == GetSym(st)
    ensures st.sym != sym ==> r == PrintError(st, msg)
  {
    if st.sym == sym then GetSym(st) else PrintError(st, msg)
  }

  // ----- selectors -----

  /** The index of the first field called `name`, or the number of
      fields when there is none. */
  function FieldIndex(fields: seq<Entry>, name: string): (r: nat)
    ensures r <= |fields|
    ensures r < |fields| ==> fields[r].name == name
    ensures forall q :: 0 <= q < r ==> fields[q].name != name
  {
    if |fields| == 0 then 0
    else if fields[0].name == name then 0
    else 1 + FieldIndex(fields[1..], name)
  }

  /** `FieldIndex` runs past the fields exactly when no field has the
      name. */
  lemma FieldIndexMissing(fields: seq<Entry>, name: string)
    ensures FieldIndex(fields, name) == |fields| <==> !InScope(fields, name)
  {
    if FieldIndex(fields, name) < |fields| {
      assert fields[FieldIndex(fields, name)].name == name;
    }
  }

  /** The field search of `selector` on a record item, before the field
      name is consumed: the first field with the name is selected, and
      "not a field" is reported when the search count equals `bad`. The
      code as written compares with one less than the number of fields,
      which reports the last field and accepts a missing one; the
      corrected test compares with the number of fields itself. */
  function FieldSearch(st: State, x: Entry, asWritten: bool): (r: (State, Entry))
    ensures GenFrame(st, r.0)
    ensures var fields := x.ctp.fields;
            var k := FieldIndex(fields, st.val);
            && (r.0.error <==> st.error || k == |fields| - (if asWritten then 1 else 0))
            && (k < |fields| ==> r.1 == GenSelect(st, x, fields[k]).1)
            && (k == |fields| ==> r.1 == x)
  {
    var fields := x.ctp.fields;
    var ctr := FieldIndex(fields, st.val);
    var (s1, x1) := if ctr < |fields| then GenSelect(st, x, fields[ctr]) else (st, x);
    var bad := |fields| - (if asWritten then 1 else 0);
    (if ctr == bad then PrintError(s1, "not a field") else s1, x1)
  }

  /** With the corrected test, "not a field" is reported exactly when no
      field has the name. */
  lemma MissingFieldReported(st: State, x: Entry)
    requires !st.error
    ensures FieldSearch(st, x, false).0.error <==> !InScope(x.ctp.fields, st.val)
  {
    FieldIndexMissing(x.ctp.fields, st.val);
  }

  /** A record with one field `f`: as written, selecting `f` is reported
      and selecting the missing `g` is not; the corrected test does the
      opposite. */
  lemma SelectFieldCounterexample(st: State)
    requires !st.error
    ensures var rec := GenRec(Record([Var(TInt).(name := "f")]));
            && FieldSearch(st.(val := "f"), rec, true).0.error
            && !FieldSearch(st.(val := "g"), rec, true).0.error
            && !FieldSearch(st.(val := "f"), rec, false).0.error
            && FieldSearch(st.(val := "g"), rec, false).0.error
  {
    var rec := GenRec(Record([Var(TInt).(name := "f")]));
    assert rec.ctp.fields[0].name == "f";
    assert FieldIndex(rec.ctp.fields, "f") == 0;
    assert "g" != "f" by { assert "g"[0] != "f"[0]; }
    assert FieldIndex(rec.ctp.fields, "g") == 1;
  }

  /** The field branch of `selector` after the period has been read,
      with the field test as written: the item is the first field of the
      name, and "not a field" is reported when that is the last field. */
  function SelectField(st: State, x: Entry): (r: (State, Entry))
    requires CursorInv(st.cur)
    ensures Keeps(st, r.0)
    ensures st.sym == IDENT && x.arrOrRec == RecordShape ==> r == (GetSym(FieldSearch(st, x, true).0), FieldSearch(st, x, true).1)
    ensures st.sym == IDENT && x.arrOrRec != RecordShape ==> r == (PrintError(st, "not a record"), x)
    ensures st.sym != IDENT ==> r == (PrintError(st, "identifier expected"), x)
  {
    if st.sym == IDENT then
      if x.arrOrRec == RecordShape then
        var (s1, x1) := FieldSearch(st, x, true);
        (GetSym(s1), x1)
      else (PrintError(st, "not a record"), x)
    else (PrintError(st, "identifier expected"), x)
  }

  /** The index branch of `selector` after the index expression: only a
      non-constant integer index into an array generates code; a
      constant index changes nothing. */
  function IndexItem(st: State, x: Entry, y: Entry): (r: (State, Entry))
    ensures GenFrame(st, r.0)
    ensures x.arrOrRec == ArrayShape && y.tp == TInt && y.kind != ConstEntry ==> r == GenIndex(st, x, y)
    ensures x.arrOrRec == ArrayShape && !(y.tp == TInt && y.kind != ConstEntry) ==> r == (st, x)
    ensures x.arrOrRec != ArrayShape ==> r == (PrintError(st, "not an array"), x)
  {
    if x.arrOrRec == ArrayShape then
      if y.tp == TInt && y.kind != ConstEntry then GenIndex(st, x, y) else (st, x)
    else (PrintError(st, "not an array"), x)
  }

  // ----- factors -----

  /** A number token: its value as a constant; a spelling that does not
      convert is reported. */
  function FactorNumber(st: State): (r: (State, Entry))
    requires CursorInv(st.cur)
    ensures Keeps(st, r.0) && r.0.asm == st.asm
    ensures r.1 == Const(TInt, Atoi(st.val).0)
    ensures !Atoi(st.val).1 ==> r.0.error
  {
    var (v, ok) := Atoi(st.val);
    var s := if ok then st else PrintError(st, "error converting number");
    (GetSym(s), GenConst(Const(TInt, v)))
  }

  /** An identifier as a factor: a variable or reference becomes an
      item, a constant its value; anything else is reported. */
  function IdentItem(st: State): (r: (State, Entry))
    requires CursorInv(st.cur)
    ensures Keeps(st, r.0)
    ensures var (s1, y) := FindInSymTab(st, st.val);
            && (y.kind in {VarEntry, RefEntry} ==> r == (GetSym(GenVar(s1, y).0), GenVar(s1, y).1))
            && (y.kind in {VarEntry, RefEntry} ==> r.1.kind == y.kind && r.1.name == y.name && r.1.tp == y.tp)
            && (y.kind == ConstEntry ==> r == (GetSym(s1), Const(y.tp, y.val)))
            && (y.kind !in {VarEntry, RefEntry, ConstEntry} ==> r == (PrintError(s1, "expression expected"), y) && r.0.error)
  {
    var (s1, y) := FindInSymTab(st, st.val);
    if y.kind in {VarEntry, RefEntry} then
      var (s2, x) := GenVar(s1, y);
      (GetSym(s2), x)
    else if y.kind == ConstEntry then (GetSym(s1), GenConst(Const(y.tp, y.val)))
    else (PrintError(s1, "expression expected"), y)
  }

  /** `not` applied to the factor `x`: a non-boolean is reported, a
      constant is complemented, anything else is negated at run time. */
  function NotFactor(st: State, x: Entry): (r: (State, Entry))
    ensures GenFrame(st, r.0)
    ensures x.tp != TBool ==> r == (PrintError(st, "not boolean"), x)
    ensures x.tp == TBool && x.kind == ConstEntry ==> r == (st, x.(val := Wrap64(1 - x.val)))
    ensures x.tp == TBool && x.kind != ConstEntry ==> r == GenUnaryOp(st, NOT, x)
  {
    if x.tp != TBool then (PrintError(st, "not boolean"), x)
    else if x.kind == ConstEntry then (st, x.(val := Wrap64(1 - x.val)))
    else GenUnaryOp(st, NOT, x)
  }

  /** Folding `not` on the boolean constants 0 and 1 swaps them and emits
      nothing. */
  lemma NotFoldsBooleans(st: State, x: Entry)
    requires x.tp == TBool && x.kind == ConstEntry && (x.val == 0 || x.val == 1)
    ensures NotFactor(st, x).0 == st
    ensures NotFactor(st, x).1.val == (if x.val == 0 then 1 else 0)
  {
  }

  /** A leading `-` applied to the term `x`: a non-integer is reported, a
      constant is negated (wrapping at 64 bits), anything else is negated
      at run time. */
  function NegateTerm(st: State, x: Entry): (r: (State, Entry))
    ensures GenFrame(st, r.0)
    ensures x.tp != TInt ==> r == (PrintError(st, "bad type"), x)
    ensures x.tp == TInt && x.kind == ConstEntry ==> r.0 == st && r.1 == x.(val := Wrap64(-x.val))
    ensures x.tp == TInt && x.kind != ConstEntry ==> r == GenUnaryOp(st, MINUS, x)
  {
    if x.tp != TInt then (PrintError(st, "bad type"), x)
    else if x.kind == ConstEntry then (st, x.(val := Wrap64(-1 * x.val)))
    else GenUnaryOp(st, MINUS, x)
  }

  /** Negating a folded constant twice gives it back, except for the most
      negative value, which is its own negation in 64 bits. */
  lemma NegateTwice(st: State, x: Entry)
    requires x.tp == TInt && x.kind == ConstEntry && InInt64(x.val)
    ensures var once := NegateTerm(st, x).1;
            NegateTerm(st, once).1 == x
  {
    var once := NegateTerm(st, x).1;
    if x.val == MinInt64 {
      assert Wrap64(-x.val) == MinInt64;
    }
  }

  // ----- operator folding -----

  /** Combining two operands of `*`, `div`, `mod` or `and`. Two integer
      constants fold with no code, using Go's truncating division (a zero
      divisor is a run-time panic); any constant left operand of `and`
      (its value is not `EmptyInt`) yields the right one, even `false`;
      otherwise code is generated. Operands of the wrong type are
      reported. */
  function CombineTerm(st: State, op: int, x: Entry, y: Entry): (r: (State, Entry))
    ensures GenFrame(st.(halted := r.0.halted), r.0)
    ensures (r.0.halted != st.halted) ==> r.0 == st.(halted := true)
    ensures var folds := x.tp == TInt && y.tp == TInt && op in {TIMES, DIV, MOD} && x.kind == ConstEntry && y.kind == ConstEntry;
            && (folds && op == TIMES ==> r == (st, x.(val := Wrap64(x.val * y.val))))
            && (folds && op == DIV && y.val != 0 ==> r == (st, x.(val := Wrap64(TruncDiv(x.val, y.val)))))
            && (folds && op == MOD && y.val != 0 ==> r == (st, x.(val := TruncMod(x.val, y.val))))
            && (folds && op in {DIV, MOD} && y.val == 0 ==> r.0 == st.(halted := true))
    ensures x.tp == TInt && y.tp == TInt && op in {TIMES, DIV, MOD} && !(x.kind == ConstEntry && y.kind == ConstEntry) ==>
              r == GenBinaryOp(st, op, x, y)
    ensures x.tp == TBool && y.tp == TBool && op == AND ==>
              r == (if x.kind == ConstEntry then (st, if x.val != EmptyInt then y else x) else GenBinaryOp(st, AND, x, y))
    ensures !(x.tp == TInt && y.tp == TInt && op in {TIMES, DIV, MOD}) && !(x.tp == TBool && y.tp == TBool && op == AND) ==>
              r == (PrintError(st, "bad type"), x)
  {
    if x.tp == TInt && y.tp == TInt && op in {TIMES, DIV, MOD} then
      if x.kind == ConstEntry && y.kind == ConstEntry then
        if op == TIMES then (st, x.(val := Wrap64(x.val * y.val)))
        else if y.val == 0 then (st.(halted := true), x)
        else if op == DIV then (st, x.(val := Wrap64(TruncDiv(x.val, y.val))))
        else (st, x.(val := TruncMod(x.val, y.val)))
      else GenBinaryOp(st, op, x, y)
    else if x.tp == TBool && y.tp == TBool && op == AND then
      if x.kind == ConstEntry then (st, if x.val != EmptyInt then y else x)
      else GenBinaryOp(st, AND, x, y)
    else (PrintError(st, "bad type"), x)
  }

  /** A natural quotient is at most the dividend, and smaller when the
      divisor exceeds one. */
  lemma DivBound(n: nat, d: nat)
    requires d >= 1
    ensures n / d <= n
    ensures d >= 2 && n > 0 ==> n / d < n
  {
    var k := n / d;
    assert k * d + n % d == n;
    assert k * (d - 1) >= 0;
    assert k * d == k * (d - 1) + k;
    if d >= 2 && n > 0 {
      assert k * (d - 2) >= 0;
      assert k * d == k * (d - 2) + 2 * k;
    }
  }

  /** Go's quotient of two 64-bit integers is again a 64-bit integer,
      except for the most negative value divided by -1. */
  lemma QuotientFits(a: int, b: int)
    requires b != 0 && InInt64(a) && InInt64(b) && !(a == MinInt64 && b == -1)
    ensures InInt64(TruncDiv(a, b))
  {
    DivBound(Abs(a), Abs(b));
  }

  /** Folded division agrees with Go: the quotient and remainder
      reconstruct the dividend, and the remainder has the dividend's sign
      and is smaller than the divisor. */
  lemma FoldedDivision(st: State, x: Entry, y: Entry)
    requires x.tp == TInt && y.tp == TInt && x.kind == ConstEntry && y.kind == ConstEntry
    requires y.val != 0 && InInt64(x.val) && InInt64(y.val) && !(x.val == MinInt64 && y.val == -1)
    ensures var q := CombineTerm(st, DIV, x, y).1.val;
            var m := CombineTerm(st, MOD, x, y).1.val;
            && q * y.val + m == x.val
            && Abs(m) < Abs(y.val) && (x.val >= 0 ==> m >= 0) && (x.val <= 0 ==> m <= 0)
  {
    TruncModBounds(x.val, y.val);
    QuotientFits(x.val, y.val);
    assert CombineTerm(st, DIV, x, y).1.val == TruncDiv(x.val, y.val);
    assert CombineTerm(st, MOD, x, y).1.val == TruncMod(x.val, y.val);
  }

  /** Combining two operands of `+`, `-` or `or`. Two integer constants
      fold with 64-bit wrap-around; any constant left operand of `or`
      (its value is not `EmptyInt`) yields the right one, even `true`; a
      non-constant left operand of `or` produces
      nothing, so the block `GenUnaryOp` opened for it stays open. */
  function CombineSum(st: State, op: int, x: Entry, y: Entry): (r: (State, Entry))
    ensures GenFrame(st, r.0)
    ensures x.tp == TInt && y.tp == TInt && op in {PLUS, MINUS} ==>
              r == (if x.kind == ConstEntry && y.kind == ConstEntry
                    then (st, x.(val := Wrap64(if op == PLUS then x.val + y.val else x.val - y.val)))
                    else GenBinaryOp(st, op, x, y))
    ensures x.tp == TBool && y.tp == TBool && op == OR ==>
              r == (if x.kind != ConstEntry then (st, x)
                    else if x.val != EmptyInt then (st, y)
                    else GenBinaryOp(st, OR, x, y))
    ensures !(x.tp == TInt && y.tp == TInt && op in {PLUS, MINUS}) && !(x.tp == TBool && y.tp == TBool && op == OR) ==>
              r == (PrintError(st, "Bad type"), x)
  {
    if x.tp == TInt && y.tp == TInt && (op == PLUS || op == MINUS) then
      if x.kind == ConstEntry && y.kind == ConstEntry then
        (st, x.(val := Wrap64(if op == PLUS then x.val + y.val else x.val - y.val)))
      else GenBinaryOp(st, op, x, y)
    else if x.tp == TBool && y.tp == TBool && op == OR then
      if x.kind == ConstEntry then
        if x.val != EmptyInt then (st, y) else GenBinaryOp(st, OR, x, y)
      else (st, x)
    else (PrintError(st, "Bad type"), x)
  }

  /** An `or` whose left operand is not constant: after `GenUnaryOp`
      opened the block, combining emits nothing more, so the `end` that
      would close it is never generated. */
  lemma OrBlockNeverClosed(st: State, x: Entry, y: Entry)
    requires x.kind != ConstEntry && y.tp == TBool
    ensures var (s1, x1) := GenUnaryOp(st, OR, x);
            && s1.asm == LoadItem(st, x).asm + ["if (result i32)", "i32.const 1", "else"]
            && CombineSum(s1, OR, x1, y) == (s1, x1)
  {
  }

  /** The value an operand stands for when a non-constant operand
      evaluates to `b` at run time. */
  function Denotes(e: Entry, b: int): int {
    if e.kind == ConstEntry then e.val else b
  }

  /** `and` and `or` on the truth values 0 and 1. */
  function Conj(a: int, b: int): int {
    if a == 1 && b == 1 then 1 else 0
  }

  function Disj(a: int, b: int): int {
    if a == 1 || b == 1 then 1 else 0
  }

  /** As written, a constant left operand of `and` or `or` yields the
      right operand whatever its value: `false and y` and `true or y` both
      fold to `y`, which differs from the connective when `y` is not
      constant (it is 1 where `false and y` is 0, and 0 where `true or y`
      is 1). */
  lemma ConstLeftFoldsToRight(st: State, y: Entry)
    requires y.tp == TBool
    ensures CombineTerm(st, AND, Const(TBool, 0), y) == (st, y)
    ensures CombineSum(st, OR, Const(TBool, 1), y) == (st, y)
    ensures y.kind != ConstEntry ==>
              && Denotes(CombineTerm(st, AND, Const(TBool, 0), y).1, 1) != Conj(0, 1)
              && Denotes(CombineSum(st, OR, Const(TBool, 1), y).1, 0) != Disj(1, 0)
  {
  }

  /** Folding `and` with a constant left operand as intended: `true`
      yields the right operand and `false` stays `false`, so the folded
      item means the connective of its operands. */
  function FoldAnd(x: Entry, y: Entry): (r: Entry)
    requires x.kind == ConstEntry && x.val in {0, 1}
    ensures forall b | b in {0, 1} && (y.kind == ConstEntry ==> y.val in {0, 1}) ::
              Denotes(r, b) == Conj(x.val, Denotes(y, b))
  {
    if x.val == 1 then y else x
  }

  /** Folding `or` with a constant left operand as intended: `false`
      yields the right operand and `true` stays `true`. */
  function FoldOr(x: Entry, y: Entry): (r: Entry)
    requires x.kind == ConstEntry && x.val in {0, 1}
    ensures forall b | b in {0, 1} && (y.kind == ConstEntry ==> y.val in {0, 1}) ::
              Denotes(r, b) == Disj(x.val, Denotes(y, b))
  {
    if x.val == 1 then x else y
  }

  /** The truth of a relation between two constants (`val` unchanged for
      any other operator). */
  function Compare(op: int, a: int, b: int, val: int): int {
    if op == EQ then (if a == b then 1 else 0)
    else if op == NE then (if a != b then 1 else 0)
    else if op == LT then (if a < b then 1 else 0)
    else if op == LE then (if a <= b then 1 else 0)
    else if op == GT then (if a > b then 1 else 0)
    else if op == GE then (if a >= b then 1 else 0)
    else val
  }

  /** Combining two operands of a relation: equal types are required;
      two constants fold to a boolean constant 1 or 0, anything else is
      compared at run time. */
  function CombineRelation(st: State, op: int, x: Entry, y: Entry): (r: (State, Entry))
    ensures GenFrame(st, r.0)
    ensures x.tp != y.tp ==> r == (PrintError(st, "bad type"), x)
    ensures x.tp == y.tp && x.kind == ConstEntry && y.kind == ConstEntry ==>
              && r.0 == st && r.1 == x.(val := r.1.val, tp := TBool)
              && (op in {EQ, NE, LT, LE, GT, GE} ==> (r.1.val == 1 || r.1.val == 0))
    ensures x.tp == y.tp && !(x.kind == ConstEntry && y.kind == ConstEntry) ==> r == GenRelation(st, op, x, y)
  {
    if x.tp == y.tp then
      if x.kind == ConstEntry && y.kind == ConstEntry then
        (st, x.(val := Compare(op, x.val, y.val, x.val), tp := TBool))
      else GenRelation(st, op, x, y)
    else (PrintError(st, "bad type"), x)
  }

  /** The folded relations mean what they say, and each relation folds to
      the complement of its negation. */
  lemma RelationsFold(st: State, x: Entry, y: Entry)
    requires x.tp == y.tp && x.kind == ConstEntry && y.kind == ConstEntry
    ensures CombineRelation(st, EQ, x, y).1.val == 1 <==> x.val == y.val
    ensures CombineRelation(st, LT, x, y).1.val == 1 <==> x.val < y.val
    ensures CombineRelation(st, NE, x, y).1.val == 1 - CombineRelation(st, EQ, x, y).1.val
    ensures CombineRelation(st, GE, x, y).1.val == 1 - CombineRelation(st, LT, x, y).1.val
    ensures CombineRelation(st, LE, x, y).1.val == 1 - CombineRelation(st, GT, x, y).1.val
  {
  }

  /** Each relation's instruction computes, at run time, the truth value
      the constant folding computes at compile time. */
  lemma RelationInstructionAgreesWithFolding(op: int, a: int, b: int)
    requires op in {EQ, NE, LT, GT, LE, GE}
    ensures Run(RelOpcode(op), [a, b]) == Some([Compare(op, a, b, 0)])
  {
    var instr := RelOpcode(op)[0];
    assert RelOpcode(op) == [instr];
    assert ConstOperand(instr).None?;
    assert [a, b][..0] + [Compare(op, a, b, 0)] == [Compare(op, a, b, 0)];
  }

  /** Comparing two constants at run time, as the generator would when
      they were not folded: the code loads both and compares them, and it
      leaves the folded truth value. */
  lemma RuntimeRelationAgreesWithFolding(st: State, op: int, x: Entry, y: Entry)
    requires op in {EQ, NE, LT, GT, LE, GE}
    requires x.kind == ConstEntry && y.kind == ConstEntry && InInt64(x.val) && InInt64(y.val)
    ensures Emitted(st, GenRelation(st, op, x, y).0) == [ConstInstr(x.val), ConstInstr(y.val)] + RelOpcode(op)
    ensures Run([ConstInstr(x.val), ConstInstr(y.val)] + RelOpcode(op), []) == Some([Compare(op, x.val, y.val, 0)])
  {
    ConstLine(x.val);
    ConstLine(y.val);
    RelationLinesRun(ConstInstr(x.val), ConstInstr(y.val), op, x.val, y.val);
  }

  /** Two constant lines followed by a relation's instruction. */
  lemma RelationLinesRun(l1: string, l2: string, op: int, a: int, b: int)
    requires op in {EQ, NE, LT, GT, LE, GE}
    requires ConstOperand(l1) == Some(a) && ConstOperand(l2) == Some(b)
    ensures Run([l1, l2] + RelOpcode(op), []) == Some([Compare(op, a, b, 0)])
  {
    assert Run([l1, l2], []) == Some([a, b]) by {
      assert [l1, l2][1..] == [l2];
      assert Run([l1, l2], []) == Run([l2], [a]) by { assert [] + [a] == [a]; }
      assert Run([l2], [a]) == Run([], [a, b]) by { assert [a] + [b] == [a, b]; }
    }
    RunAppend([l1, l2], RelOpcode(op), []);
    RelationInstructionAgreesWithFolding(op, a, b);
  }

  /** An actual the mode check accepts is always passed by value: the
      by-reference branch of the parameter code is never reached. */
  lemma AcceptedActualLoaded(st: State, x: Entry, i: nat, y: Entry, first: bool)
    requires i < |x.par| && x.kind == ProcEntry && ModeAccepted(y, x.par[i])
    ensures x.par[i].kind == VarEntry && y.kind == VarEntry
    ensures CheckActual(st, x, i, y, first) == LoadItem(st, y)
  {
  }

  // ----- calls -----

  /** The mode check of an actual against its formal, as written. */
  predicate ModeAccepted(ap: Entry, fp: Entry) {
    (ap.kind == VarEntry || fp.kind == VarEntry) && fp.kind == ap.kind
  }

  /** The check accepts exactly a by-value actual for a by-value formal:
      a by-reference formal never accepts anything. */
  lemma ModeAcceptedOnlyVarVar(ap: Entry, fp: Entry)
    ensures ModeAccepted(ap, fp) <==> ap.kind == VarEntry && fp.kind == VarEntry
  {
  }

  /** Checks the actual `y` at position `i` of a call of `x`: a surplus
      actual is reported, an accepted one is passed (for a declared
      procedure), any other reported as an illegal mode — except the
      first actual of `read`. */
  function CheckActual(st: State, x: Entry, i: nat, y: Entry, first: bool): (r: State)
    ensures GenFrame(st, r)
    ensures i >= |x.par| ==> r == PrintError(st, "extra parameter")
    ensures i < |x.par| && ModeAccepted(y, x.par[i]) ==>
              r == (if x.kind == ProcEntry then GenActualPara(st, y, x.par[i]).0 else st)
    ensures i < |x.par| && !ModeAccepted(y, x.par[i]) ==>
              r == (if first && x.name == "read" then st else PrintError(st, "illegal parameter mode"))
  {
    var fp := x.par;
    if i < |fp| then
      if ModeAccepted(y, fp[i]) then
        if x.kind == ProcEntry then GenActualPara(st, y, fp[i]).0 else st
      else if first && x.name == "read" then st
      else PrintError(st, "illegal parameter mode")
    else PrintError(st, "extra parameter")
  }

  /** After the actuals: too few of them is reported and nothing is
      called; otherwise the standard procedures get their library calls
      and any other procedure a call by name. */
  function FinishCall(st: State, x: Entry, i: nat, y: Entry): (r: State)
    ensures GenFrame(st, r)
    ensures i < |x.par| ==> r == PrintError(st, "too few parameters") && r.asm == st.asm
    ensures i >= |x.par| && x.kind == StdProcEntry ==>
              r == (if x.name == "read" then GenRead(st, y)
                    else if x.name == "write" then GenWrite(st, y)
                    else if x.name == "writeln" then GenWriteln(st)
                    else st)
    ensures i >= |x.par| && x.kind != StdProcEntry ==> r == GenCall(st, x)
  {
    if i < |x.par| then PrintError(st, "too few parameters")
    else if x.kind == StdProcEntry then
      if x.name == "read" then GenRead(st, y)
      else if x.name == "write" then GenWrite(st, y)
      else if x.name == "writeln" then GenWriteln(st)
      else st
    else GenCall(st, x)
  }

  // ----- types -----

  /** A type name: the named type, or `none` with a report when the
      name is not a type. */
  function TypeName(st: State): (r: (State, Entry))
    requires CursorInv(st.cur)
    ensures Keeps(st, r.0) && r.0.asm == st.asm
    ensures var x := FindInSymTab(st, st.val).1;
            && (x.kind == TypeEntry ==> r.1 == Type(x.tp))
            && (x.kind != TypeEntry ==> r.1 == Type(TNone) && r.0.error)
  {
    var (s1, x) := FindInSymTab(st, st.val);
    var s2 := GetSym(s1);
    if x.kind == TypeEntry then (s2, Type(x.tp)) else (PrintError(s2, "not a type"), Type(TNone))
  }

  /** The bounds of an array type: both must be non-negative constants;
      the array has `hi - lo + 1` elements of the element type. */
  function ArrayBounds(st: State, x: Entry, y: Entry, z: PrimitiveType): (r: (State, Entry))
    ensures GenFrame(st, r.0)
    ensures x.kind != ConstEntry || x.val < 0 ==> r == (PrintError(st, "bad lower bound"), Type(TNone))
    ensures x.kind == ConstEntry && x.val >= 0 && (y.kind != ConstEntry || y.val < 0) ==>
              r == (PrintError(st, "bad upper bound"), Type(TNone))
    ensures x.kind == ConstEntry && x.val >= 0 && y.kind == ConstEntry && y.val >= 0 ==>
              && r.0 == st && r.1.kind == TypeEntry && r.1.arrOrRec == ArrayShape && r.1.tp == z
              && r.1.ctp.base == z && r.1.ctp.lower == x.val && r.1.ctp.size == PrimSize(z)
              && r.1.ctp.length == Wrap64(y.val - x.val + 1)
              && r.1.size == r.1.ctp.length * PrimSize(z)
  {
    if x.kind != ConstEntry || x.val < 0 then (PrintError(st, "bad lower bound"), Type(TNone))
    else if y.kind != ConstEntry || y.val < 0 then (PrintError(st, "bad upper bound"), Type(TNone))
    else (st, GenArray(Array(z, x.val, Wrap64(y.val - x.val + 1))).(tp := z))
  }

  /** With bounds inside 64 bits the length is exactly `hi - lo + 1`,
      short of the largest upper bound with lower bound 0. */
  lemma ArrayLength(st: State, x: Entry, y: Entry, z: PrimitiveType)
    requires x.kind == ConstEntry && y.kind == ConstEntry && 0 <= x.val <= MaxInt64 && 0 <= y.val < MaxInt64
    ensures ArrayBounds(st, x, y, z).1.ctp.length == y.val - x.val + 1
  {
  }

  /** The entry a typed identifier is declared with: an aggregate type
      itself, re-kinded; otherwise a variable or reference of the type. */
  function TypedEntry(kind: EntryKind, tp: Entry): (e: Entry)
    requires kind == VarEntry || kind == RefEntry
    ensures e.kind == kind
    ensures IsAggregate(tp) ==> e == tp.(kind := kind)
    ensures !IsAggregate(tp) ==> e.tp == tp.tp && e.arrOrRec == Scalar && e.size == PrimSize(tp.tp)
  {
    if IsAggregate(tp) then tp.(kind := kind)
    else if kind == VarEntry then Var(tp.tp)
    else Ref(tp.tp)
  }

  /** Declares each name with its entry, in order, in the innermost
      scope. */
  function DeclareEach(st: State, decls: seq<(string, Entry)>): (r: State)
    requires |st.symTable| >= 1
    ensures |r.symTable| == |st.symTable| && r.symTable[1..] == st.symTable[1..]
    ensures r.cur == st.cur && r.sym == st.sym && r.asm == st.asm && r.halted == st.halted
    decreases |decls|
  {
    if |decls| == 0 then st
    else DeclareEach(DeclareEntry(st, decls[0].0, decls[0].1), decls[1..])
  }

  /** The entries a list of declarations adds when the first gets level
      `lev`: under the level rule as written each following entry's level
      is one more, since the scope has grown by one. */
  function Stamped(decls: seq<(string, Entry)>, lev: int): (r: seq<Entry>)
    ensures |r| == |decls|
  {
    if |decls| == 0 then [] else [decls[0].1.(name := decls[0].0, lev := lev)] + Stamped(decls[1..], lev + 1)
  }

  /** Entry `i` of the stamped list is declaration `i` under its name. */
  lemma {:induction false} StampedAt(decls: seq<(string, Entry)>, lev: int, i: nat)
    requires i < |decls|
    ensures Stamped(decls, lev)[i] == decls[i].1.(name := decls[i].0, lev := lev + i)
    decreases i
  {
    if i > 0 {
      StampedAt(decls[1..], lev + 1, i - 1);
    }
  }

  /** The names of a list of declarations are pairwise different and
      none is declared in `scope` yet. */
  predicate Fresh(scope: seq<Entry>, decls: seq<(string, Entry)>) {
    && (forall i, j :: 0 <= i < j < |decls| ==> decls[i].0 != decls[j].0)
    && (forall i :: 0 <= i < |decls| ==> !InScope(scope, decls[i].0))
  }

  /** After the first of fresh declarations, the rest are still fresh. */
  lemma FreshAfterFirst(st: State, decls: seq<(string, Entry)>)
    requires |st.symTable| >= 1 && |decls| > 0 && Fresh(st.symTable[0], decls)
    ensures Fresh(DeclareEntry(st, decls[0].0, decls[0].1).symTable[0], decls[1..])
  {
    var top := DeclareEntry(st, decls[0].0, decls[0].1).symTable[0];
    var n := |st.symTable[0]|;
    forall i | 0 <= i < |decls[1..]| ensures !InScope(top, decls[1..][i].0) {
      assert decls[1..][i] == decls[i + 1];
      forall j | 0 <= j < |top| ensures top[j].name != decls[i + 1].0 {
        if j < n {
          assert top[j] == st.symTable[0][j];
        }
      }
    }
  }

  /** Fresh declarations all go in, in order, each at the level the
      length of the scope before it gives, and nothing is reported. */
  lemma {:induction false} DeclareEachFresh(st: State, decls: seq<(string, Entry)>)
    requires |st.symTable| >= 1 && Fresh(st.symTable[0], decls)
    ensures DeclareEach(st, decls).symTable[0] == st.symTable[0] + Stamped(decls, |st.symTable[0]| - 1)
    ensures DeclareEach(st, decls).error == st.error
    decreases |decls|
  {
    if |decls| > 0 {
      var n := |st.symTable[0]|;
      var s1 := DeclareEntry(st, decls[0].0, decls[0].1);
      FreshAfterFirst(st, decls);
      DeclareEachFresh(s1, decls[1..]);
      var e := decls[0].1.(name := decls[0].0, lev := n - 1);
      assert s1.symTable[0] == st.symTable[0] + [e];
      assert (st.symTable[0] + [e]) + Stamped(decls[1..], n) == st.symTable[0] + ([e] + Stamped(decls[1..], n));
    }
  }

  /** The declarations of a list of names, all with the entry `e`. */
  function Named(names: seq<string>, e: Entry): (r: seq<(string, Entry)>)
    ensures |r| == |names|
    ensures forall i :: 0 <= i < |names| ==> r[i] == (names[i], e)
  {
    if |names| == 0 then [] else [(names[0], e)] + Named(names[1..], e)
  }

  /** Declares every name of the list, in order, with the entry made from
      `tp`; a kind other than variable or reference declares nothing. */
  function DeclareAll(st: State, names: seq<string>, kind: EntryKind, tp: Entry): (r: State)
    requires |st.symTable| >= 1
    ensures |r.symTable| == |st.symTable| && r.symTable[1..] == st.symTable[1..]
    ensures r.cur == st.cur && r.sym == st.sym && r.asm == st.asm && r.halted == st.halted
    ensures kind != VarEntry && kind != RefEntry ==> r == st
    ensures kind == VarEntry || kind == RefEntry ==> AddsOnly(st, r, kind, kind)
  {
    if kind == VarEntry || kind == RefEntry then
      var decls := Named(names, TypedEntry(kind, tp));
      DeclareEachAdds(st, decls, kind);
      DeclareEach(st, decls)
    else st
  }

  /** Distinct new names are all declared, in order, with the entry made
      from the type, each at the level the scope's length before it gives. */
  lemma DeclareAllFresh(st: State, names: seq<string>, kind: EntryKind, tp: Entry)
    requires |st.symTable| >= 1 && (kind == VarEntry || kind == RefEntry)
    requires forall i, j :: 0 <= i < j < |names| ==> names[i] != names[j]
    requires forall i :: 0 <= i < |names| ==> !InScope(st.symTable[0], names[i])
    ensures var r := DeclareAll(st, names, kind, tp);
            && |r.symTable[0]| == |st.symTable[0]| + |names|
            && r.symTable[0][..|st.symTable[0]|] == st.symTable[0]
            && forall i :: 0 <= i < |names| ==>
                 r.symTable[0][|st.symTable[0]| + i] == TypedEntry(kind, tp).(name := names[i], lev := |st.symTable[0]| + i - 1)
  {
    var decls := Named(names, TypedEntry(kind, tp));
    DeclareEachFresh(st, decls);
    var r := DeclareAll(st, names, kind, tp);
    var n := |st.symTable[0]|;
    assert r.symTable[0] == st.symTable[0] + Stamped(decls, n - 1);
    assert r.symTable[0][..n] == st.symTable[0];
    forall i | 0 <= i < |names| ensures
      r.symTable[0][n + i] == TypedEntry(kind, tp).(name := names[i], lev := n + i - 1)
    {
      assert r.symTable[0][n + i] == Stamped(decls, n - 1)[i];
      StampedAt(decls, n - 1, i);
    }
  }

  /** One `, name` of a list of typed identifiers, after the comma: the
      name, or a report when there is none. The reading moves on, or has
      reached the end of the text. */
  function NextId(st: State): (r: (State, Option<string>))
    requires CursorInv(st.cur)
    ensures CursorInv(r.0.cur) && ScanFrame(st, r.0)
    ensures Measure(r.0.cur) < Measure(st.cur) || (Measure(r.0.cur) == Measure(st.cur) && r.0.sym == EOF)
  {
    var s1 := GetSym(st);
    if s1.sym == IDENT then (GetSym(s1), Some(s1.val))
    else (PrintError(s1, "identifier expected"), None)
  }

  /** The loop of further names after a comma in a list of typed
      identifiers. */
  function IdList(st: State, tid: seq<string>): (r: (State, seq<string>))
    requires CursorInv(st.cur)
    ensures CursorInv(r.0.cur) && ScanFrame(st, r.0) && tid <= r.1
    ensures st.sym != COMMA ==> r == (st, tid)
    decreases Measure(st.cur), if st.sym == EOF then 0 else 1
  {
    if st.sym == COMMA then
      var next := NextId(st);
      IdList(next.0, if next.1.Some? then tid + [next.1.value] else tid)
    else (st, tid)
  }

  /** Sets the parameter list of the last entry of the scope enclosing
      the innermost one — the entry a procedure declaration appended,
      reached through the slice taken before its scope was opened. */
  function SetProcParams(st: State, fp: seq<Entry>): (r: State)
    requires |st.symTable| >= 2 && |st.symTable[1]| >= 1
    ensures r == st.(symTable := r.symTable)
    ensures |r.symTable| == |st.symTable| && r.symTable[0] == st.symTable[0]
    ensures r.symTable[2..] == st.symTable[2..]
    ensures var sc := st.symTable[1];
            |r.symTable[1]| == |sc| && r.symTable[1][..|sc| - 1] == sc[..|sc| - 1]
            && r.symTable[1][|sc| - 1] == sc[|sc| - 1].(par := fp)
  {
    var sc := st.symTable[1];
    st.(symTable := [st.symTable[0]] + [sc[..|sc| - 1] + [sc[|sc| - 1].(par := fp)]] + st.symTable[2..])
  }

  /** The predeclared names: the types `boolean` (size 1) and `integer`
      (size 4), the constants `true` (1) and `false` (0), and the standard
      procedures `read` (one by-reference integer), `write` (one integer)
      and `writeln` (none). */
  const BuiltinDecls: seq<(string, Entry)> :=
    [("boolean", GenBool(Type(TBool))),
     ("integer", GenInt(Type(TInt))),
     ("true", Const(TBool, 1)),
     ("false", Const(TBool, 0)),
     ("read", StdProc([Ref(TInt)])),
     ("write", StdProc([Var(TInt)])),
     ("writeln", StdProc([]))]

  /** The seven predeclared names, declared in the innermost scope. */
  function DeclareBuiltins(st: State): (r: State)
    requires |st.symTable| >= 1
    ensures |r.symTable| == |st.symTable| && r.symTable[1..] == st.symTable[1..]
    ensures r.cur == st.cur && r.sym == st.sym && r.asm == st.asm && r.halted == st.halted
  {
    DeclareEach(st, BuiltinDecls)
  }

  /** The predeclared names are pairwise different. */
  lemma BuiltinsFresh()
    ensures Fresh([], BuiltinDecls)
  {
    var d := BuiltinDecls;
    assert d[0].0[0] == 'b' && d[1].0[0] == 'i' && d[2].0[0] == 't' && d[3].0[0] == 'f';
    assert d[4].0[0] == 'r' && d[5].0[0] == 'w' && d[6].0[0] == 'w' && |d[5].0| != |d[6].0|;
  }

  /** Fresh declarations into a single empty scope make up that scope,
      the first at level -1 and each next one a level higher. */
  lemma DeclareEachEmpty(st: State, decls: seq<(string, Entry)>)
    requires st.symTable == [[]] && Fresh([], decls)
    ensures DeclareEach(st, decls).symTable == [Stamped(decls, -1)]
    ensures DeclareEach(st, decls).error == st.error
  {
    DeclareEachFresh(st, decls);
    var r := DeclareEach(st, decls);
    assert [] + Stamped(decls, -1) == Stamped(decls, -1);
    assert r.symTable == [r.symTable[0]];
  }

  /** In an empty global scope the predeclared names all go in, in order,
      at levels -1 to 5, with no report. */
  lemma BuiltinsDeclared(st: State)
    requires st.symTable == [[]]
    ensures DeclareBuiltins(st).symTable == [Stamped(BuiltinDecls, -1)]
    ensures DeclareBuiltins(st).error == st.error
  {
    BuiltinsFresh();
    DeclareEachEmpty(st, BuiltinDecls);
  }

  /** Panic-mode recovery at the start of a production: when the token
      cannot start it, `msg` is reported, the token is dropped when `drop`
      says so, and tokens are skipped up to one of `stop`. */
  function Recover(st: State, first: set<int>, msg: string, drop: bool, stop: set<int>): (r: State)
    requires CursorInv(st.cur) && EOF in stop
    ensures CursorInv(r.cur) && ScanFrame(st, r)
    ensures st.sym in first ==> r == st
    ensures st.sym !in first ==> r.error && r.sym in stop
  {
    if Exists(st.sym, first) then st
    else
      var s1 := PrintError(st, msg);
      SkipTo(if drop then GetSym(s1) else s1, stop)
  }

  // ----- expressions -----

  /** `selector`: any number of `.field` and `[index]` selectors. */
  function Selector(st: State, x: Entry, fuel: nat): (r: (State, Entry))
    requires Ready(st)
    ensures Keeps(st, r.0)
    decreases fuel
  {
    if fuel == 0 || st.halted then (st, x)
    else if st.sym == PERIOD then
      var (s1, x1) := SelectField(GetSym(st), x);
      Selector(s1, x1, fuel - 1)
    else if st.sym == LBRAK then
      var (s1, x1) := SelectIndex(GetSym(st), x, fuel - 1);
      Selector(s1, x1, fuel - 1)
    else (st, x)
  }

  /** `[index]` after the bracket has been read. */
  function SelectIndex(st: State, x: Entry, fuel: nat): (r: (State, Entry))
    requires Ready(st)
    ensures Keeps(st, r.0)
    decreases fuel
  {
    if fuel == 0 || st.halted then (st, x)
    else
      var (s1, y) := Expression(st, fuel - 1);
      var (s2, x1) := IndexItem(s1, x, y);
      (Expect(s2, RBRAK, "] expected"), x1)
  }

  /** `factor`: after recovery, an identifier with its selectors, a
      number, a parenthesised expression, or `not` and a factor;
      otherwise a constant of no type. */
  function Factor(st: State, fuel: nat): (r: (State, Entry))
    requires Ready(st)
    ensures Keeps(st, r.0)
    decreases fuel
  {
    if fuel == 0 || st.halted then (st, ZeroEntry)
    else
      var s := Recover(st, FirstFactor, "expression expected", false, FactorRecovery);
      if s.sym == IDENT then
        var (s1, x) := IdentItem(s);
        Selector(s1, x, fuel - 1)
      else if s.sym == NUMBER then FactorNumber(s)
      else if s.sym == LPAREN then ParenFactor(GetSym(s), fuel - 1)
      else if s.sym == NOT then
        var (s1, x) := Factor(GetSym(s), fuel - 1);
        NotFactor(s1, x)
      else (s, Const(TNone, 0))
  }

  /** A parenthesised expression after the opening parenthesis. */
  function ParenFactor(st: State, fuel: nat): (r: (State, Entry))
    requires Ready(st)
    ensures Keeps(st, r.0)
    decreases fuel
  {
    if fuel == 0 || st.halted then (st, ZeroEntry)
    else
      var (s1, x) := Expression(st, fuel - 1);
      (Expect(s1, RPAREN, ") expected"), x)
  }

  /** `term`: factors joined by `*`, `div`, `mod` and `and`. */
  function Term(st: State, fuel: nat): (r: (State, Entry))
    requires Ready(st)
    ensures Keeps(st, r.0)
    decreases fuel
  {
    if fuel == 0 || st.halted then (st, ZeroEntry)
    else
      var (s1, x) := Factor(st, fuel - 1);
      TermLoop(s1, x, fuel - 1)
  }

  /** The loop of `term` with the left operand `x` so far. For `and` with
      a non-constant left operand the block is opened before the right
      factor is parsed. */
  function TermLoop(st: State, x: Entry, fuel: nat): (r: (State, Entry))
    requires Ready(st)
    ensures Keeps(st, r.0)
    ensures fuel > 0 && !st.halted && st.sym == AND && x.kind != ConstEntry ==>
              LoadItem(GetSym(st), x).asm + ["if (result i32)"] <= r.0.asm
    decreases fuel
  {
    if fuel == 0 || st.halted then (st, x)
    else if st.sym in {TIMES, DIV, MOD, AND} then
      var op := st.sym;
      var s1 := GetSym(st);
      var (s2, x1) := if op == AND && x.kind != ConstEntry then GenUnaryOp(s1, AND, x) else (s1, x);
      var (s3, y) := Factor(s2, fuel - 1);
      var (s4, x2) := CombineTerm(s3, op, x1, y);
      TermLoop(s4, x2, fuel - 1)
    else (st, x)
  }

  /** `simpleExpression`: an optional sign, then terms joined by `+`,
      `-` and `or`. */
  function SimpleExpression(st: State, fuel: nat): (r: (State, Entry))
    requires Ready(st)
    ensures Keeps(st, r.0)
    decreases fuel
  {
    if fuel == 0 || st.halted then (st, ZeroEntry)
    else
      var (s1, x) := SignedTerm(st, fuel - 1);
      SumLoop(s1, x, fuel - 1)
  }

  /** The first term of a simple expression with its optional sign. */
  function SignedTerm(st: State, fuel: nat): (r: (State, Entry))
    requires Ready(st)
    ensures Keeps(st, r.0)
    decreases fuel
  {
    if fuel == 0 || st.halted then (st, ZeroEntry)
    else if st.sym == PLUS then Term(GetSym(st), fuel - 1)
    else if st.sym == MINUS then
      var (s1, x) := Term(GetSym(st), fuel - 1);
      NegateTerm(s1, x)
    else Term(st, fuel - 1)
  }

  /** The loop of `simpleExpression` with the left operand `x` so far. */
  function SumLoop(st: State, x: Entry, fuel: nat): (r: (State, Entry))
    requires Ready(st)
    ensures Keeps(st, r.0)
    ensures fuel > 0 && !st.halted && st.sym == OR && x.kind != ConstEntry ==>
              LoadItem(GetSym(st), x).asm + ["if (result i32)", "i32.const 1", "else"] <= r.0.asm
    decreases fuel
  {
    if fuel == 0 || st.halted then (st, x)
    else if st.sym in {PLUS, MINUS, OR} then
      var op := st.sym;
      var s1 := GetSym(st);
      var (s2, x1) := if op == OR && x.kind != ConstEntry then GenUnaryOp(s1, OR, x) else (s1, x);
      var (s3, y) := Term(s2, fuel - 1);
      var (s4, x2) := CombineSum(s3, op, x1, y);
      SumLoop(s4, x2, fuel - 1)
    else (st, x)
  }

  /** `expression`: simple expressions joined by relations. */
  function Expression(st: State, fuel: nat): (r: (State, Entry))
    requires Ready(st)
    ensures Keeps(st, r.0)
    decreases fuel
  {
    if fuel == 0 || st.halted then (st, ZeroEntry)
    else
      var (s1, x) := SimpleExpression(st, fuel - 1);
      RelationLoop(s1, x, fuel - 1)
  }

  /** The loop of `expression` with the left operand `x` so far. */
  function RelationLoop(st: State, x: Entry, fuel: nat): (r: (State, Entry))
    requires Ready(st)
    ensures Keeps(st, r.0)
    decreases fuel
  {
    if fuel == 0 || st.halted then (st, x)
    else if st.sym in {EQ, NE, LT, LE, GT, GE} then
      var op := st.sym;
      var (s1, y) := SimpleExpression(GetSym(st), fuel - 1);
      var (s2, x1) := CombineRelation(s1, op, x, y);
      RelationLoop(s2, x1, fuel - 1)
    else (st, x)
  }

  // ----- statements -----

  /** `compoundStatement`: `begin`, statements separated by semicolons
      (a missing one is reported), `end`. */
  function CompoundStatement(st: State, fuel: nat): (r: State)
    requires Ready(st)
    ensures Keeps(st, r)
    decreases fuel
  {
    if fuel == 0 || st.halted then st
    else
      var s1 := Statement(Expect(st, BEGIN, "'begin' expected"), fuel - 1);
      Expect(StatementSeq(s1, fuel - 1), END, "'end' expected")
  }

  /** The loop of `compoundStatement`. */
  function StatementSeq(st: State, fuel: nat): (r: State)
    requires Ready(st)
    ensures Keeps(st, r)
    decreases fuel
  {
    if fuel == 0 || st.halted then st
    else if st.sym == SEMICOLON || st.sym in FirstStatement then
      var s1 := if st.sym == SEMICOLON then GetSym(st) else PrintError(st, "; missing");
      StatementSeq(Statement(s1, fuel - 1), fuel - 1)
    else st
  }

  /** `statement`: after recovery, an assignment or call, a compound
      statement, `if` or `while`; anything else is an empty statement. */
  function Statement(st: State, fuel: nat): (r: State)
    requires Ready(st)
    ensures Keeps(st, r)
    decreases fuel
  {
    if fuel == 0 || st.halted then st
    else
      var s := Recover(st, FirstStatement, "statement expected", true, StatementRecovery);
      if s.sym == IDENT then IdentStatement(s, fuel - 1)
      else if s.sym == BEGIN then CompoundStatement(s, fuel - 1)
      else if s.sym == IF then IfStatement(GetSym(s), fuel - 1)
      else if s.sym == WHILE then WhileStatement(GetSym(s), fuel - 1)
      else s
  }

  /** A statement starting with an identifier: a variable with selectors
      followed by the assignment part, or a procedure call. */
  function IdentStatement(st: State, fuel: nat): (r: State)
    requires Ready(st)
    ensures Keeps(st, r)
    decreases fuel
  {
    if fuel == 0 || st.halted then st
    else
      var (s1, x) := FindInSymTab(st, st.val);
      var s2 := GetSym(s1);
      if x.kind in {VarEntry, RefEntry} then
        var (s3, x1) := GenVar(s2, x);
        var (s4, x2) := Selector(s3, x1, fuel - 1);
        Assignment(s4, x2, fuel - 1)
      else if x.kind in {ProcEntry, StdProcEntry} then Call(s2, x, fuel - 1)
      else PrintError(s2, "variable or procedure expected")
  }

  /** The assignment part: `:=` and an expression (never reached, since
      the scanner does not produce `:=`); `=` is reported and its
      expression parsed; anything else is reported. */
  function Assignment(st: State, x: Entry, fuel: nat): (r: State)
    requires Ready(st)
    ensures Keeps(st, r)
    decreases fuel
  {
    if fuel == 0 || st.halted then st
    else if st.sym == BECOMES then
      var (s1, y) := Expression(GetSym(st), fuel - 1);
      if x.tp == TBool || x.tp == TInt || y.tp == TBool || y.tp == TInt then GenAssign(s1, x, y)
      else PrintError(s1, "incompatible assignment")
    else if st.sym == EQ then
      Expression(GetSym(PrintError(st, ":= expected")), fuel - 1).0
    else PrintError(st, ":= expected")
  }

  /** A call of the procedure `x`: the actuals, if any, then the call. */
  function Call(st: State, x: Entry, fuel: nat): (r: State)
    requires Ready(st)
    ensures Keeps(st, r)
    decreases fuel
  {
    if fuel == 0 || st.halted then st
    else
      var (s1, i, y) := if st.sym == LPAREN then Actuals(GetSym(st), x, fuel - 1) else (st, 0, ZeroEntry);
      FinishCall(s1, x, i, y)
  }

  /** The parenthesised actuals of a call: how many were given and the
      last one. */
  function Actuals(st: State, x: Entry, fuel: nat): (r: (State, nat, Entry))
    requires Ready(st)
    ensures Keeps(st, r.0)
    decreases fuel
  {
    if fuel == 0 || st.halted then (st, 0, ZeroEntry)
    else
      var (s1, i, y) := if st.sym in FirstExpression then FirstActual(st, x, fuel - 1) else (st, 0, ZeroEntry);
      (Expect(s1, RPAREN, ") expected"), i, y)
  }

  /** The first actual, exempt from the mode check for `read`, and the
      ones after it. */
  function FirstActual(st: State, x: Entry, fuel: nat): (r: (State, nat, Entry))
    requires Ready(st)
    ensures Keeps(st, r.0)
    decreases fuel
  {
    if fuel == 0 || st.halted then (st, 0, ZeroEntry)
    else
      var (s1, y) := Expression(st, fuel - 1);
      ActualsLoop(CheckActual(s1, x, 0, y, true), x, 1, y, fuel - 1)
  }

  /** The actuals after the first, each checked at its position. */
  function ActualsLoop(st: State, x: Entry, i: nat, y: Entry, fuel: nat): (r: (State, nat, Entry))
    requires Ready(st)
    ensures Keeps(st, r.0) && r.1 >= i
    decreases fuel
  {
    if fuel == 0 || st.halted then (st, i, y)
    else if st.sym == COMMA then
      var (s1, y1) := Expression(GetSym(st), fuel - 1);
      ActualsLoop(CheckActual(s1, x, i, y1, false), x, i + 1, y1, fuel - 1)
    else (st, i, y)
  }

  /** `if` after the keyword: the condition must be boolean; only then
      are the test, the `else` and the closing `end` generated. */
  function IfStatement(st: State, fuel: nat): (r: State)
    requires Ready(st)
    ensures Keeps(st, r)
    decreases fuel
  {
    if fuel == 0 || st.halted then st
    else
      var (s1, x) := Expression(st, fuel - 1);
      var s2 := Expect(Condition(s1, x, GenThen), THEN, "'then' expected");
      IfBranches(Statement(s2, fuel - 1), x.tp == TBool, fuel - 1)
  }

  /** The test of a condition `x`: generated by `gen` when `x` is
      boolean, reported otherwise. */
  function Condition(st: State, x: Entry, gen: (State, Entry) -> State): (r: State)
    requires forall s: State, e: Entry :: GenFrame(s, gen(s, e))
    ensures GenFrame(st, r)
    ensures x.tp == TBool ==> r == gen(st, x)
    ensures x.tp != TBool ==> r == PrintError(st, "boolean expected") && r.asm == st.asm
  {
    if x.tp == TBool then gen(st, x) else PrintError(st, "boolean expected")
  }

  /** The rest of `if` after the `then` branch: the `else` branch if
      there is one; the block is closed only for a boolean condition. */
  function IfBranches(st: State, isBool: bool, fuel: nat): (r: State)
    requires Ready(st)
    ensures Keeps(st, r)
    ensures st.sym != ELSE && !isBool ==> r == st
    ensures st.sym != ELSE && isBool && fuel > 0 && !st.halted ==> r == GenIfThen(st)
    ensures st.sym == ELSE && !isBool && fuel > 0 && !st.halted ==> r == Statement(GetSym(st), fuel - 1)
    ensures st.sym == ELSE && isBool && fuel > 0 && !st.halted ==>
              r == GenIfElse(Statement(GetSym(GenElse(st)), fuel - 1))
    decreases fuel
  {
    if fuel == 0 || st.halted then st
    else if st.sym == ELSE then
      var s1 := if isBool then GenElse(st) else st;
      var s2 := Statement(GetSym(s1), fuel - 1);
      if isBool then GenIfElse(s2) else s2
    else if isBool then GenIfThen(st)
    else st
  }

  /** `while` after the keyword: the loop is opened before the condition;
      the test and the closing branch are generated only for a boolean
      condition. */
  function WhileStatement(st: State, fuel: nat): (r: State)
    requires Ready(st)
    ensures Keeps(st, r)
    ensures fuel > 0 && !st.halted ==>
              var (s1, x) := Expression(GenWhile(st), fuel - 1);
              var s3 := Statement(Expect(Condition(s1, x, GenDo), DO, "'do' expected"), fuel - 1);
              && (x.tp == TBool ==> r == GenWhileDo(s3))
              && (x.tp != TBool ==> r == s3)
    decreases fuel
  {
    if fuel == 0 || st.halted then st
    else
      var (s1, x) := Expression(GenWhile(st), fuel - 1);
      var s2 := Expect(Condition(s1, x, GenDo), DO, "'do' expected");
      var s3 := Statement(s2, fuel - 1);
      if x.tp == TBool then GenWhileDo(s3) else s3
  }

  // ----- types -----

  /** `typ`: after recovery, a type name, an array type or a record type;
      anything else is the zero entry. The scope stack is unchanged: a
      record's scope is closed again. */
  function Typ(st: State, fuel: nat): (r: (State, Entry))
    requires Ready(st)
    ensures Keeps(st, r.0)
    decreases fuel
  {
    if fuel == 0 || st.halted then (st, ZeroEntry)
    else
      var s := Recover(st, FirstType, "type expected", false, FactorRecovery);
      if s.sym == IDENT then TypeName(s)
      else if s.sym == ARRAY then ArrayType(GetSym(s), fuel - 1)
      else if s.sym == RECORD then RecordType(GetSym(s), fuel - 1)
      else (s, ZeroEntry)
  }

  /** `array [lo .. hi] of T` after `array`. */
  function ArrayType(st: State, fuel: nat): (r: (State, Entry))
    requires Ready(st)
    ensures Keeps(st, r.0)
    decreases fuel
  {
    if fuel == 0 || st.halted then (st, ZeroEntry)
    else
      var (s1, x) := Expression(Expect(st, LBRAK, "'[' expected"), fuel - 1);
      var (s2, y) := Expression(Expect(Expect(s1, PERIOD, "'.' expected"), PERIOD, "'.' expected"), fuel - 1);
      var (s3, z) := Typ(Expect(Expect(s2, RBRAK, "']' expected"), OF, "of expected"), fuel - 1);
      ArrayBounds(s3, x, y, z.tp)
  }

  /** `record fields end` after `record`: the fields are declared in a
      scope of their own, which becomes the record's field list and is
      closed again. The record's size is the sum of the field sizes; as
      written, the field offsets are not stored (`GenRecAsWritten`). */
  function RecordType(st: State, fuel: nat): (r: (State, Entry))
    requires Ready(st)
    ensures Keeps(st, r.0)
    ensures fuel > 0 && !st.halted ==> r.1.kind == TypeEntry && r.1.arrOrRec == RecordShape && r.1.tp == TNil
    ensures fuel > 0 && !st.halted ==>
              var fieldScope := Expect(FieldLists(TypedIds(OpenScope(st), VarEntry, fuel - 1), fuel - 1), END, "'end' expected");
              && r.0 == CloseScope(fieldScope)
              && r.1.ctp.fields == TopScope(fieldScope)
              && r.1.size == SumSizes(TopScope(fieldScope))
    decreases fuel
  {
    if fuel == 0 || st.halted then (st, ZeroEntry)
    else
      var s1 := OpenScope(st);
      var s2 := Expect(FieldLists(TypedIds(s1, VarEntry, fuel - 1), fuel - 1), END, "'end' expected");
      var fields := TopScope(s2);
      var s3 := CloseScope(s2);
      assert s3.symTable == st.symTable by {
        assert s2.symTable[1..] == s1.symTable[1..];
        assert s1.symTable[1..] == st.symTable;
      }
      (s3, GenRecAsWritten(Record(fields)).(tp := TNil))
  }

  /** The further field lists of a record, after semicolons. */
  function FieldLists(st: State, fuel: nat): (r: State)
    requires Ready(st)
    ensures InnerOnly(st, r) && AddsOnly(st, r, VarEntry, VarEntry)
    decreases fuel
  {
    if fuel == 0 || st.halted then st
    else if st.sym == SEMICOLON then
      var s0 := GetSym(st);
      var s1 := TypedIds(s0, VarEntry, fuel - 1);
      var r := FieldLists(s1, fuel - 1);
      AddsOnlyThen(st, s0, s1, s1, r, VarEntry, VarEntry);
      r
    else st
  }

  /** `typedIds`: a list of names, `:` and a type; every name is declared
      in the innermost scope with the entry made from the type. */
  function TypedIds(st: State, kind: EntryKind, fuel: nat): (r: State)
    requires Ready(st)
    ensures InnerOnly(st, r)
    ensures kind == VarEntry || kind == RefEntry ==> AddsOnly(st, r, kind, kind)
    decreases fuel
  {
    if fuel == 0 || st.halted then st
    else
      var s1 := if st.sym == IDENT then GetSym(st) else PrintError(st, "identifier expected");
      var (s2, names) := IdList(s1, if st.sym == IDENT then [st.val] else []);
      if s2.sym == COLON then
        var (s3, tp) := Typ(GetSym(s2), fuel - 1);
        DeclareAll(s3, names, kind, tp)
      else PrintError(s2, ": expected")
  }

  // ----- declarations -----

  /** `declaration`: after recovery, constant, type and variable
      declarations, the allocation of the variables just declared, and
      procedure declarations. */
  function Declaration(st: State, global: bool, fuel: nat): (r: State)
    requires Ready(st)
    ensures Deepens(st, r)
    decreases fuel
  {
    if fuel == 0 || st.halted then st
    else
      var s0 := Recover(st, FirstDecl + FollowDecl, "'begin' or declaration expected", false, DeclRecovery);
      var s1 := TypeDecls(ConstDecls(s0, fuel - 1), fuel - 1);
      ProcDecls(VarSection(s1, global, fuel - 1), fuel - 1)
  }

  /** `const name = expression;` repeated; the expression must be constant. */
  function ConstDecls(st: State, fuel: nat): (r: State)
    requires Ready(st)
    ensures InnerOnly(st, r) && AddsOnly(st, r, ConstEntry, ConstEntry)
    decreases fuel
  {
    if fuel == 0 || st.halted then st
    else if st.sym == CONST then
      var s1 := GetSym(st);
      var s2 := if s1.sym == IDENT then ConstDecl(s1, fuel - 1) else PrintError(s1, "constant name expected");
      var s3 := Expect(s2, SEMICOLON, "; expected");
      var r := ConstDecls(s3, fuel - 1);
      AddsOnlyThen(st, s1, s2, s3, r, ConstEntry, ConstEntry);
      r
    else st
  }

  /** One constant declaration, from its name. */
  function ConstDecl(st: State, fuel: nat): (r: State)
    requires Ready(st)
    ensures InnerOnly(st, r) && AddsOnly(st, r, ConstEntry, ConstEntry)
    decreases fuel
  {
    if fuel == 0 || st.halted then st
    else
      var value := Expression(AfterName(st), fuel - 1);
      DeclareConst(value.0, st.val, value.1)
  }

  /** The end of a constant declaration: a constant item is declared
      under the name with its type and value, at the level the scope's
      length gives, or a name already in the scope is reported; any other
      item is reported as not constant and declares nothing. */
  function DeclareConst(st: State, name: string, x: Entry): (r: State)
    requires |st.symTable| >= 1
    ensures |r.symTable| == |st.symTable| && r.symTable[1..] == st.symTable[1..]
    ensures r.cur == st.cur && r.asm == st.asm && r.halted == st.halted
    ensures AddsOnly(st, r, ConstEntry, ConstEntry)
    ensures x.kind == ConstEntry && !InScope(st.symTable[0], name) ==>
              r.symTable[0] == st.symTable[0] + [Const(x.tp, x.val).(name := name, lev := |st.symTable[0]| - 1)]
    ensures x.kind == ConstEntry && InScope(st.symTable[0], name) ==> r == PrintError(st, "multiple definitions")
    ensures x.kind != ConstEntry ==> r == PrintError(st, "expression not constant")
  {
    if x.kind == ConstEntry then
      DeclareEntryAdds(st, name, Const(x.tp, x.val));
      DeclareEntry(st, name, Const(x.tp, x.val))
    else PrintError(st, "expression not constant")
  }

  /** The name of a constant or type declaration and the `=` after it. */
  function AfterName(st: State): (r: State)
    requires CursorInv(st.cur)
    ensures CursorInv(r.cur) && ScanFrame(st, r)
  {
    Expect(GetSym(st), EQ, "= expected")
  }

  /** `type name = type;` repeated. */
  function TypeDecls(st: State, fuel: nat): (r: State)
    requires Ready(st)
    ensures InnerOnly(st, r)
    decreases fuel
  {
    if fuel == 0 || st.halted then st
    else if st.sym == TYPE then
      var s1 := GetSym(st);
      var s2 := if s1.sym == IDENT then TypeDecl(s1, fuel - 1) else PrintError(s1, "type name expected");
      TypeDecls(s2, fuel - 1)
    else st
  }

  /** One type declaration, from its name. */
  function TypeDecl(st: State, fuel: nat): (r: State)
    requires Ready(st)
    ensures InnerOnly(st, r)
    decreases fuel
  {
    if fuel == 0 || st.halted then st
    else
      var tp := Typ(AfterName(st), fuel - 1);
      Expect(DeclareEntry(tp.0, st.val, tp.1), SEMICOLON, "; expected")
  }

  /** The variable declarations and the allocation of exactly the
      variables they declared: globals at the top level, locals inside a
      procedure. */
  function VarSection(st: State, global: bool, fuel: nat): (r: State)
    requires Ready(st)
    ensures InnerOnly(st, r)
    decreases fuel
  {
    if fuel == 0 || st.halted then st
    else
      var s1 := VarDecls(st, fuel - 1);
      var start := |TopScope(st)|;
      if global then GenGlobalVars(s1, TopScope(s1), start) else GenLocalVars(s1, TopScope(s1), start)
  }

  /** `var typedIds;` repeated. */
  function VarDecls(st: State, fuel: nat): (r: State)
    requires Ready(st)
    ensures InnerOnly(st, r) && AddsOnly(st, r, VarEntry, VarEntry)
    decreases fuel
  {
    if fuel == 0 || st.halted then st
    else if st.sym == VAR then
      var s0 := GetSym(st);
      var s1 := TypedIds(s0, VarEntry, fuel - 1);
      var s2 := Expect(s1, SEMICOLON, "; expected");
      var r := VarDecls(s2, fuel - 1);
      AddsOnlyThen(st, s0, s1, s2, r, VarEntry, VarEntry);
      r
    else st
  }

  /** `procedure …;` repeated. */
  function ProcDecls(st: State, fuel: nat): (r: State)
    requires Ready(st)
    ensures Deepens(st, r)
    decreases fuel
  {
    if fuel == 0 || st.halted then st
    else if st.sym == PROCEDURE then ProcDecls(ProcDecl(GetSym(st), fuel - 1), fuel - 1)
    else st
  }

  /** The name of a procedure declaration, declared with no parameters.
      The name taken is `val` after reading past the identifier: the
      identifier itself when an operator follows, the following word or
      number otherwise. */
  function ProcName(st: State): (r: (State, string))
    requires Ready(st)
    ensures InnerOnly(st, r.0) && |r.0.symTable[0]| >= 1
  {
    var s1 := if st.sym == IDENT then GetSym(st) else PrintError(st, "procedure named expected");
    var s2 := DeclareEntry(s1, s1.val, Proc([]));
    assert |s2.symTable[0]| >= 1 by {
      if InScope(s1.symTable[0], s1.val) {
        var j :| 0 <= j < |s1.symTable[0]| && s1.symTable[0][j].name == s1.val;
      }
    }
    (s2, s1.val)
  }

  /** The heading of a procedure declaration after `procedure`: the
      name is declared, a scope is opened for it (and never closed) and
      the formals are declared there. Only a procedure without a
      parameter list gets a function header. */
  function ProcHeading(st: State, fuel: nat): (r: State)
    requires Ready(st)
    ensures Deepens(st, r)
    ensures fuel > 0 && !st.halted ==> |r.symTable| == |st.symTable| + 1
    decreases fuel
  {
    if fuel == 0 || st.halted then st
    else
      var name := ProcName(st);
      var s1 := OpenScope(name.0);
      if s1.sym == LPAREN then FormalParams(GetSym(s1), fuel - 1) else GenProcStart(s1, name.1, [])
  }

  /** One procedure declaration after `procedure`: its heading, then its
      local declarations and body. */
  function ProcDecl(st: State, fuel: nat): (r: State)
    requires Ready(st)
    ensures Deepens(st, r)
    decreases fuel
  {
    if fuel == 0 || st.halted then st
    else ProcBody(Expect(ProcHeading(st, fuel - 1), SEMICOLON, "; expected"), fuel - 1)
  }

  /** The local declarations and the body of a procedure, its closing
      line and the final semicolon. */
  function ProcBody(st: State, fuel: nat): (r: State)
    requires Ready(st)
    ensures Deepens(st, r)
    decreases fuel
  {
    if fuel == 0 || st.halted then st
    else
      var s1 := CompoundStatement(Declaration(st, false, fuel - 1), fuel - 1);
      Expect(GenProcExit(s1), SEMICOLON, "; expected")
  }

  /** The formal parameter list after `(`: sections of names, by
      reference after `var`; the innermost scope becomes the parameter
      list of the procedure's entry. */
  function FormalParams(st: State, fuel: nat): (r: State)
    requires Ready(st) && |st.symTable| >= 2 && |st.symTable[1]| >= 1
    ensures Moves(st, r) && |r.symTable| == |st.symTable|
    decreases fuel
  {
    if fuel == 0 || st.halted then st
    else
      var s1 := if st.sym == VAR || st.sym == IDENT then FormalSections(FormalSection(st, fuel - 1), fuel - 1)
                else PrintError(st, "formal parameters expected");
      Expect(SetProcParams(s1, TopScope(s1)), RPAREN, ") expected")
  }

  /** One section of formal parameters: by reference after `var`, by
      value otherwise. */
  function FormalSection(st: State, fuel: nat): (r: State)
    requires Ready(st)
    ensures InnerOnly(st, r)
    ensures var kind := if st.sym == VAR then RefEntry else VarEntry;
            AddsOnly(st, r, kind, kind)
    decreases fuel
  {
    if fuel == 0 || st.halted then st
    else if st.sym == VAR then TypedIds(GetSym(st), RefEntry, fuel - 1)
    else TypedIds(st, VarEntry, fuel - 1)
  }

  /** The further sections of a formal parameter list, after semicolons. */
  function FormalSections(st: State, fuel: nat): (r: State)
    requires Ready(st)
    ensures InnerOnly(st, r) && AddsOnly(st, r, VarEntry, RefEntry)
    decreases fuel
  {
    if fuel == 0 || st.halted then st
    else if st.sym == SEMICOLON then FormalSections(FormalSection(GetSym(st), fuel - 1), fuel - 1)
    else st
  }

  // ----- what the declarations declare -----

  /** One declaration adds at most its own entry. */
  lemma DeclareEntryAdds(st: State, name: string, e: Entry)
    requires |st.symTable| >= 1
    ensures AddsOnly(st, DeclareEntry(st, name, e), e.kind, e.kind)
  {
  }

  /** Two steps that each add only entries of the kinds add only those. */
  lemma AddsOnlyThen(st: State, a: State, b: State, c: State, d: State, k1: EntryKind, k2: EntryKind)
    requires |st.symTable| >= 1 && |b.symTable| >= 1 && |d.symTable| >= 1
    requires a.symTable == st.symTable && c.symTable == b.symTable
    requires AddsOnly(a, b, k1, k2) && AddsOnly(c, d, k1, k2)
    ensures AddsOnly(st, d, k1, k2)
  {
    forall j | |st.symTable[0]| <= j < |d.symTable[0]|
      ensures d.symTable[0][j].kind == k1 || d.symTable[0][j].kind == k2
    {
      if j < |b.symTable[0]| {
        assert d.symTable[0][j] == b.symTable[0][j];
      }
    }
  }

  /** Declarations whose entries are all of one kind add only entries
      of that kind; a name already declared adds nothing. */
  lemma {:induction false} DeclareEachAdds(st: State, decls: seq<(string, Entry)>, kind: EntryKind)
    requires |st.symTable| >= 1
    requires forall i :: 0 <= i < |decls| ==> decls[i].1.kind == kind
    ensures AddsOnly(st, DeclareEach(st, decls), kind, kind)
    decreases |decls|
  {
    if |decls| > 0 {
      var s1 := DeclareEntry(st, decls[0].0, decls[0].1);
      assert AddsOnly(st, s1, kind, kind);
      DeclareEachAdds(s1, decls[1..], kind);
      AddsOnlyThen(st, st, s1, s1, DeclareEach(s1, decls[1..]), kind, kind);
    }
  }

  /** `typedIds` reads the names: the first is the identifier read, and
      a missing `:` after them is reported and declares nothing. */
  lemma TypedIdsNames(st: State, kind: EntryKind, fuel: nat)
    requires Ready(st) && !st.halted
    ensures var s1 := if st.sym == IDENT then GetSym(st) else PrintError(st, "identifier expected");
            var (s2, names) := IdList(s1, if st.sym == IDENT then [st.val] else []);
            && (st.sym == IDENT ==> |names| >= 1 && names[0] == st.val)
            && (s2.sym != COLON ==> TypedIds(st, kind, fuel + 1) == PrintError(s2, ": expected"))
  {
  }

  /** With the `:` and the type present, names that are distinct and new
      in the innermost scope are all declared there in order, each with
      the entry the kind and the type make, at the level the scope's
      length before it gives. */
  lemma TypedIdsDeclares(st: State, kind: EntryKind, fuel: nat)
    requires Ready(st) && !st.halted && (kind == VarEntry || kind == RefEntry)
    ensures var s1 := if st.sym == IDENT then GetSym(st) else PrintError(st, "identifier expected");
            var (s2, names) := IdList(s1, if st.sym == IDENT then [st.val] else []);
            var r := TypedIds(st, kind, fuel + 1);
            var n := |st.symTable[0]|;
            s2.sym == COLON
            && (forall i, j :: 0 <= i < j < |names| ==> names[i] != names[j])
            && (forall i :: 0 <= i < |names| ==> !InScope(st.symTable[0], names[i])) ==>
              var tp := Typ(GetSym(s2), fuel).1;
              && |r.symTable[0]| == n + |names| && r.symTable[0][..n] == st.symTable[0]
              && forall i :: 0 <= i < |names| ==>
                   r.symTable[0][n + i] == TypedEntry(kind, tp).(name := names[i], lev := n + i - 1)
  {
    var s1 := if st.sym == IDENT then GetSym(st) else PrintError(st, "identifier expected");
    var (s2, names) := IdList(s1, if st.sym == IDENT then [st.val] else []);
    if s2.sym == COLON
      && (forall i, j :: 0 <= i < j < |names| ==> names[i] != names[j])
      && (forall i :: 0 <= i < |names| ==> !InScope(st.symTable[0], names[i]))
    {
      var (s3, tp) := Typ(GetSym(s2), fuel);
      DeclaredInOrder(st, s3, TypedIds(st, kind, fuel + 1), names, kind, tp);
    }
  }

  /** `DeclareAllFresh`, seen from a state with the same scopes. */
  lemma DeclaredInOrder(st: State, s3: State, r: State, names: seq<string>, kind: EntryKind, tp: Entry)
    requires |st.symTable| >= 1 && s3.symTable == st.symTable && (kind == VarEntry || kind == RefEntry)
    requires r == DeclareAll(s3, names, kind, tp)
    requires forall i, j :: 0 <= i < j < |names| ==> names[i] != names[j]
    requires forall i :: 0 <= i < |names| ==> !InScope(st.symTable[0], names[i])
    ensures var n := |st.symTable[0]|;
            && |r.symTable[0]| == n + |names| && r.symTable[0][..n] == st.symTable[0]
            && forall i :: 0 <= i < |names| ==>
                 r.symTable[0][n + i] == TypedEntry(kind, tp).(name := names[i], lev := n + i - 1)
  {
    DeclareAllFresh(s3, names, kind, tp);
  }

  /** A type declaration declares the type read under the name, or
      reports a name already in the scope. */
  lemma TypeDeclDeclares(st: State, fuel: nat)
    requires Ready(st) && !st.halted
    ensures var x := Typ(AfterName(st), fuel).1;
            var r := TypeDecl(st, fuel + 1);
            var n := |st.symTable[0]|;
            && (!InScope(st.symTable[0], st.val) ==> r.symTable[0] == st.symTable[0] + [x.(name := st.val, lev := n - 1)])
            && (InScope(st.symTable[0], st.val) ==> r.error && r.symTable == st.symTable)
  {
  }

  /** The variable section allocates exactly the entries its `var`
      declarations added — all of them variables — and nothing declared
      before it: one global or local line per scalar among them, in
      order. */
  lemma VarSectionAllocates(st: State, global: bool, fuel: nat)
    requires Ready(st) && !st.halted
    ensures var s1 := VarDecls(st, fuel);
            var r := VarSection(st, global, fuel + 1);
            var n := |st.symTable[0]|;
            && AddsOnly(st, s1, VarEntry, VarEntry) && r.symTable == s1.symTable
            && (global ==> r.asm == s1.asm + Decls(s1.symTable[0][n..], GlobalLine))
            && (!global ==> r.asm == s1.asm + Decls(s1.symTable[0][n..], LocalLine))
  {
  }

  /** Parameters of one kind are parameters. */
  lemma AddsOnlyParams(st: State, r: State, kind: EntryKind)
    requires |st.symTable| >= 1 && |r.symTable| >= 1
    requires (kind == VarEntry || kind == RefEntry) && AddsOnly(st, r, kind, kind)
    ensures AddsOnly(st, r, VarEntry, RefEntry)
  {
  }

  /** The formal parameter list declares only parameters, and the
      procedure's entry, the last one of the enclosing scope, gets the
      innermost scope as its parameter list; nothing else in that scope
      changes. */
  lemma FormalParamsSetsPar(st: State, fuel: nat)
    requires Ready(st) && |st.symTable| >= 2 && |st.symTable[1]| >= 1 && !st.halted
    ensures var r := FormalParams(st, fuel + 1);
            var n := |st.symTable[1]|;
            && r.symTable[1] == st.symTable[1][..n - 1] + [st.symTable[1][n - 1].(par := r.symTable[0])]
            && AddsOnly(st, r, VarEntry, RefEntry)
  {
    var s1 := if st.sym == VAR || st.sym == IDENT then FormalSections(FormalSection(st, fuel), fuel)
              else PrintError(st, "formal parameters expected");
    if st.sym == VAR || st.sym == IDENT {
      var s0 := FormalSection(st, fuel);
      AddsOnlyParams(st, s0, if st.sym == VAR then RefEntry else VarEntry);
      AddsOnlyThen(st, st, s0, s0, s1, VarEntry, RefEntry);
    }
    var s2 := SetProcParams(s1, TopScope(s1));
    assert FormalParams(st, fuel + 1) == Expect(s2, RPAREN, ") expected");
    assert s2.symTable[0] == s1.symTable[0];
  }

  /** The procedure's name is `val` after reading past the identifier:
      the identifier itself when an operator (such as `;` or `(`)
      follows, a following word or number otherwise; without an
      identifier, which is reported, it is the current `val`. A procedure
      with no parameters is declared under it, or a name already in the
      scope is reported. */
  lemma ProcNameDeclares(st: State)
    requires Ready(st)
    ensures var (s, name) := ProcName(st);
            var c := SkipBlanks(st.cur).ch;
            && (st.sym == IDENT ==> name == GetSym(st).val)
            && (st.sym == IDENT && !IsLetter(c) && !IsDigit(c) ==> name == st.val)
            && (st.sym != IDENT ==> name == st.val && s.error)
            && (!InScope(st.symTable[0], name) ==>
                  s.symTable[0] == st.symTable[0] + [Proc([]).(name := name, lev := |st.symTable[0]| - 1)])
            && (InScope(st.symTable[0], name) ==> s.error && s.symTable == st.symTable)
  {
    GetSymKeepsVal(st);
  }

  /** Without a parameter list the procedure gets its function header:
      the depth goes up by one and nothing is declared in its new scope;
      with one, the formal parameters are read instead and no header is
      generated here. */
  lemma ProcHeadingParts(st: State, fuel: nat)
    requires Ready(st) && !st.halted
    ensures var (s0, name) := ProcName(st);
            var s1 := OpenScope(s0);
            var r := ProcHeading(st, fuel + 1);
            && (s1.sym != LPAREN ==>
                  && r.asm == st.asm + ["(func $" + name + ParamList([])] && r.curlev == st.curlev + 1
                  && r.symTable == s1.symTable && r.symTable[0] == [])
            && (s1.sym == LPAREN ==> r == FormalParams(GetSym(s1), fuel))
  {
  }

  /** A procedure body ends with the procedure's closing line: the depth
      goes back down by one. */
  lemma ProcBodyCloses(st: State, fuel: nat)
    requires Ready(st) && !st.halted
    ensures var s1 := CompoundStatement(Declaration(st, false, fuel), fuel);
            var r := ProcBody(st, fuel + 1);
            && r.asm == s1.asm + [")"] && r.curlev == s1.curlev - 1 && r.symTable == s1.symTable
  {
  }

  // ----- the program -----

  /** The program header after the predeclared names: the module
      header, `program name;`. Returns the program's name. */
  function ProgramHeader(st: State): (r: (State, string))
    requires Ready(st)
    ensures Keeps(st, r.0) && r.0.asm == st.asm + Imports
  {
    var s1 := Expect(GenProgStart(st), PROGRAM, "'program' expected");
    var s2 := if s1.sym == IDENT then GetSym(s1) else PrintError(s1, "program name expected");
    (Expect(s2, SEMICOLON, "; expected"), s1.val)
  }

  /** The global declarations, the main body and the closing text after
      the header. A run-time panic (`halted`) ends the compilation with
      no text; otherwise the text is the whole generated code, joined. */
  method ProgramBody(st: State, ident: string, fuel: nat) returns (r: State, text: Option<string>)
    requires Ready(st)
    ensures Moves(st, r)
    ensures text.None? <==> r.halted
    ensures !r.halted ==>
              && |r.asm| > 0 && r.asm[|r.asm| - 1] == ClosingLine(r.memsize)
              && text == Some(Join(r.asm))
  {
    var s1 := Declaration(st, true, fuel);
    if s1.halted {
      return s1, None;
    }
    r, text := MainBody(s1, ident, fuel);
  }

  /** The main body of the program, after the global declarations: the
      program function's opening line, the compound statement, and the
      closing text unless a run-time panic halted the compilation. */
  method MainBody(st: State, ident: string, fuel: nat) returns (r: State, text: Option<string>)
    requires Ready(st)
    ensures Moves(st, r)
    ensures text.None? <==> r.halted
    ensures !r.halted ==>
              && |r.asm| > 0 && r.asm[|r.asm| - 1] == ClosingLine(r.memsize)
              && text == Some(Join(r.asm))
  {
    var s2 := CompoundStatement(GenProgEntry(st, ident), fuel);
    if s2.halted {
      return s2, None;
    }
    var exit := GenProgExit(s2);
    r, text := exit.0, Some(exit.1);
  }

  /** The predeclared names and the header: the module header is the
      code so far. */
  function ProgramStart(st: State): (r: (State, string))
    requires Ready(st)
    ensures Ready(r.0) && Moves(st, r.0) && r.0.asm == st.asm + Imports
  {
    ProgramHeader(DeclareBuiltins(st))
  }

  /** `Program`: the predeclared names, the header, the global
      declarations, the main body, and the closing text. Returns the
      whole generated text, or none after a run-time panic. */
  method Program(st: State, fuel: nat) returns (r: State, text: Option<string>)
    requires Ready(st)
    ensures Moves(st, r) && st.asm + Imports <= r.asm
    ensures text.None? <==> r.halted
    ensures !r.halted ==>
              && |r.asm| > 0 && r.asm[|r.asm| - 1] == ClosingLine(r.memsize)
              && text == Some(Join(r.asm))
  {
    var header := ProgramStart(st);
    r, text := ProgramBody(header.0, header.1, fuel);
  }

  /** `CompileWasm` without the file output: the scanner reads the first
      token and the program is compiled into one text that starts with
      the module header and ends with the memory and start declarations;
      a run-time panic leaves no text. */
  method CompileWasm(contents: string, fuel: nat) returns (r: State, text: Option<string>)
    ensures Imports <= r.asm
    ensures text.None? <==> r.halted
    ensures !r.halted ==>
              && |r.asm| > 0 && r.asm[|r.asm| - 1] == ClosingLine(r.memsize)
              && text == Some(Join(r.asm))
  {
    var st := NewInputData(contents);
    assert CursorInv(st.cur);
    var s0 := Init(st);
    assert s0.asm == [] && Ready(s0);
    r, text := Program(s0, fuel);
    assert s0.asm + Imports == Imports;
  }
}
