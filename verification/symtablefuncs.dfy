/** The scope stack: declaration, lookup, and opening and closing of
    scopes. The stack is a sequence of scopes, innermost first. */
module SymTableFuncs {
  import opened Base
  import opened SymTable
  import opened InputData
  import opened Scanner

  /** Some entry of `scope` is called `name`. */
  predicate InScope(scope: seq<Entry>, name: string) {
    exists j :: 0 <= j < |scope| && scope[j].name == name
  }

  /** `NewDecl` as written: a duplicate in the innermost scope is
      reported and nothing is added; otherwise an entry of the given kind
      and type `int` is appended to the innermost scope. Its level is the
      length of the innermost scope before the append, minus one. */
  function NewDecl(st: State, name: string, kind: EntryKind): (r: State)
    requires |st.symTable| >= 1
    ensures InScope(st.symTable[0], name) ==> r == PrintError(st, "multiple definitions")
    ensures !InScope(st.symTable[0], name) ==>
              && r == st.(symTable := r.symTable)
              && |r.symTable| == |st.symTable| && r.symTable[1..] == st.symTable[1..]
              && var scope := r.symTable[0];
                 && |scope| == |st.symTable[0]| + 1 && scope[..|st.symTable[0]|] == st.symTable[0]
                 && scope[|scope| - 1].name == name && scope[|scope| - 1].kind == kind
                 && scope[|scope| - 1].tp == TInt && scope[|scope| - 1].lev == |st.symTable[0]| - 1
  {
    var top := st.symTable[0];
    if InScope(top, name) then PrintError(st, "multiple definitions")
    else
      var e := ZeroEntry.(kind := kind, name := name, lev := |top| - 1, tp := TInt);
      st.(symTable := [top + [e]] + st.symTable[1..])
  }

  /** The level a declaration gets: the number of scopes enclosing the
      innermost one, so 0 for a global and 1 inside a procedure or a
      record. */
  function DeclLevel(st: State): int {
    |st.symTable| - 1
  }

  /** The entry-taking `NewDecl` with the level passed in: a duplicate
      in the innermost scope is reported and nothing changes; otherwise
      the entry, renamed and stamped with the level, is appended to the
      innermost scope. */
  function DeclareAt(st: State, name: string, e: Entry, lev: int): (r: State)
    requires |st.symTable| >= 1
    ensures InScope(st.symTable[0], name) ==> r == PrintError(st, "multiple definitions")
    ensures !InScope(st.symTable[0], name) ==>
              && r == st.(symTable := r.symTable)
              && |r.symTable| == |st.symTable| && r.symTable[1..] == st.symTable[1..]
              && r.symTable[0] == st.symTable[0] + [e.(name := name, lev := lev)]
  {
    var top := st.symTable[0];
    if InScope(top, name) then PrintError(st, "multiple definitions")
    else st.(symTable := [top + [e.(name := name, lev := lev)]] + st.symTable[1..])
  }

  /** `NewDecl(name, entry)` as the parser calls it, with the level rule
      of `NewDecl` above: the new entry's level is the length of the
      innermost scope before the append, minus one. */
  function DeclareEntry(st: State, name: string, e: Entry): (r: State)
    requires |st.symTable| >= 1
    ensures InScope(st.symTable[0], name) ==> r == PrintError(st, "multiple definitions")
    ensures !InScope(st.symTable[0], name) ==>
              && r == st.(symTable := r.symTable)
              && |r.symTable| == |st.symTable| && r.symTable[1..] == st.symTable[1..]
              && r.symTable[0] == st.symTable[0] + [e.(name := name, lev := |st.symTable[0]| - 1)]
  {
    DeclareAt(st, name, e, |st.symTable[0]| - 1)
  }

  /** The entry-taking declaration and `NewDecl` follow one rule: an
      `int` entry of a kind is declared by both alike. */
  lemma DeclareEntryIsNewDecl(st: State, name: string, kind: EntryKind)
    requires |st.symTable| >= 1
    ensures DeclareEntry(st, name, ZeroEntry.(kind := kind, tp := TInt)) == NewDecl(st, name, kind)
  {
  }

  /** `NewDecl(name, entry)` with the level corrected to the depth of the
      scope stack: the duplicate check is the same; on success the entry,
      renamed and stamped with the level, is appended to the innermost
      scope and nothing else changes. */
  function Declare(st: State, name: string, e: Entry): (r: State)
    requires |st.symTable| >= 1
    ensures InScope(st.symTable[0], name) ==> r == PrintError(st, "multiple definitions")
    ensures !InScope(st.symTable[0], name) ==>
              && r == st.(symTable := r.symTable)
              && |r.symTable| == |st.symTable| && r.symTable[1..] == st.symTable[1..]
              && r.symTable[0] == st.symTable[0] + [e.(name := name, lev := DeclLevel(st))]
  {
    DeclareAt(st, name, e, DeclLevel(st))
  }

  /** With the seven built-in names already global, a global variable
      declared by `NewDecl` as written, or by the entry-taking form the
      parser calls, gets level 6 instead of 0, which the generator rejects
      ("WASM: var Level"); `Declare` gives it level 0. */
  lemma NewDeclLevelCounterexample()
    ensures var builtins := [ZeroEntry.(name := "boolean"), ZeroEntry.(name := "integer"),
                             ZeroEntry.(name := "true"), ZeroEntry.(name := "false"),
                             ZeroEntry.(name := "read"), ZeroEntry.(name := "write"),
                             ZeroEntry.(name := "writeln")];
            var st := NewInputData("").(symTable := [builtins]);
            && NewDecl(st, "x", VarEntry).symTable[0][7].lev == 6
            && DeclareEntry(st, "x", Var(TInt)).symTable[0][7].lev == 6
            && Declare(st, "x", Var(TInt)).symTable[0][7].lev == 0
  {
    var builtins := [ZeroEntry.(name := "boolean"), ZeroEntry.(name := "integer"),
                     ZeroEntry.(name := "true"), ZeroEntry.(name := "false"),
                     ZeroEntry.(name := "read"), ZeroEntry.(name := "write"),
                     ZeroEntry.(name := "writeln")];
    assert !InScope(builtins, "x") by {
      forall j | 0 <= j < |builtins| ensures builtins[j].name != "x" {
        assert builtins[j].name[0] != 'x';
      }
    }
  }

  // ----- lookup -----

  /** The first entry called `name`, scanning the scopes innermost first
      and each scope from its start. */
  function Lookup(scopes: seq<seq<Entry>>, name: string): (r: Option<Entry>)
  {
    if |scopes| == 0 then None
    else
      var inner := LookupScope(scopes[0], name);
      if inner.Some? then inner else Lookup(scopes[1..], name)
  }

  /** The first entry of one scope called `name`. */
  function LookupScope(scope: seq<Entry>, name: string): (r: Option<Entry>)
  {
    if |scope| == 0 then None
    else if scope[0].name == name then Some(scope[0])
    else LookupScope(scope[1..], name)
  }

  /** `LookupScope` finds the earliest entry with the name, and nothing
      when there is none. */
  lemma {:induction false} LookupScopeFirst(scope: seq<Entry>, name: string)
    ensures LookupScope(scope, name).None? <==> !InScope(scope, name)
    ensures LookupScope(scope, name).Some? ==>
              exists j :: 0 <= j < |scope| && scope[j] == LookupScope(scope, name).value
                          && scope[j].name == name && forall q :: 0 <= q < j ==> scope[q].name != name
  {
    if |scope| > 0 {
      LookupScopeFirst(scope[1..], name);
      if scope[0].name != name {
        if InScope(scope[1..], name) {
          var j :| 0 <= j < |scope[1..]| && scope[1..][j].name == name;
          assert scope[j + 1].name == name;
        }
        if InScope(scope, name) {
          var j :| 0 <= j < |scope| && scope[j].name == name;
          assert scope[1..][j - 1].name == name;
        }
        if LookupScope(scope, name).Some? {
          var j :| 0 <= j < |scope[1..]| && scope[1..][j] == LookupScope(scope, name).value
                   && scope[1..][j].name == name && forall q :: 0 <= q < j ==> scope[1..][q].name != name;
          assert scope[j + 1] == LookupScope(scope, name).value;
          assert forall q :: 1 <= q < j + 1 ==> scope[q].name != name by {
            forall q | 1 <= q < j + 1 ensures scope[q].name != name {
              assert scope[q] == scope[1..][q - 1];
            }
          }
        }
      } else {
        assert scope[0].name == name;
      }
    }
  }

  /** `Lookup` takes the entry from the innermost scope that declares
      the name: inner declarations shadow outer ones. */
  lemma {:induction false} LookupInnermost(scopes: seq<seq<Entry>>, name: string)
    ensures Lookup(scopes, name).None? <==> forall i :: 0 <= i < |scopes| ==> !InScope(scopes[i], name)
    ensures Lookup(scopes, name).Some? ==>
              exists i :: 0 <= i < |scopes| && Lookup(scopes, name) == LookupScope(scopes[i], name)
                          && forall p :: 0 <= p < i ==> !InScope(scopes[p], name)
  {
    if |scopes| > 0 {
      LookupScopeFirst(scopes[0], name);
      LookupInnermost(scopes[1..], name);
      assert forall i :: 1 <= i < |scopes| ==> scopes[i] == scopes[1..][i - 1];
      if LookupScope(scopes[0], name).None? && Lookup(scopes[1..], name).Some? {
        var i :| 0 <= i < |scopes[1..]| && Lookup(scopes[1..], name) == LookupScope(scopes[1..][i], name)
                 && forall p :: 0 <= p < i ==> !InScope(scopes[1..][p], name);
        assert Lookup(scopes, name) == LookupScope(scopes[i + 1], name);
      }
    }
  }

  /** `FindInSymTab`: the first entry called `name`, innermost scope
      first; an undeclared name is reported and yields the zero entry. */
  function FindInSymTab(st: State, name: string): (r: (State, Entry))
    ensures Lookup(st.symTable, name).Some? ==> r == (st, Lookup(st.symTable, name).value)
    ensures Lookup(st.symTable, name).None? ==>
              r == (PrintError(st, "undefined identifier " + name), ZeroEntry)
  {
    var found := Lookup(st.symTable, name);
    if found.Some? then (st, found.value)
    else (PrintError(st, "undefined identifier " + name), ZeroEntry)
  }

  /** A successful declaration is found by the next lookup of its name,
      whatever outer scopes declare: it shadows them. */
  lemma DeclareThenFind(st: State, name: string, e: Entry, lev: int)
    requires |st.symTable| >= 1 && !InScope(st.symTable[0], name)
    ensures var r := DeclareAt(st, name, e, lev);
            FindInSymTab(r, name) == (r, e.(name := name, lev := lev))
  {
    var r := DeclareAt(st, name, e, lev);
    var top := r.symTable[0];
    LookupScopeFirst(st.symTable[0], name);
    LookupScopeFirst(top, name);
    assert InScope(top, name) by { assert top[|top| - 1].name == name; }
    var j :| 0 <= j < |top| && top[j] == LookupScope(top, name).value
             && top[j].name == name && forall q :: 0 <= q < j ==> top[q].name != name;
    assert j == |top| - 1;
  }

  /** A rejected redeclaration keeps the original binding: the lookup
      still finds what it found before. */
  lemma DuplicateKeepsBinding(st: State, name: string, e: Entry, lev: int)
    requires |st.symTable| >= 1 && InScope(st.symTable[0], name)
    ensures DeclareAt(st, name, e, lev).symTable == st.symTable
    ensures FindInSymTab(DeclareAt(st, name, e, lev), name).1 == FindInSymTab(st, name).1
    ensures Lookup(st.symTable, name).Some?
  {
    LookupScopeFirst(st.symTable[0], name);
  }

  // ----- scopes -----

  /** `OpenScope`: a new, empty innermost scope. */
  function OpenScope(st: State): (r: State)
    ensures r.symTable == [[]] + st.symTable
    ensures r == st.(symTable := r.symTable)
  {
    st.(symTable := [[]] + st.symTable)
  }

  /** `TopScope`: the innermost scope. */
  function TopScope(st: State): (r: seq<Entry>)
    requires |st.symTable| >= 1
    ensures r == st.symTable[0]
  {
    st.symTable[0]
  }

  /** `CloseScope`: the innermost scope is dropped. */
  function CloseScope(st: State): (r: State)
    requires |st.symTable| >= 1
    ensures |r.symTable| == |st.symTable| - 1
    ensures forall i :: 0 <= i < |r.symTable| ==> r.symTable[i] == st.symTable[i + 1]
    ensures r == st.(symTable := r.symTable)
  {
    st.(symTable := st.symTable[1..])
  }

  /** Opening and then closing a scope restores the stack exactly. */
  lemma OpenCloseRoundTrip(st: State)
    ensures CloseScope(OpenScope(st)) == st
  {
    assert ([[]] + st.symTable)[1..] == st.symTable;
  }

  /** A name declared in a scope that is then closed is no longer found
      there: the lookup answers as before the scope was opened. */
  lemma ClosedScopeForgotten(st: State, name: string, e: Entry)
    ensures var r := CloseScope(DeclareEntry(OpenScope(st), name, e));
            r.symTable == st.symTable
  {
    var o := OpenScope(st);
    assert !InScope(o.symTable[0], name);
    assert ([[]] + st.symTable)[1..] == st.symTable;
  }
}
