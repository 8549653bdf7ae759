/** Symbol-table entries (bindings) and the aggregate-type descriptor
    they may carry. */
module SymTable {

  /** The primitive types "int", "bool" and "none", plus the Go zero
      value "" that an entry has before any type is assigned. */
  datatype PrimitiveType = TInt | TBool | TNone | TNil

  /** What an entry denotes: "var", "ref", "const", "type", "proc",
      "stdproc", or "" for the zero entry. */
  datatype EntryKind = VarEntry | RefEntry | ConstEntry | TypeEntry | ProcEntry | StdProcEntry | NoEntry

  /** The `ArrOrRec` tag: "" (scalar), "array" or "record". */
  datatype Shape = Scalar | ArrayShape | RecordShape

  /** `ComplexTypes`: the descriptor of an array or record type. For an
      array, `size` is the size of one element. */
  datatype ComplexType = ComplexType(
    shape: Shape,
    fields: seq<Entry>,
    base: PrimitiveType,
    lower: int,
    length: int,
    size: int)

  /** `SymTableEntry`. */
  datatype Entry = Entry(
    kind: EntryKind,
    name: string,
    tp: PrimitiveType,
    ctp: ComplexType,
    lev: int,
    val: int,
    par: seq<Entry>,
    size: int,
    adr: int,
    offset: int,
    arrOrRec: Shape)

  /** The Go spelling of each primitive type. */
  function PrimitiveName(t: PrimitiveType): string {
    match t
    case TInt => "int"
    case TBool => "bool"
    case TNone => "none"
    case TNil => ""
  }

  /** Exactly three primitive types have a name, and the names differ. */
  lemma PrimitiveNamesDistinct()
    ensures forall t, u :: PrimitiveName(t) == PrimitiveName(u) ==> t == u
    ensures forall t :: PrimitiveName(t) != "" <==> t in {TInt, TBool, TNone}
  {
  }

  const DocumentedKinds: set<string> := {"var", "ref", "const", "type", "proc", "stdproc"}

  /** The Go spelling of an entry kind; every kind but the zero one is
      one of the six documented spellings. */
  function KindName(k: EntryKind): (s: string)
    ensures k != NoEntry <==> s in DocumentedKinds
    ensures k == NoEntry <==> s == ""
  {
    match k
    case VarEntry => "var"
    case RefEntry => "ref"
    case ConstEntry => "const"
    case TypeEntry => "type"
    case ProcEntry => "proc"
    case StdProcEntry => "stdproc"
    case NoEntry => ""
  }

  /** Storage units of a primitive value: 1 for a boolean, 4 for an
      integer (the sizes GenBool and GenInt assign). */
  function PrimSize(t: PrimitiveType): nat {
    match t
    case TBool => 1
    case TInt => 4
    case _ => 0
  }

  const EmptyComplex: ComplexType := ComplexType(Scalar, [], TNil, 0, 0, 0)

  /** The value the parser treats as "no value" when folding a constant
      `and`/`or`; its actual number is not part of this model's sources,
      so the most negative 64-bit integer stands for it. */
  const EmptyInt: int := -0x8000_0000_0000_0000

  /** `SymTableEntry{}`: the Go zero value. */
  const ZeroEntry: Entry := Entry(NoEntry, "", TNil, EmptyComplex, 0, 0, [], 0, 0, 0, Scalar)

  /** `NewSymTableEntry`: the seven arguments land in the fields of the
      same name; size, address and offset start at zero. */
  function NewSymTableEntry(kind: EntryKind, name: string, tp: PrimitiveType, ctp: ComplexType,
                            lev: int, val: int, par: seq<Entry>): (e: Entry)
    ensures e.kind == kind && e.name == name && e.tp == tp && e.ctp == ctp
    ensures e.lev == lev && e.val == val && e.par == par
    ensures e.size == 0 && e.adr == 0 && e.offset == 0
    ensures e.arrOrRec == Scalar
  {
    Entry(kind, name, tp, ctp, lev, val, par, 0, 0, 0, Scalar)
  }

  /** `NewComplexType`: the descriptor keeps its shape, fields, base type,
      lower bound and length, starts with size zero, and ignores `par`. */
  function NewComplexType(shape: Shape, fields: seq<Entry>, base: PrimitiveType, lower: int,
                          length: int, par: seq<string>): (c: ComplexType)
    ensures c.shape == shape && c.fields == fields && c.base == base
    ensures c.lower == lower && c.length == length && c.size == 0
  {
    ComplexType(shape, fields, base, lower, length, 0)
  }

  /** The `par` argument of NewComplexType has no effect. */
  lemma NewComplexTypeIgnoresPar(shape: Shape, fields: seq<Entry>, base: PrimitiveType, lower: int,
                                 length: int, p: seq<string>, q: seq<string>)
    ensures NewComplexType(shape, fields, base, lower, length, p) == NewComplexType(shape, fields, base, lower, length, q)
  {
  }

  // ----- constructors the parser and generator use -----
  // These build on NewSymTableEntry and NewComplexType. Values, variables
  // and references take their size from their primitive type; an array
  // records its element size in its descriptor.

  function Const(tp: PrimitiveType, val: int): (e: Entry)
    ensures e.kind == ConstEntry && e.tp == tp && e.val == val && e.arrOrRec == Scalar
  {
    NewSymTableEntry(ConstEntry, "", tp, EmptyComplex, 0, val, [])
  }

  function Var(tp: PrimitiveType): (e: Entry)
    ensures e.kind == VarEntry && e.tp == tp && e.size == PrimSize(tp) && e.arrOrRec == Scalar
  {
    NewSymTableEntry(VarEntry, "", tp, EmptyComplex, 0, 0, []).(size := PrimSize(tp))
  }

  function Ref(tp: PrimitiveType): (e: Entry)
    ensures e.kind == RefEntry && e.tp == tp && e.size == PrimSize(tp) && e.arrOrRec == Scalar
  {
    NewSymTableEntry(RefEntry, "", tp, EmptyComplex, 0, 0, []).(size := PrimSize(tp))
  }

  function Type(tp: PrimitiveType): (e: Entry)
    ensures e.kind == TypeEntry && e.tp == tp && e.size == 0 && e.arrOrRec == Scalar
  {
    NewSymTableEntry(TypeEntry, "", tp, EmptyComplex, 0, 0, [])
  }

  function Array(base: PrimitiveType, lower: int, length: int): (e: Entry)
    ensures e.kind == TypeEntry && e.arrOrRec == ArrayShape && e.ctp.shape == ArrayShape
    ensures e.ctp.base == base && e.ctp.lower == lower && e.ctp.length == length
    ensures e.ctp.size == PrimSize(base)
  {
    var ctp := NewComplexType(ArrayShape, [], base, lower, length, []).(size := PrimSize(base));
    NewSymTableEntry(TypeEntry, "", base, ctp, 0, 0, []).(arrOrRec := ArrayShape)
  }

  function Record(fields: seq<Entry>): (e: Entry)
    ensures e.kind == TypeEntry && e.arrOrRec == RecordShape && e.ctp.shape == RecordShape
    ensures e.ctp.fields == fields
  {
    var ctp := NewComplexType(RecordShape, fields, TNil, 0, 0, []);
    NewSymTableEntry(TypeEntry, "", TNil, ctp, 0, 0, []).(arrOrRec := RecordShape)
  }

  function Proc(params: seq<Entry>): (e: Entry)
    ensures e.kind == ProcEntry && e.par == params
  {
    NewSymTableEntry(ProcEntry, "", TNil, EmptyComplex, 0, 0, params)
  }

  function StdProc(params: seq<Entry>): (e: Entry)
    ensures e.kind == StdProcEntry && e.par == params
  {
    NewSymTableEntry(StdProcEntry, "", TNil, EmptyComplex, 0, 0, params)
  }

  predicate IsAggregate(e: Entry) {
    e.arrOrRec == ArrayShape || e.arrOrRec == RecordShape
  }
}
