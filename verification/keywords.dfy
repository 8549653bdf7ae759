/** Token codes shared by the scanner and the parser, and the table of
    reserved words. */
module Keywords {

  const TIMES: int := 1
  const DIV: int := 2
  const MOD: int := 3
  const AND: int := 4
  const PLUS: int := 5
  const MINUS: int := 6
  const OR: int := 7
  const EQ: int := 8
  const NE: int := 9
  const LT: int := 10
  const GT: int := 11
  const LE: int := 12
  const GE: int := 13
  const PERIOD: int := 14
  const COMMA: int := 15
  const COLON: int := 16
  const RPAREN: int := 17
  const RBRAK: int := 18
  const OF: int := 19
  const THEN: int := 20
  const DO: int := 21
  const LPAREN: int := 22
  const LBRAK: int := 23
  const NOT: int := 24
  const BECOMES: int := 25
  const NUMBER: int := 26
  const IDENT: int := 27
  const SEMICOLON: int := 28
  const END: int := 29
  const ELSE: int := 30
  const IF: int := 31
  const WHILE: int := 32
  const ARRAY: int := 33
  const RECORD: int := 34
  const CONST: int := 35
  const TYPE: int := 36
  const VAR: int := 37
  const PROCEDURE: int := 38
  const BEGIN: int := 39
  const PROGRAM: int := 40
  const EOF: int := 41

  /** Every token constant, in declaration order. */
  const AllTokens: seq<int> := [
    TIMES, DIV, MOD, AND, PLUS, MINUS, OR, EQ, NE, LT, GT, LE, GE, PERIOD,
    COMMA, COLON, RPAREN, RBRAK, OF, THEN, DO, LPAREN, LBRAK, NOT, BECOMES,
    NUMBER, IDENT, SEMICOLON, END, ELSE, IF, WHILE, ARRAY, RECORD, CONST,
    TYPE, VAR, PROCEDURE, BEGIN, PROGRAM, EOF]

  /** The reserved words and their token codes. */
  const KeywordMap: map<string, int> := map[
    "div" := DIV, "mod" := MOD, "and" := AND, "or" := OR, "of" := OF,
    "then" := THEN, "do" := DO, "not" := NOT, "end" := END, "else" := ELSE,
    "if" := IF, "while" := WHILE, "array" := ARRAY, "record" := RECORD,
    "const" := CONST, "type" := TYPE, "var" := VAR,
    "procedure" := PROCEDURE, "begin" := BEGIN, "program" := PROGRAM]

  /** The reserved words, in the order the map lists them. */
  const KeywordList: seq<string> := [
    "div", "mod", "and", "or", "of", "then", "do", "not", "end", "else",
    "if", "while", "array", "record", "const", "type", "var", "procedure",
    "begin", "program"]

  /** The 41 token constants are exactly the codes 1 to 41, in order, so
      they are pairwise distinct. */
  lemma TokenCodes()
    ensures |AllTokens| == 41
    ensures forall i :: 0 <= i < |AllTokens| ==> AllTokens[i] == i + 1
  {
  }

  predicate Distinct<T(==)>(s: seq<T>) {
    forall i, j :: 0 <= i < j < |s| ==> s[i] != s[j]
  }

  /** A sequence without repetitions has as many elements as its set. */
  lemma {:induction false} DistinctCardinality<T>(s: seq<T>)
    requires Distinct(s)
    ensures |set x | x in s| == |s|
  {
    if |s| > 0 {
      var t := s[1..];
      assert Distinct(t) by {
        forall i, j | 0 <= i < j < |t| ensures t[i] != t[j] {
          assert t[i] == s[i + 1] && t[j] == s[j + 1];
        }
      }
      DistinctCardinality(t);
      assert (set x | x in s) == (set x | x in t) + {s[0]};
      assert s[0] !in (set x | x in t);
    }
  }

  /** The map's keys are the twenty listed words, all lower-case. */
  lemma KeywordKeys()
    ensures KeywordMap.Keys == set w | w in KeywordList
    ensures forall w :: w in KeywordMap ==> forall i :: 0 <= i < |w| ==> 'a' <= w[i] <= 'z'
  {
  }

  lemma KeywordListDistinct()
    ensures Distinct(KeywordList)
  {
    assert forall i, j :: 0 <= i < j < |KeywordList| ==> KeywordList[i] != KeywordList[j];
  }

  /** There are exactly twenty reserved words. */
  lemma KeywordCount()
    ensures |KeywordMap| == 20
  {
    KeywordKeys();
    KeywordListDistinct();
    DistinctCardinality(KeywordList);
  }

  /** Distinct reserved words have distinct codes. */
  lemma KeywordCodesInjective()
    ensures forall a, b :: a in KeywordMap && b in KeywordMap && a != b ==> KeywordMap[a] != KeywordMap[b]
  {
  }

  /** No reserved word is coded as an identifier, a number, `:=` or end
      of input. */
  lemma KeywordCodeRange()
    ensures forall w :: w in KeywordMap ==> 1 <= KeywordMap[w] <= 41
    ensures forall w :: w in KeywordMap ==> KeywordMap[w] !in {IDENT, NUMBER, BECOMES, EOF}
  {
  }
}
