/** The clean-up scan and the post-scan checks of `syntax`: spaces go, letters are lower-cased,
    characters outside the formula alphabet are dropped, `\b`, `\o` and `\x` open a
    digit-restricted run, and the cleaned text is then checked for its first and last
    character, its parentheses and its adjacent operators. */
module Normalizer {
  import opened CalcErrors
  import opened Text

  /** The scan's `type`: 0 decimal, 1 binary, 2 octal, 3 hexadecimal. */
  datatype Mode = Dec | BinRun | OctRun | HexRun

  /** The characters the decimal mode keeps: `%`, `( ) * +`, `- . /`, digits, `< = >`, `^`
      and letters. */
  predicate Accepted(c: char)
  {
    c == '%' || ('(' <= c <= '+') || ('-' <= c <= '9') || ('<' <= c <= '>')
    || c == '^' || IsUpper(c) || IsLower(c)
  }

  /** The alphabet of a cleaned formula: the accepted characters, letters in lower case. */
  predicate FormulaChar(c: char)
  {
    Accepted(c) && !IsUpper(c)
  }

  predicate FormulaText(s: string)
  {
    forall k | 0 <= k < |s| :: FormulaChar(s[k])
  }

  /** The characters a digit-restricted run admits (the octal run admits `8` as well). */
  predicate RunDigit(m: Mode, c: char)
  {
    match m
    case Dec => false
    case BinRun => c == '0' || c == '1'
    case OctRun => '0' <= c <= '8'
    case HexRun => IsDigit(c) || IsUpper(c) || IsLower(c)
  }

  /** What an escape writes before its run. */
  function Prefix(m: Mode): string
  {
    match m
    case Dec => ""
    case BinRun => "bin("
    case OctRun => "oct("
    case HexRun => "hex("
  }

  /** The mode an escape letter opens (`Dec` for a letter that is no escape). */
  function EscapeMode(c: char): Mode
  {
    if c == 'b' then BinRun else if c == 'o' then OctRun else if c == 'x' then HexRun else Dec
  }

  /** The outcome of the scan: the cleaned text and the parenthesis depth `p`, or an unknown
      escape. */
  datatype CleanResult = Cleaned(text: string, depth: int) | BadEscape

  /** The scan from position `i` in mode `m`, with depth `p` and output `out` so far.
      A character a run does not admit closes the run with `)` and is looked at again in
      decimal mode. */
  function CleanFrom(t: string, i: nat, m: Mode, p: int, out: string): CleanResult
    decreases |t| - i, if m == Dec then 0 else 1
  {
    if i >= |t| then Cleaned(if m != Dec then out + ")" else out, p)
    else
      var c := t[i];
      if c == ' ' then CleanFrom(t, i + 1, m, p, out)
      else if m != Dec then
        if RunDigit(m, c) then CleanFrom(t, i + 1, m, p, out + [Lower(c)])
        else CleanFrom(t, i, Dec, p, out + ")")
      else
        var p' := if c == '(' then p + 1 else if c == ')' then p - 1 else p;
        if Accepted(c) then CleanFrom(t, i + 1, Dec, p', out + [Lower(c)])
        else if c == '\\' && i + 1 < |t| then
          if EscapeMode(t[i + 1]) != Dec then
            CleanFrom(t, i + 2, EscapeMode(t[i + 1]), p', out + Prefix(EscapeMode(t[i + 1])))
          else BadEscape
        else CleanFrom(t, i + 1, Dec, p', out)
  }

  function Clean(t: string): CleanResult
  {
    CleanFrom(t, 0, Dec, 0, "")
  }

  /** The first character of a formula must open a term: `(`, `+`, `-`, a digit or a letter. */
  predicate FirstOk(c: char)
  {
    c == '(' || c == '+' || c == '-' || IsDigit(c) || IsLower(c)
  }

  /** A formula may not end in one of these. */
  predicate TrailingBad(c: char)
  {
    IsOp(c) || c == '('
  }

  /** The operators the adjacency check looks after. */
  predicate IsOp(c: char)
  {
    c == '+' || c == '-' || c == '*' || c == '/' || c == '%' || c == '^'
    || c == '>' || c == '<' || c == '='
  }

  /** What may follow an operator: `(`, a digit or a letter. */
  predicate OperandStart(c: char)
  {
    c == '(' || IsDigit(c) || IsLower(c)
  }

  /** The two-character operators the check lets through: `>=`, `>>`, `<=`, `<>`, `<<`, `==`. */
  predicate PairOk(a: char, b: char)
  {
    (a == '>' && (b == '=' || b == '>')) || (a == '<' && (b == '=' || b == '>' || b == '<'))
    || (a == '=' && b == '=')
  }

  /** `find_last_of('(') > find_last_of(')')` on `size_t`, where "not found" is the largest
      value. */
  predicate OpenAfterClose(s: string)
  {
    var a, b := FindLastOf(s, '('), FindLastOf(s, ')');
    if a == -1 then b != -1 else b != -1 && a > b
  }

  /** The adjacency loop from position `i`. After `op-` followed by an operand start it jumps
      past the operand's first character; after an admitted pair it jumps past the pair. */
  function AdjFrom(f: string, i: nat): (e: CalcError)
    ensures e == Nada || e == Syntax || e == SynEmptyPar
    decreases |f| - i
  {
    if i + 1 >= |f| then Nada
    else if f[i] == '(' && f[i + 1] == ')' then SynEmptyPar
    else if IsOp(f[i]) then
      if i + 2 < |f| && f[i + 1] == '-' && OperandStart(f[i + 2]) then AdjFrom(f, i + 3)
      else if !OperandStart(f[i + 1]) then
        if PairOk(f[i], f[i + 1]) then AdjFrom(f, i + 2) else Syntax
      else AdjFrom(f, i + 1)
    else AdjFrom(f, i + 1)
  }

  /** The checks on a nonempty cleaned text of depth 0, in the order `syntax` makes them. */
  function PostCheck(f: string): (e: CalcError)
    requires f != ""
  {
    if !FirstOk(f[0]) then SynInvalidChar
    else if TrailingBad(f[|f| - 1]) then Syntax
    else if OpenAfterClose(f) then SynPar
    else AdjFrom(f, 0)
  }

  datatype Verdict = Accept(formula: string) | Reject(err: CalcError)

  /** The verdict of `syntax` on text whose variables are already expanded. */
  function Normalize(t: string): (v: Verdict)
    ensures v.Reject? ==> v.err != Nada
  {
    match Clean(t)
    case BadEscape => Reject(Syntax)
    case Cleaned(f, p) =>
      if p == 0 && f != "" then
        var e := PostCheck(f);
        if e == Nada then Accept(f) else Reject(e)
      else if p != 0 then Reject(SynPar)
      else Reject(Empty)
  }

  /** `Lower` on every character. */
  function LowerAll(s: string): (r: string)
    ensures |r| == |s|
  {
    if s == [] then [] else [Lower(s[0])] + LowerAll(s[1..])
  }

  /** The decimal mode's filter: accepted characters, lower-cased, everything else dropped. */
  function Filter(s: string): string
  {
    if s == [] then []
    else (if Accepted(s[0]) then [Lower(s[0])] else []) + Filter(s[1..])
  }

  lemma {:induction false} CleanFromAlphabet(t: string, i: nat, m: Mode, p: int, out: string)
    requires FormulaText(out)
    ensures CleanFrom(t, i, m, p, out).Cleaned? ==> FormulaText(CleanFrom(t, i, m, p, out).text)
    decreases |t| - i, if m == Dec then 0 else 1
  {
    if i < |t| {
      var c := t[i];
      if c == ' ' {
        CleanFromAlphabet(t, i + 1, m, p, out);
      } else if m != Dec {
        if RunDigit(m, c) {
          CleanFromAlphabet(t, i + 1, m, p, out + [Lower(c)]);
        } else {
          CleanFromAlphabet(t, i, Dec, p, out + ")");
        }
      } else {
        var p' := if c == '(' then p + 1 else if c == ')' then p - 1 else p;
        if Accepted(c) {
          CleanFromAlphabet(t, i + 1, Dec, p', out + [Lower(c)]);
        } else if c == '\\' && i + 1 < |t| {
          var m' := EscapeMode(t[i + 1]);
          if m' != Dec {
            CleanFromAlphabet(t, i + 2, m', p', out + Prefix(m'));
          }
        } else {
          CleanFromAlphabet(t, i + 1, Dec, p', out);
        }
      }
    }
  }

  /** After a successful `syntax` the formula holds no space and no upper-case letter: only
      `% ( ) * + - . / 0-9 < = > ^ a-z`. */
  lemma {:induction false} AcceptedFormulaAlphabet(t: string)
    requires Normalize(t).Accept?
    ensures FormulaText(Normalize(t).formula)
  {
    CleanFromAlphabet(t, 0, Dec, 0, "");
  }

  /** Without backslashes the scan is the filter: accepted characters are kept (lower-cased),
      every other character is dropped rather than rejected, and the depth is the number of
      `(` minus the number of `)`. */
  lemma {:induction false} CleanFromWithoutEscapes(t: string, i: nat, p: int, out: string)
    requires i <= |t| && '\\' !in t[i..]
    ensures CleanFrom(t, i, Dec, p, out)
         == Cleaned(out + Filter(t[i..]), p + Count(t[i..], '(') - Count(t[i..], ')'))
    decreases |t| - i
  {
    if i < |t| {
      var c := t[i];
      assert t[i..][0] == c && t[i..][1..] == t[i + 1..];
      var p' := if c == '(' then p + 1 else if c == ')' then p - 1 else p;
      var kept := if Accepted(c) then [Lower(c)] else [];
      assert c != '\\';
      if !Accepted(c) {
        assert out + kept == out;
      }
      assert CleanFrom(t, i, Dec, p, out) == CleanFrom(t, i + 1, Dec, p', out + kept);
      CleanFromWithoutEscapes(t, i + 1, p', out + kept);
      assert Filter(t[i..]) == kept + Filter(t[i + 1..]);
      assert out + kept + Filter(t[i + 1..]) == out + Filter(t[i..]);
      assert Count(t[i..], '(') == (if c == '(' then 1 else 0) + Count(t[i + 1..], '(');
      assert Count(t[i..], ')') == (if c == ')' then 1 else 0) + Count(t[i + 1..], ')');
    } else {
      assert t[i..] == [];
    }
  }

  lemma {:induction false} CleanWithoutEscapes(t: string)
    requires '\\' !in t
    ensures Clean(t) == Cleaned(Filter(t), Count(t, '(') - Count(t, ')'))
  {
    assert t[0..] == t;
    CleanFromWithoutEscapes(t, 0, 0, "");
  }

  /** A digit-restricted run emits its admitted characters (hex letters lower-cased) and is
      closed by `)` at the first character it does not admit, or at the end of the input. */
  lemma {:induction false} RunThenClose(t: string, k: nat, j: nat, m: Mode, p: int, out: string)
    requires m != Dec && k <= j <= |t|
    requires forall q | k <= q < j :: RunDigit(m, t[q])
    requires j == |t| || (!RunDigit(m, t[j]) && t[j] != ' ')
    ensures CleanFrom(t, k, m, p, out) == CleanFrom(t, j, Dec, p, out + LowerAll(t[k..j]) + ")")
    decreases j - k
  {
    if k < j {
      assert t[k..j][0] == t[k] && t[k..j][1..] == t[k + 1..j];
      RunThenClose(t, k + 1, j, m, p, out + [Lower(t[k])]);
      assert out + [Lower(t[k])] + LowerAll(t[k + 1..j]) == out + LowerAll(t[k..j]);
    } else {
      assert LowerAll(t[k..j]) == [];
      assert out + LowerAll(t[k..j]) + ")" == out + ")";
    }
  }

  /** `\b`, `\o` and `\x` emit `bin(`, `oct(` or `hex(`, then the run of admissible digits,
      then `)`. */
  lemma {:induction false} EscapeExpands(t: string, i: nat, j: nat, p: int, out: string)
    requires i + 2 <= j <= |t| && t[i] == '\\' && EscapeMode(t[i + 1]) != Dec
    requires forall q | i + 2 <= q < j :: RunDigit(EscapeMode(t[i + 1]), t[q])
    requires j == |t| || (!RunDigit(EscapeMode(t[i + 1]), t[j]) && t[j] != ' ')
    ensures CleanFrom(t, i, Dec, p, out)
         == CleanFrom(t, j, Dec, p, out + Prefix(EscapeMode(t[i + 1])) + LowerAll(t[i + 2..j]) + ")")
  {
    var m := EscapeMode(t[i + 1]);
    RunThenClose(t, i + 2, j, m, p, out + Prefix(m));
  }

  /** A backslash followed by anything but `b`, `o` or `x` is a syntax error. */
  lemma {:induction false} UnknownEscapeRejected(t: string, i: nat, p: int, out: string)
    requires i + 1 < |t| && t[i] == '\\' && EscapeMode(t[i + 1]) == Dec
    ensures CleanFrom(t, i, Dec, p, out) == BadEscape
  {
  }

  /** The octal run admits `8`, which the octal converter then refuses. */
  lemma {:induction false} OctalRunAdmitsEight()
    ensures Clean("\\o8") == Cleaned("oct(8)", 0)
  {
  }

  /** `syntax`'s verdicts, error by error, in terms of the cleaned text. */
  lemma {:induction false} SyntaxErrorClasses(t: string)
    ensures Clean(t) == BadEscape ==> Normalize(t) == Reject(Syntax)
    ensures Clean(t).Cleaned? && Clean(t).depth != 0 ==> Normalize(t) == Reject(SynPar)
    ensures Clean(t) == Cleaned("", 0) <==> Normalize(t) == Reject(Empty)
    ensures Clean(t).Cleaned? && Clean(t).depth == 0 && Clean(t).text != "" ==>
      var f := Clean(t).text;
      (!FirstOk(f[0]) ==> Normalize(t) == Reject(SynInvalidChar))
      && (FirstOk(f[0]) && TrailingBad(f[|f| - 1]) ==> Normalize(t) == Reject(Syntax))
      && (FirstOk(f[0]) && !TrailingBad(f[|f| - 1]) && OpenAfterClose(f) ==> Normalize(t) == Reject(SynPar))
  {
  }

  /** An accepted formula is what the scan produced, at depth 0, and passed every check. */
  lemma {:induction false} AcceptedMeansChecked(t: string)
    requires Normalize(t).Accept?
    ensures Clean(t) == Cleaned(Normalize(t).formula, 0)
    ensures var f := Normalize(t).formula;
      f != "" && FirstOk(f[0]) && !TrailingBad(f[|f| - 1]) && !OpenAfterClose(f) && AdjFrom(f, 0) == Nada
  {
  }

  /** The adjacency rule as a property of the whole text: no `()`, and every operator is
      followed by an operand start, by `-` and an operand start, or forms an admitted pair. */
  predicate WellAdjacent(f: string)
  {
    forall i | 0 <= i < |f| - 1 ::
      !(f[i] == '(' && f[i + 1] == ')')
      && (IsOp(f[i]) ==>
            OperandStart(f[i + 1])
            || (i + 2 < |f| && f[i + 1] == '-' && OperandStart(f[i + 2]))
            || PairOk(f[i], f[i + 1]))
  }

  lemma {:induction false} WellAdjacentFrom(f: string, i: nat)
    requires WellAdjacent(f)
    ensures AdjFrom(f, i) == Nada
    decreases |f| - i
  {
    if i + 1 < |f| {
      if IsOp(f[i]) && i + 2 < |f| && f[i + 1] == '-' && OperandStart(f[i + 2]) {
        WellAdjacentFrom(f, i + 3);
      } else if IsOp(f[i]) && !OperandStart(f[i + 1]) {
        WellAdjacentFrom(f, i + 2);
      } else {
        WellAdjacentFrom(f, i + 1);
      }
    }
  }

  /** A text that keeps the adjacency rule passes the adjacency check. */
  lemma {:induction false} WellAdjacentPasses(f: string)
    requires WellAdjacent(f)
    ensures AdjFrom(f, 0) == Nada
  {
    WellAdjacentFrom(f, 0);
  }

  lemma {:induction false} AdjErrorWitnessed(f: string, i: nat)
    ensures AdjFrom(f, i) == SynEmptyPar ==> exists k | i <= k < |f| - 1 :: f[k] == '(' && f[k + 1] == ')'
    ensures AdjFrom(f, i) == Syntax ==>
      exists k | i <= k < |f| - 1 :: IsOp(f[k]) && !OperandStart(f[k + 1]) && !PairOk(f[k], f[k + 1])
    decreases |f| - i
  {
    if i + 1 < |f| && !(f[i] == '(' && f[i + 1] == ')') {
      if IsOp(f[i]) && i + 2 < |f| && f[i + 1] == '-' && OperandStart(f[i + 2]) {
        AdjErrorWitnessed(f, i + 3);
      } else if IsOp(f[i]) && !OperandStart(f[i + 1]) {
        if PairOk(f[i], f[i + 1]) {
          AdjErrorWitnessed(f, i + 2);
        }
      } else {
        AdjErrorWitnessed(f, i + 1);
      }
    }
  }

  /** Every adjacency error points at an offending spot: an empty pair of parentheses, or an
      operator followed by something that opens no operand and forms no admitted pair. */
  lemma {:induction false} AdjErrorsJustified(f: string)
    ensures AdjFrom(f, 0) == SynEmptyPar ==> exists k | 0 <= k < |f| - 1 :: f[k] == '(' && f[k + 1] == ')'
    ensures AdjFrom(f, 0) == Syntax ==>
      exists k | 0 <= k < |f| - 1 :: IsOp(f[k]) && !OperandStart(f[k + 1]) && !PairOk(f[k], f[k + 1])
  {
    AdjErrorWitnessed(f, 0);
  }

  /** The jumps make the check skip characters: the one after an admitted pair and the one
      after `op-`. So "1>=*2" and "1+-()" pass although they break the rule. */
  lemma {:induction false} AdjacencySkipsCharacters()
    ensures AdjFrom("1>=*2", 0) == Nada && !WellAdjacent("1>=*2")
    ensures AdjFrom("1+-()", 0) == Nada && !WellAdjacent("1+-()")
  {
    AdjOfPairThenOperator();
    assert "1>=*2"[2] == '=' && "1>=*2"[3] == '*';
    AdjOfEmptyParentheses();
  }

  lemma {:induction false} AdjOfEmptyParentheses()
    ensures AdjFrom("1+-()", 0) == Nada && !WellAdjacent("1+-()")
  {
    assert "1+-()"[3] == '(' && "1+-()"[4] == ')';
  }

  /** `syntax` accepts an operator after a comparison pair. */
  lemma {:induction false} PairThenOperatorAccepted()
    ensures Normalize("1 >= * 2") == Accept("1>=*2")
  {
    CleanOfPairThenOperator();
    AdjOfPairThenOperator();
  }

  lemma {:induction false} CleanOfPairThenOperator()
    ensures Clean("1 >= * 2") == Cleaned("1>=*2", 0)
  {
    var t := "1 >= * 2";
    PairThenOperatorHead();
    assert CleanFrom(t, 4, Dec, 0, "1>=") == CleanFrom(t, 5, Dec, 0, "1>=");
    assert CleanFrom(t, 5, Dec, 0, "1>=") == CleanFrom(t, 6, Dec, 0, "1>=*");
    assert CleanFrom(t, 6, Dec, 0, "1>=*") == CleanFrom(t, 7, Dec, 0, "1>=*");
    assert CleanFrom(t, 7, Dec, 0, "1>=*") == CleanFrom(t, 8, Dec, 0, "1>=*2");
  }

  /** The first four characters of the example: `1`, a blank and the pair `>=`. */
  lemma {:induction false} PairThenOperatorHead()
    ensures CleanFrom("1 >= * 2", 0, Dec, 0, "") == CleanFrom("1 >= * 2", 4, Dec, 0, "1>=")
  {
    var t := "1 >= * 2";
    OneThenBlank();
    assert CleanFrom(t, 2, Dec, 0, "1") == CleanFrom(t, 3, Dec, 0, "1>");
    assert CleanFrom(t, 3, Dec, 0, "1>") == CleanFrom(t, 4, Dec, 0, "1>=");
  }

  lemma {:induction false} OneThenBlank()
    ensures CleanFrom("1 >= * 2", 0, Dec, 0, "") == CleanFrom("1 >= * 2", 2, Dec, 0, "1")
  {
    var t := "1 >= * 2";
    assert CleanFrom(t, 0, Dec, 0, "") == CleanFrom(t, 1, Dec, 0, "1");
    assert CleanFrom(t, 1, Dec, 0, "1") == CleanFrom(t, 2, Dec, 0, "1");
  }

  lemma {:induction false} AdjOfPairThenOperator()
    ensures AdjFrom("1>=*2", 0) == Nada
  {
    var f := "1>=*2";
    assert AdjFrom(f, 4) == Nada;
    assert AdjFrom(f, 3) == AdjFrom(f, 4);
    assert AdjFrom(f, 1) == AdjFrom(f, 3);
  }

  /** Text already in the formula alphabet passes the filter unchanged. */
  lemma {:induction false} FilterKeepsFormulaText(s: string)
    requires FormulaText(s)
    ensures Filter(s) == s
  {
    if s != [] {
      FilterKeepsFormulaText(s[1..]);
      assert [s[0]] + s[1..] == s;
    }
  }

  /** `syntax` on text already in the formula alphabet: the text itself is accepted when its
      parenthesis counts agree and the checks pass. Only the final depth is checked, so the
      depth may dip below zero on the way ("(1))+((2)" has equal counts). */
  lemma {:induction false} NormalizeCleanText(t: string)
    requires FormulaText(t) && t != ""
    requires Count(t, '(') == Count(t, ')') && PostCheck(t) == Nada
    ensures Normalize(t) == Accept(t)
  {
    CleanWithoutEscapes(t);
    FilterKeepsFormulaText(t);
  }
}
