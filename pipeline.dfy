/** `syntax` and `calcthis`: variables are expanded when a `;` lies past the first character,
    the text is normalized and checked, and an accepted formula is either a comparison chain
    or an arithmetic formula evaluated at level 0. */
module Pipeline {
  import opened CalcErrors
  import opened CLib
  import opened Text
  import opened Normalizer
  import opened Variables
  import opened Evaluator
  import opened Comparison

  /** What `syntax` leaves behind: `mError`, its return value and `mFormula`; or a variable
      expansion that does not end. */
  datatype Checked = Checked(err: CalcError, ok: bool, formula: string) | Hangs

  /** `syntax(raw)` with `mError` equal to `before`. A declaration error from `parse_vars` is
      kept when the formula is accepted; a rejection overwrites it. */
  function Syntax(before: CalcError, raw: string): (r: Checked)
    ensures r.Checked? && r.ok ==>
      r.formula != "" && FormulaText(r.formula) && EndsClear(r.formula)
      && FirstOk(r.formula[0]) && !OpenAfterClose(r.formula) && AdjFrom(r.formula, 0) == Nada
    ensures r.Checked? && !r.ok ==> r.formula == "" && r.err != Nada
  {
    match Declared(raw)
    case VarsHang => Hangs
    case VarsOut(text, e) => Normalized(if e != Nada then e else before, text)
  }

  /** The variable step of `syntax`: `parse_vars` runs when a `;` lies past the first
      character. */
  function Declared(raw: string): (r: VarsOut)
  {
    var found := FindLastOf(raw, ';');
    if found > 0 then ParseVars(found, raw) else VarsOut(raw, Nada)
  }

  /** The normalization step of `syntax`, run on the formula part with the error so far. */
  function Normalized(err: CalcError, text: string): (r: Checked)
    ensures r.Checked?
    ensures r.ok ==>
      r.formula != "" && FormulaText(r.formula) && EndsClear(r.formula)
      && FirstOk(r.formula[0]) && !OpenAfterClose(r.formula) && AdjFrom(r.formula, 0) == Nada
    ensures !r.ok ==> r.formula == "" && r.err != Nada
  {
    match Normalize(text)
    case Accept(f) =>
      AcceptedFormulaAlphabet(text);
      AcceptedMeansChecked(text);
      Checked(err, true, f)
    case Reject(e2) => Checked(e2, false, "")
  }

  /** Without a `;` past the first character `syntax` is the normalization alone. */
  lemma {:induction false} SyntaxWithoutVariables(before: CalcError, raw: string)
    requires FindLastOf(raw, ';') <= 0
    ensures Syntax(before, raw) == match Normalize(raw)
      case Accept(f) => Checked(before, true, f)
      case Reject(e) => Checked(e, false, "")
  {
  }

  /** A declaration section without `=` is an error that survives an accepted formula. */
  lemma {:induction false} SyntaxKeepsDeclarationError(before: CalcError, raw: string)
    requires FindLastOf(raw, ';') > 0
    requires FindLastOf(raw[..FindLastOf(raw, ';')], '=') < 1
    requires Normalize(raw[FindLastOf(raw, ';') + 1..]).Accept?
    ensures Syntax(before, raw) ==
      Checked(SyntaxVars, true, Normalize(raw[FindLastOf(raw, ';') + 1..]).formula)
  {
    NoDeclarations(FindLastOf(raw, ';'), raw);
  }

  /** The `while (check && g > 0)` loop of `calcthis` for `c`, `>` or `<`: a pair `cc` is a
      shift, and the search goes on past it. */
  function Unpaired(f: string, c: char, g: int): (r: int)
    requires g == -1 || (0 <= g < |f| && f[g] == c)
    requires f == [] || f[|f| - 1] != c
    ensures r == -1 || (g <= r < |f| && f[r] == c)
    ensures r > 0 ==> f[r + 1] != c
    decreases if g < 0 then 0 else |f| + 1 - g
  {
    if g > 0 && f[g + 1] == c then Unpaired(f, c, FindFirstOf(f, {c}, g + 2)) else g
  }

  /** `calcthis`'s choice: a `=` past the first character, or a `>` or `<` past it that is not
      part of a shift, makes the formula a comparison. */
  predicate IsComparison(f: string)
    requires EndsClear(f)
  {
    FindChar(f, '=') > 0 || Unpaired(f, '>', FindChar(f, '>')) > 0
    || Unpaired(f, '<', FindChar(f, '<')) > 0
  }

  /** A formula without `<`, `>` or `=` is arithmetic. */
  lemma {:induction false} PlainIsArithmetic(f: string)
    requires forall k | 0 <= k < |f| :: f[k] !in CmpChars
    ensures EndsClear(f) && !IsComparison(f)
  {
    assert '=' !in f && '>' !in f && '<' !in f by {
      forall k | 0 <= k < |f| ensures f[k] != '=' && f[k] != '>' && f[k] != '<' {
        assert f[k] !in CmpChars;
      }
    }
  }

  /** A shift is not a comparison; a single `<` is. */
  lemma {:induction false} ShiftIsNotComparison()
    ensures EndsClear("1<<2") && !IsComparison("1<<2")
    ensures EndsClear("1<2") && IsComparison("1<2")
  {
    assert FindChar("1<<2", '=') == -1 && FindChar("1<<2", '>') == -1;
    assert FindChar("1<<2", '<') == 1;
    assert FindFirstOf("1<<2", {'<'}, 3) == -1;
    assert FindChar("1<2", '<') == 1;
  }

  /** The part of the calculator's state `calcthis` reads and writes. `compare` and `compRes`
      are the contents of the fixed arrays `mCompare` and `mCompRes`: the entries a comparison
      writes, followed by whatever earlier comparisons left beyond them. */
  datatype Session = Session(
    m: Machine, result: real, formula: string, isCompare: bool,
    list: seq<string>, compRes: seq<real>, compare: seq<bool>, output: string)

  /** Entries written over the front of a fixed array: the array keeps its length, and the
      entries past the written ones stay as they were. */
  function Overwrite<T>(kept: seq<T>, front: seq<T>): (r: seq<T>)
    ensures |r| == |kept|
    ensures forall k | 0 <= k < |kept| :: r[k] == if k < |front| then front[k] else kept[k]
  {
    if |front| >= |kept| then front[..|kept|] else front + kept[|front|..]
  }

  /** An array whose front holds `front` and whose other entries are those of `kept`. */
  lemma {:induction false} OverwriteFront<T>(kept: seq<T>, front: seq<T>, r: seq<T>)
    requires |front| <= |kept| == |r|
    requires r == front + kept[|front|..]
    ensures r == Overwrite(kept, front)
  {
  }

  /** One more entry written over the front of an array. */
  lemma {:induction false} OverwriteNext<T>(front: seq<T>, kept: seq<T>, i: nat, before: seq<T>,
                                            after: seq<T>)
    requires i < |front| <= |kept| && before == front[..i] + kept[i..]
    requires after == before[i := front[i]]
    ensures after == front[..i + 1] + kept[i + 1..]
  {
    assert |after| == |front[..i + 1] + kept[i + 1..]|;
    forall k | 0 <= k < |after| ensures after[k] == (front[..i + 1] + kept[i + 1..])[k] {
      if k < i {
        assert after[k] == before[k] == front[k];
      }
    }
  }

  /** A new object before its constructor runs `calcthis`: no error, result 0, empty
      formula, list and output, and the process's `errno`. The fixed arrays are not
      initialised by the source; here they hold 0 and false. */
  function Fresh(errno: Errno): (s: Session)
    ensures s.m.err == Nada && s.m.errno == errno && !s.m.exhausted
    ensures |s.compRes| == MaxComparisons + 1 && |s.compare| == MaxComparisons
  {
    Session(Machine(Nada, errno, false), 0.0, "", false, [], seq(MaxComparisons + 1, _ => 0.0),
            seq(MaxComparisons, _ => false), "")
  }

  /** `calcthis(raw)`. `mError`, `mFormula`, `mResult` and `mIsCompare` are reset; a formula
      `syntax` accepts is compared or calculated with the recursion budget `MaxDepth`. */
  function CalcThis(lib: Lib, s: Session, raw: string): (r: Session)
    ensures s.m.errno != NoErrno ==> r.m.errno != NoErrno
    ensures r.formula == "" || (FormulaText(r.formula) && EndsClear(r.formula))
    ensures |r.compRes| == |s.compRes| && |r.compare| == |s.compare|
    ensures !r.isCompare ==> r.list == s.list && r.output == s.output && r.compare == s.compare
  {
    var s0 := s.(m := s.m.(err := Nada), formula := "", result := 0.0, isCompare := false);
    match Syntax(Nada, raw)
    case Hangs => s0.(m := s0.m.(exhausted := true))
    case Checked(err, ok, f) =>
      if !ok then s0.(m := s0.m.(err := err))
      else Dispatch(lib, s0.(m := s0.m.(err := err), formula := f))
  }

  /** The end of `calcthis` once `syntax` accepted the formula in `s.formula`: a comparison
      goes to `checkandcompare`, anything else to `calculate(formula, 0, 0)`. */
  function Dispatch(lib: Lib, s: Session): (r: Session)
    requires EndsClear(s.formula)
    ensures s.m.errno != NoErrno ==> r.m.errno != NoErrno
    ensures r.formula == s.formula
    ensures |r.compRes| == |s.compRes| && |r.compare| == |s.compare|
    ensures !r.isCompare ==> r.list == s.list && r.output == s.output && r.compare == s.compare
  {
    if IsComparison(s.formula) then
      var stale := |s.compare| > 0 && s.compare[0];
      var c := CheckAndCompare(lib, s.m, s.formula, stale, MaxDepth);
      Session(c.m, c.result, s.formula, true, c.list, Overwrite(s.compRes, c.compRes),
              Overwrite(s.compare, c.verdicts), c.output)
    else
      var e := Calculate(lib, s.m, s.formula, 0, 0, MaxDepth);
      s.(m := e.m, result := e.value)
  }

  /** A formula `syntax` rejects leaves no formula and the error; `result_d` then gives 0. */
  lemma {:induction false} RejectedFormula(lib: Lib, s: Session, raw: string)
    requires Syntax(Nada, raw).Checked? && !Syntax(Nada, raw).ok
    ensures var r := CalcThis(lib, s, raw);
      r.formula == "" && r.m.err == Syntax(Nada, raw).err && r.m.err != Nada
      && r.result == 0.0 && !r.isCompare
  {
  }

  /** An arithmetic formula's result is `calculate(formula, 0, 0)` on the accepted formula. */
  lemma {:induction false} ArithmeticFormula(lib: Lib, s: Session, raw: string)
    requires Syntax(Nada, raw).Checked? && Syntax(Nada, raw).ok
    requires !IsComparison(Syntax(Nada, raw).formula)
    ensures var r := CalcThis(lib, s, raw);
      var m1 := s.m.(err := Syntax(Nada, raw).err);
      r.formula == Syntax(Nada, raw).formula && !r.isCompare
      && Eval(r.m, r.result) == Calculate(lib, m1, r.formula, 0, 0, MaxDepth)
  {
  }

  /** Every comparator holds between the values on either side of it. */
  predicate ChainHolds(cmps: seq<Cmp>, vals: seq<real>)
    requires |vals| > |cmps|
  {
    forall i | 0 <= i < |cmps| :: Holds(cmps[i], vals[i], vals[i + 1])
  }

  lemma {:induction false} ChainPrefix(cmps: seq<Cmp>, a: seq<real>, b: seq<real>)
    requires |a| > |cmps| && |b| >= |a| && b[..|a|] == a
    ensures ChainHolds(cmps, a) <==> ChainHolds(cmps, b)
  {
    forall i | 0 <= i <= |cmps| ensures a[i] == b[i] {
      assert b[..|a|][i] == b[i];
    }
  }

  /** A comparison's result is 1 exactly when every adjacent pair of pieces satisfies its
      comparator. */
  lemma {:induction false} ComparisonFormula(lib: Lib, s: Session, raw: string)
    requires Syntax(Nada, raw).Checked? && Syntax(Nada, raw).ok
    requires IsComparison(Syntax(Nada, raw).formula)
    requires 1 <= |Split(Syntax(Nada, raw).formula).cmps| < |s.compRes|
    ensures var r := CalcThis(lib, s, raw);
      var parts := Split(r.formula);
      r.isCompare && r.list == parts.operands
      && Join(r.list, parts.cmps) == r.formula
      && (r.result == 1.0 <==> ChainHolds(parts.cmps, r.compRes))
  {
    var f, err := Syntax(Nada, raw).formula, Syntax(Nada, raw).err;
    var stale := |s.compare| > 0 && s.compare[0];
    var c := CheckAndCompare(lib, s.m.(err := err), f, stale, MaxDepth);
    CompareVerdicts(lib, s.m.(err := err), f, stale, c);
    var r := CompareSession(lib, s, raw, f, err, stale, c);
    SplitJoins(f);
    ChainPrefix(Split(f).cmps, c.compRes, r.compRes);
  }

  /** The session a comparison leaves. */
  lemma {:induction false} CompareSession(lib: Lib, s: Session, raw: string, f: string, err: CalcError,
                       stale: bool, c: Compared) returns (r: Session)
    requires Syntax(Nada, raw) == Checked(err, true, f) && IsComparison(f)
    requires stale == (|s.compare| > 0 && s.compare[0])
    requires c == CheckAndCompare(lib, s.m.(err := err), f, stale, MaxDepth)
    requires |c.compRes| <= |s.compRes|
    ensures r == CalcThis(lib, s, raw)
    ensures r.isCompare && r.formula == f && r.list == c.list && r.result == c.result
    ensures r.compRes[..|c.compRes|] == c.compRes
  {
    r := CalcThis(lib, s, raw);
  }

  /** What `checkandcompare` computes, spelled out on the split of the formula. */
  lemma {:induction false} CompareVerdicts(lib: Lib, m: Machine, f: string, stale: bool, c: Compared)
    requires EndsClear(f) && c == CheckAndCompare(lib, m, f, stale, MaxDepth)
    requires |Split(f).cmps| >= 1
    ensures c.list == Split(f).operands && |c.compRes| == |Split(f).cmps| + 1
    ensures c.result == 1.0 <==> ChainHolds(Split(f).cmps, c.compRes)
  {
    var parts := Split(f);
    var ev := EvalPieces(lib, m, parts.operands, MaxDepth);
    assert c.compRes == ev.vals && c.verdicts == Verdicts(ev.vals, parts.cmps);
  }
}
