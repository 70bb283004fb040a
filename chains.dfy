/** What `calculate` does with the simplest formulas it splits: numerals joined by operators
    of one level. At level 0 every `+` or `-` makes a slot, at level 1 every `*`, at level 3
    every `^`, and the slots are folded from left to right, so `8-2-1` is `(8-2)-1`. */
module Chains {
  import opened CLib
  import opened Text
  import opened Lexicon
  import opened Evaluator

  /** A nonempty run of decimal digits. */
  predicate IsNumeral(t: string)
  {
    |t| > 0 && forall k | 0 <= k < |t| :: IsDigit(t[k])
  }

  predicate Additive(c: char)
  {
    c == '+' || c == '-'
  }

  /** An operator that level 0 does not split on and that is not a shift: `*`, `/`, `%` or
      `^`. */
  predicate Tight(c: char)
  {
    c == '*' || c == '/' || c == '%' || c == '^'
  }

  /** An operator that makes a slot at `level` and never stops the fold: `+` and `-` at
      level 0, `*` at level 1, `^` at level 3. Division and modulo, the operators of level 2,
      stop on a zero divisor and are left out. */
  predicate OfLevel(level: int, c: char)
  {
    0 <= level <= 3 && !Joins(level, c) && !IsDivision(c)
  }

  /** The operators of levels 0 and 1 are `+`, `-` and `*`. */
  lemma {:induction false} LowLevels(level: int, c: char)
    ensures OfLevel(0, c) <==> Additive(c)
    ensures OfLevel(1, c) <==> c == '*'
  {
  }

  /** `ts[0] cs[0] ts[1] ... ts[n]`. */
  function Chain(ts: seq<string>, cs: seq<char>): string
    requires |ts| == |cs| + 1
    decreases |cs|
  {
    if cs == [] then ts[0] else ts[0] + [cs[0]] + Chain(ts[1..], cs[1..])
  }

  /** The values `strtod` reads from the terms. */
  function Values(lib: Lib, ts: seq<string>): (vs: seq<real>)
    ensures |vs| == |ts|
  {
    seq(|ts|, q requires 0 <= q < |ts| => lib.strtod(ts[q]).value)
  }

  /** The arithmetic left fold `((v c0 w0) c1 w1) ...` of additions and subtractions. */
  function Summed(v: real, cs: seq<char>, ws: seq<real>): real
    requires |cs| == |ws|
    decreases |ws|
  {
    if ws == [] then v
    else
      var n := |ws| - 1;
      var acc := Summed(v, cs[..n], ws[..n]);
      if cs[n] == '+' then acc + ws[n] else acc - ws[n]
  }

  /** The product `((v * w0) * w1) ...`. */
  function Multiplied(v: real, ws: seq<real>): real
    decreases |ws|
  {
    if ws == [] then v else Multiplied(v, ws[..|ws| - 1]) * ws[|ws| - 1]
  }

  /** A fold of additions and subtractions never stops, and computes the arithmetic sum. */
  lemma {:induction false} AdditiveFold(lib: Lib, v: real, cs: seq<char>, ws: seq<real>)
    requires |cs| == |ws| && forall q | 0 <= q < |cs| :: Additive(cs[q])
    ensures LeftFold(lib, v, cs, ws) == Done(Summed(v, cs, ws))
    decreases |ws|
  {
    if ws != [] {
      var n := |ws| - 1;
      AdditiveFold(lib, v, cs[..n], ws[..n]);
    }
  }

  /** A fold of multiplications never stops, and computes the product. */
  lemma {:induction false} ProductFold(lib: Lib, v: real, cs: seq<char>, ws: seq<real>)
    requires |cs| == |ws| && forall q | 0 <= q < |cs| :: cs[q] == '*'
    ensures LeftFold(lib, v, cs, ws) == Done(Multiplied(v, ws))
    decreases |ws|
  {
    if ws != [] {
      var n := |ws| - 1;
      ProductFold(lib, v, cs[..n], ws[..n]);
    }
  }

  /** A fold over operators of one level never stops. */
  lemma {:induction false} LevelFoldDone(lib: Lib, level: int, v: real, cs: seq<char>,
                                         ws: seq<real>)
    requires |cs| == |ws| && forall q | 0 <= q < |cs| :: OfLevel(level, cs[q])
    ensures LeftFold(lib, v, cs, ws).Done?
    decreases |ws|
  {
    if ws != [] {
      var n := |ws| - 1;
      LevelFoldDone(lib, level, v, cs[..n], ws[..n]);
    }
  }

  /** No function name starts with a digit. */
  lemma {:induction false} LeadingDigitNotFunc(t: string)
    requires |t| > 0 && IsDigit(t[0])
    ensures IsFunc(t) == 0
  {
    assert forall k | 0 <= k < |FuncNames| :: |FuncNames[k]| > 0 && !IsDigit(FuncNames[k][0]);
  }

  /** No function name is a numeral. */
  lemma {:induction false} NumeralNotFunc(t: string)
    requires IsNumeral(t)
    ensures IsFunc(t) == 0
  {
    LeadingDigitNotFunc(t);
  }

  /** A numeral is a leaf read by `strtod`; with no function number it is left as read. */
  lemma {:induction false} NumeralLeaf(lib: Lib, m: Machine, t: string, level: int, f: int, fuel: nat)
    requires IsNumeral(t) && fuel > 0 && f <= 0
    ensures Evaluated(lib, m, t, level, f, fuel) == lib.strtod(t).value
  {
    SkipPlain(t, 0, |t|, false);
    assert t != "e" by {
      assert IsDigit(t[0]);
    }
  }

  /** Digits outside parentheses only grow the current term. */
  lemma {:induction false} ScanDigits(f: string, level: int, st: Scan, i: nat, j: nat)
    requires i <= j <= |f| && forall k | i <= k < j :: IsDigit(f[k])
    requires st.o < 999 && st.p == 0
    ensures Scanned(f, level, st, i) == Scanned(f, level, st.(s := st.s + f[i..j]), j)
    decreases j - i
  {
    if i < j {
      var c := f[i];
      var st1 := st.(s := st.s + [c]);
      calc {
        ScanFrom(f, level, st, i);
        { DigitStep(f, level, st, i); }
        ScanFrom(f, level, st1, i + 1);
        { ScanDigits(f, level, st1, i + 1, j); }
        ScanFrom(f, level, st1.(s := st1.s + f[i + 1..j]), j);
        { assert st1.s + f[i + 1..j] == st.s + f[i..j]; }
        ScanFrom(f, level, st.(s := st.s + f[i..j]), j);
      }
    } else {
      assert st.s + f[i..j] == st.s;
    }
  }

  /** A digit outside parentheses is appended to the current term. */
  lemma {:induction false} DigitStep(f: string, level: int, st: Scan, i: nat)
    requires i < |f| && IsDigit(f[i]) && st.o < 999 && st.p == 0
    ensures Scanned(f, level, st, i) == Scanned(f, level, st.(s := st.s + [f[i]]), i + 1)
  {
    assert Lex(f, st, i) == Lexed(st.(s := st.s + [f[i]]), false, i + 1);
    ScanOne(f, level, st, i);
  }

  /** A scanner state between two terms of a chain at `level`. */
  predicate Between(level: int, st: Scan)
  {
    st.s == [] && st.p == 0 && !st.neg && st.o >= 0 && st.op >= 0
    && (st.op > 0 ==> OfLevel(level, At(st.oper, st.op - 1, Nul)))
  }

  /** The state after term `t` has been recorded in slot `o`. */
  function Recorded(st: Scan, t: string): Scan
  {
    st.(operations := st.operations[st.o := t], o := st.o + 1, s := "", neg := false)
  }

  /** One iteration of the scanning loop. */
  lemma {:induction false} ScanOne(f: string, level: int, st: Scan, i: nat)
    requires i < |f|
    ensures var l := Lex(f, st, i);
      Scanned(f, level, st, i)
      == Scanned(f, level, if l.record then Record(level, l.st, f[i]) else l.st, l.next)
  {
  }

  /** Recording a term that starts with a digit and follows an operator of `level` (or
      starts the formula). */
  lemma {:induction false} RecordNumeral(level: int, st: Scan, t: string, c: char)
    requires |t| > 0 && IsDigit(t[0]) && st.s == t
    requires st.op > 0 ==> OfLevel(level, At(st.oper, st.op - 1, Nul))
    ensures Record(level, st, c) == Recorded(st, t)
  {
    LeadingDigitNotFunc(t);
  }

  /** The end of the input records the last term and flags its slot `level + 1`. */
  lemma {:induction false} ChainEnd(f: string, level: int, st: Scan, i: nat, t: string)
    requires i <= |f| && f[i..] == t && IsNumeral(t)
    requires Between(level, st) && st.o < 999
    ensures Scanned(f, level, st, i) == Recorded(st.(flags := st.flags[st.o := level + 1]), t)
  {
    assert forall k | i <= k < |f| :: f[k] == t[k - i];
    ScanDigits(f, level, st, i, |f|);
    assert st.s + f[i..|f|] == t;
    var st2 := st.(s := t, flags := st.flags[st.o := level + 1]);
    RecordNumeral(level, st2, t, Nul);
  }

  /** An operator of the level right after a digit is an operator, not a sign. */
  lemma {:induction false} LexOperator(f: string, level: int, st: Scan, j: nat, c: char)
    requires 0 < j < |f| && f[j] == c && OfLevel(level, c) && IsDigit(f[j - 1])
    requires st.s != [] && IsDigit(st.s[|st.s| - 1]) && st.p == 0 && st.o < 999
    requires st.op > 0 ==> OfLevel(level, At(st.oper, st.op - 1, Nul))
    ensures Lex(f, st, j) == Lexed(PushOp(st, c), true, j + 1)
  {
  }

  /** Recording a numeral term `t` read after the operators of `st`, once `c` is pushed. */
  lemma {:induction false} RecordTerm(level: int, st: Scan, t: string, c: char)
    requires IsNumeral(t) && OfLevel(level, c) && Between(level, st)
    ensures Record(level, PushOp(st.(s := t), c), c) == Recorded(PushOp(st, c), t)
  {
    RecordNumeral(level, PushOp(st.(s := t), c), t, c);
  }

  /** The operator after a numeral term pushes the operator and records the term; `st1` is
      `st` holding the term. */
  lemma {:induction false} OperatorStep(f: string, level: int, st: Scan, st1: Scan, j: nat, t: string, c: char)
    requires 0 < j < |f| && f[j] == c && OfLevel(level, c) && IsDigit(f[j - 1])
    requires IsNumeral(t) && Between(level, st) && st.o < 999 && st1 == st.(s := t)
    ensures Scanned(f, level, st1, j) == Scanned(f, level, Recorded(PushOp(st, c), t), j + 1)
  {
    LexOperator(f, level, st1, j, c);
    ScanOne(f, level, st1, j);
    RecordTerm(level, st, t, c);
  }

  /** A term followed by an operator of the level is recorded in slot `o` and the operator in
      `oper[op]`. */
  lemma {:induction false} ChainStep(f: string, level: int, st: Scan, i: nat, t: string, c: char)
    requires i + |t| < |f| && f[i..i + |t|] == t && f[i + |t|] == c
    requires IsNumeral(t) && OfLevel(level, c) && Between(level, st) && st.o < 999
    ensures Scanned(f, level, st, i) == Scanned(f, level, Recorded(PushOp(st, c), t), i + |t| + 1)
  {
    NumeralAt(f, i, t, st);
    TermDigits(f, level, st, i, t);
    OperatorStep(f, level, st, st.(s := t), i + |t|, t, c);
  }

  /** The digits of a term are gathered into `s`. */
  lemma {:induction false} TermDigits(f: string, level: int, st: Scan, i: nat, t: string)
    requires i + |t| <= |f| && f[i..i + |t|] == t && IsNumeral(t)
    requires st.s == [] && st.p == 0 && st.o < 999
    ensures Scanned(f, level, st, i) == Scanned(f, level, st.(s := t), i + |t|)
  {
    NumeralAt(f, i, t, st);
    ScanDigits(f, level, st, i, i + |t|);
  }

  /** The characters of a numeral `t` found at `i` in `f` are digits, and appending them to an
      empty term gives `t`. */
  lemma {:induction false} NumeralAt(f: string, i: nat, t: string, st: Scan)
    requires i + |t| <= |f| && f[i..i + |t|] == t && IsNumeral(t) && st.s == []
    ensures forall k | i <= k < i + |t| :: IsDigit(f[k])
    ensures st.(s := st.s + f[i..i + |t|]) == st.(s := t)
    ensures 0 < i + |t| && IsDigit(f[i + |t| - 1])
  {
    assert forall k | i <= k < i + |t| :: f[k] == t[k - i];
    assert st.s + f[i..i + |t|] == t;
  }

  /** The scan of `f` from position `i`; a name of its own keeps the proofs about chains from
      unfolding the scanner more than once. */
  ghost function Scanned(f: string, level: int, st: Scan, i: nat): Scan
  {
    ScanFrom(f, level, st, i)
  }

  /** `r` holds term q in slot `st.o + q` and operator q in `oper[st.op + q]`, and the
      slots before them as `st` had them. */
  ghost predicate ChainScanned(st: Scan, r: Scan, ts: seq<string>, cs: seq<char>)
  {
    r.o == st.o + |ts| && r.op == st.op + |cs| && r.isf == st.isf
    && (forall q | 0 <= q < |ts| :: At(r.operations, st.o + q, "") == ts[q])
    && (forall q | 0 <= q < |cs| :: At(r.oper, st.op + q, Nul) == cs[q])
    && (forall k | k < st.o :: At(r.operations, k, "") == At(st.operations, k, ""))
    && (forall k | k < st.op :: At(r.oper, k, Nul) == At(st.oper, k, Nul))
  }

  lemma {:induction false} ChainScannedStep(st: Scan, t: string, c: char, r: Scan, ts: seq<string>, cs: seq<char>)
    requires |ts| == |cs| + 1 && |cs| >= 1 && ts[0] == t && cs[0] == c
    requires ChainScanned(Recorded(PushOp(st, c), t), r, ts[1..], cs[1..])
    ensures ChainScanned(st, r, ts, cs)
  {
    var st3 := Recorded(PushOp(st, c), t);
    assert At(st3.operations, st.o, "") == t && At(st3.oper, st.op, Nul) == c;
    forall q | 0 <= q < |ts|
      ensures At(r.operations, st.o + q, "") == ts[q]
    {
      if q > 0 {
        assert At(r.operations, st3.o + (q - 1), "") == ts[1..][q - 1];
      }
    }
    forall q | 0 <= q < |cs|
      ensures At(r.oper, st.op + q, Nul) == cs[q]
    {
      if q > 0 {
        assert At(r.oper, st3.op + (q - 1), Nul) == cs[1..][q - 1];
      }
    }
  }

  lemma {:induction false} ChainScannedEnd(st: Scan, level: int, t: string, r: Scan)
    requires r == Recorded(st.(flags := st.flags[st.o := level + 1]), t)
    ensures ChainScanned(st, r, [t], [])
  {
  }

  /** Where the first term, the first operator and the rest of a chain lie in `f`. */
  lemma {:induction false} ChainHead(f: string, i: nat, ts: seq<string>, cs: seq<char>)
    requires |ts| == |cs| + 1 && |cs| >= 1 && i <= |f| && f[i..] == Chain(ts, cs)
    ensures i + |ts[0]| < |f| && f[i..i + |ts[0]|] == ts[0] && f[i + |ts[0]|] == cs[0]
    ensures f[i + |ts[0]| + 1..] == Chain(ts[1..], cs[1..])
  {
    var t := ts[0];
    var j := i + |t|;
    assert f[i..] == t + [cs[0]] + Chain(ts[1..], cs[1..]);
    assert f[i..][..|t|] == t;
    assert f[i..][|t|] == cs[0];
    assert f[i..][|t| + 1..] == Chain(ts[1..], cs[1..]);
  }

  lemma {:induction false} BetweenAfter(level: int, st: Scan, t: string, c: char)
    requires Between(level, st) && OfLevel(level, c)
    ensures Between(level, Recorded(PushOp(st, c), t))
  {
  }

  /** Numerals `ts` joined by the operators `cs` of `level`. */
  predicate ChainOf(level: int, ts: seq<string>, cs: seq<char>)
  {
    |ts| == |cs| + 1
    && (forall q | 0 <= q < |ts| :: IsNumeral(ts[q]))
    && (forall q | 0 <= q < |cs| :: OfLevel(level, cs[q]))
  }

  /** After the first term and operator, the rest of a chain is a chain, and the scanner
      stands between two terms right after them. */
  lemma {:induction false} ChainRest(f: string, level: int, st: Scan, i: nat, ts: seq<string>,
                                     cs: seq<char>)
    requires ChainOf(level, ts, cs) && |cs| >= 1 && i <= |f| && f[i..] == Chain(ts, cs)
    requires Between(level, st)
    ensures IsNumeral(ts[0]) && OfLevel(level, cs[0]) && ChainOf(level, ts[1..], cs[1..])
    ensures i + |ts[0]| < |f| && f[i..i + |ts[0]|] == ts[0] && f[i + |ts[0]|] == cs[0]
    ensures f[i + |ts[0]| + 1..] == Chain(ts[1..], cs[1..])
    ensures Between(level, Recorded(PushOp(st, cs[0]), ts[0]))
  {
    ChainOfTail(level, ts, cs);
    ChainHead(f, i, ts, cs);
    BetweenAfter(level, st, ts[0], cs[0]);
  }

  lemma {:induction false} ChainOfTail(level: int, ts: seq<string>, cs: seq<char>)
    requires ChainOf(level, ts, cs) && |cs| >= 1
    ensures IsNumeral(ts[0]) && OfLevel(level, cs[0]) && ChainOf(level, ts[1..], cs[1..])
  {
    assert forall q | 0 <= q < |ts| - 1 :: ts[1..][q] == ts[q + 1];
    assert forall q | 0 <= q < |cs| - 1 :: cs[1..][q] == cs[q + 1];
  }

  /** Scanning a chain at its level puts term q in slot `o + q` and operator q in
      `oper[op + q]`, leaves the slots before them alone, and recognises no function. */
  lemma {:induction false} ScanChain(f: string, level: int, st: Scan, i: nat, ts: seq<string>,
                                     cs: seq<char>)
    requires ChainOf(level, ts, cs) && i <= |f| && f[i..] == Chain(ts, cs)
    requires Between(level, st) && st.o + |ts| <= 999
    ensures ChainScanned(st, Scanned(f, level, st, i), ts, cs)
    decreases |cs|
  {
    if cs == [] {
      assert IsNumeral(ts[0]) && ts == [ts[0]];
      ChainEnd(f, level, st, i, ts[0]);
      ChainScannedEnd(st, level, ts[0], Scanned(f, level, st, i));
    } else {
      ChainRest(f, level, st, i, ts, cs);
      var st3 := Recorded(PushOp(st, cs[0]), ts[0]);
      var j := i + |ts[0]| + 1;
      ScanChain(f, level, st3, j, ts[1..], cs[1..]);
      ChainStep(f, level, st, i, ts[0], cs[0]);
      ChainScannedStep(st, ts[0], cs[0], Scanned(f, level, st3, j), ts, cs);
    }
  }

  /** What the fold needs of the slots of a scanned chain: numerals in every slot, operators
      of the level between them, no function in the slots after the first. */
  predicate FoldableChain(level: int, sc: Scan, ts: seq<string>)
  {
    sc.o == |ts| && sc.op == |ts| - 1
    && (forall q | 0 <= q < |ts| :: IsNumeral(ts[q]) && At(sc.operations, q, "") == ts[q])
    && (forall q | 0 <= q < |ts| - 1 :: OfLevel(level, At(sc.oper, q, Nul)))
    && (forall q | 1 <= q < |ts| :: At(sc.isf, q, 0) <= 0)
  }

  /** One slot of a scanned chain: its numeral is read by `strtod`, and the fold goes on with
      the next slot. */
  lemma {:induction false} FoldChainStep(lib: Lib, level: int, m: Machine, sc: Scan, res: real,
                                         i: int, fuel: nat, ts: seq<string>)
      returns (m': Machine, res': real)
    requires fuel > 1 && 1 <= i < |ts| && FoldableChain(level, sc, ts)
    ensures Fold(lib, m, sc, res, i, i - 1, fuel).operands
      == [lib.strtod(ts[i]).value] + Fold(lib, m', sc, res', i + 1, i, fuel).operands
  {
    var t := ts[i];
    assert IsNumeral(t) && At(sc.operations, i, "") == t;
    assert OfLevel(level, At(sc.oper, i - 1, Nul)) && At(sc.isf, i, 0) <= 0;
    NumeralLeaf(lib, m, t, At(sc.flags, i, 0), At(sc.isf, i, 0), fuel - 1);
    var e := Calculate(lib, m, t, At(sc.flags, i, 0), At(sc.isf, i, 0), fuel - 1);
    var step := Combine(lib, res, At(sc.oper, i - 1, Nul), e.value);
    FoldNext(lib, m, sc, res, i, i - 1, fuel, e, step.value, step.errno);
    m', res' := e.m.(errno := Sticky(e.m.errno, step.errno)), step.value;
  }

  /** The fold over the slots of a scanned chain evaluates the terms with `strtod`, in order. */
  lemma {:induction false} FoldChain(lib: Lib, level: int, m: Machine, sc: Scan, res: real,
                                     i: int, fuel: nat, ts: seq<string>)
    requires fuel > 1 && 1 <= i <= |ts| && FoldableChain(level, sc, ts)
    ensures Fold(lib, m, sc, res, i, i - 1, fuel).operands == Values(lib, ts)[i..]
    decreases |ts| - i
  {
    var vs := Values(lib, ts);
    if i < |ts| {
      var m', res' := FoldChainStep(lib, level, m, sc, res, i, fuel, ts);
      FoldChain(lib, level, m', sc, res', i + 1, fuel, ts);
      ConsTail(vs, i, lib.strtod(ts[i]).value, Fold(lib, m, sc, res, i, i - 1, fuel).operands,
               Fold(lib, m', sc, res', i + 1, i, fuel).operands);
    } else {
      assert vs[i..] == [];
    }
  }

  lemma {:induction false} ConsTail<T>(vs: seq<T>, i: nat, x: T, all: seq<T>, rest: seq<T>)
    requires i < |vs| && vs[i] == x && rest == vs[i + 1..] && all == [x] + rest
    ensures all == vs[i..]
  {
  }

  /** Digits followed by an operator of some level are not a number by themselves. */
  lemma {:induction false} LeadingTermNotNumber(t: string, c: char, rest: string)
    requires IsNumeral(t) && (Additive(c) || Tight(c))
    ensures !ValidNum(t + [c] + rest)
  {
    var ops := "+-*/%^()<>=";
    assert c in ops by {
      if c == '+' { assert ops[0] == c; }
      else if c == '-' { assert ops[1] == c; }
      else if c == '*' { assert ops[2] == c; }
      else if c == '/' { assert ops[3] == c; }
      else if c == '%' { assert ops[4] == c; }
      else { assert ops[5] == c; }
    }
    OperatorSplitsNumber(t, c, rest);
  }

  /** A chain of at least two terms is not a number by itself. */
  lemma {:induction false} ChainNotNumber(level: int, ts: seq<string>, cs: seq<char>)
    requires |ts| == |cs| + 1 && 1 <= |cs| && IsNumeral(ts[0]) && OfLevel(level, cs[0])
    ensures !ValidNum(Chain(ts, cs))
  {
    var rest := Chain(ts[1..], cs[1..]);
    assert Chain(ts, cs) == ts[0] + [cs[0]] + rest;
    LeadingTermNotNumber(ts[0], cs[0], rest);
  }

  /** The slots and operators of a scanned chain, read from the start state. */
  predicate ChainSlots(sc: Scan, ts: seq<string>, cs: seq<char>)
    requires |ts| == |cs| + 1
  {
    sc.o == |ts| && sc.op == |cs| && sc.isf == Start.isf
    && (forall q | 0 <= q < |ts| :: At(sc.operations, q, "") == ts[q])
    && (forall q | 0 <= q < |cs| :: At(sc.oper, q, Nul) == cs[q])
  }

  lemma {:induction false} ScannedFromStart(sc: Scan, ts: seq<string>, cs: seq<char>)
    requires |ts| == |cs| + 1 && ChainScanned(Start, sc, ts, cs)
    ensures ChainSlots(sc, ts, cs)
  {
    forall q | 0 <= q < |ts|
      ensures At(sc.operations, q, "") == ts[q]
    {
      assert At(sc.operations, Start.o + q, "") == ts[q];
    }
    forall q | 0 <= q < |cs|
      ensures At(sc.oper, q, Nul) == cs[q]
    {
      assert At(sc.oper, Start.op + q, Nul) == cs[q];
    }
  }

  /** The scan of a whole chain from the start state. */
  lemma {:induction false} ScanWholeChain(level: int, ts: seq<string>, cs: seq<char>)
    requires ChainOf(level, ts, cs) && |ts| <= 999
    ensures ChainSlots(Scanned(Chain(ts, cs), level, Start, 0), ts, cs)
  {
    var f := Chain(ts, cs);
    assert f[0..] == f;
    ScanChain(f, level, Start, 0, ts, cs);
    ScannedFromStart(Scanned(f, level, Start, 0), ts, cs);
  }

  /** `calculate(f, level, 0)` on a formula that is not a number, at a level that scans:
      evaluate slot 0, then fold the others onto it. */
  lemma {:induction false} CalculateSplits(lib: Lib, m: Machine, f: string, level: int, fuel: nat)
    requires !ValidNum(f) && level <= 4 && fuel > 0
    ensures var sc := Scanned(f, level, Start, 0);
      var first := Calculate(lib, m, At(sc.operations, 0, ""), At(sc.flags, 0, 0),
                             At(sc.isf, 0, 0), fuel - 1);
      Evaluated(lib, m, f, level, 0, fuel)
      == Fold(lib, first.m, sc, first.value, 1, 0, fuel).value
  {
  }

  /** The function numbers of a chain scanned from the start state are all unset. */
  lemma {:induction false} ChainNoFunctions(sc: Scan, ts: seq<string>, cs: seq<char>)
    requires |ts| == |cs| + 1 && ChainSlots(sc, ts, cs)
    ensures forall q :: At(sc.isf, q, 0) <= 0
  {
    assert sc.isf == map[0 := -1];
  }

  /** Slot 0 of a scanned chain evaluates to the value of the first numeral. */
  lemma {:induction false} FirstSlot(lib: Lib, m: Machine, sc: Scan, ts: seq<string>, cs: seq<char>, fuel: nat)
    requires |ts| == |cs| + 1 && fuel >= 2 && ChainSlots(sc, ts, cs) && IsNumeral(ts[0])
    ensures Evaluated(lib, m, At(sc.operations, 0, ""), At(sc.flags, 0, 0),
                      At(sc.isf, 0, 0), fuel - 1) == Values(lib, ts)[0]
  {
    ChainNoFunctions(sc, ts, cs);
    assert At(sc.operations, 0, "") == ts[0];
    NumeralLeaf(lib, m, ts[0], At(sc.flags, 0, 0), At(sc.isf, 0, 0), fuel - 1);
  }

  /** Folding the slots after the first of a scanned chain is the left fold of their values
      onto `v0`, which never stops. */
  lemma {:induction false} FoldRest(lib: Lib, level: int, m0: Machine, sc: Scan, v0: real,
                                    ts: seq<string>, cs: seq<char>, fuel: nat)
    requires ChainOf(level, ts, cs) && 1 <= |cs| && fuel >= 2 && ChainSlots(sc, ts, cs)
    ensures var r := LeftFold(lib, v0, cs, Values(lib, ts)[1..]);
      r.Done? && Fold(lib, m0, sc, v0, 1, 0, fuel).value == r.value
  {
    var vs := Values(lib, ts);
    ChainNoFunctions(sc, ts, cs);
    assert FoldableChain(level, sc, ts);
    FoldChain(lib, level, m0, sc, v0, 1, fuel, ts);
    FoldIsLeftFold(lib, m0, sc, v0, 1, 0, fuel);
    var r := Fold(lib, m0, sc, v0, 1, 0, fuel);
    assert r.operands == vs[1..];
    assert OpsFrom(sc, 0, |cs|) == cs;
    LevelFoldDone(lib, level, v0, cs, vs[1..]);
    assert Agrees(lib, v0, cs, vs[1..], r.value, r.m.err);
  }

  /** Evaluating slot 0 and folding the others over a scanned chain gives the left fold. */
  lemma {:induction false} FoldedChain(lib: Lib, level: int, m: Machine, sc: Scan,
                                       ts: seq<string>, cs: seq<char>, fuel: nat)
    requires ChainOf(level, ts, cs) && 1 <= |cs| && fuel >= 2 && ChainSlots(sc, ts, cs)
    ensures var vs := Values(lib, ts);
      var first := Calculate(lib, m, At(sc.operations, 0, ""), At(sc.flags, 0, 0),
                             At(sc.isf, 0, 0), fuel - 1);
      var r := LeftFold(lib, vs[0], cs, vs[1..]);
      r.Done? && Fold(lib, first.m, sc, first.value, 1, 0, fuel).value == r.value
  {
    var first := Calculate(lib, m, At(sc.operations, 0, ""), At(sc.flags, 0, 0),
                           At(sc.isf, 0, 0), fuel - 1);
    FirstSlot(lib, m, sc, ts, cs, fuel);
    FoldRest(lib, level, first.m, sc, first.value, ts, cs, fuel);
  }

  /** Numerals joined by operators of one level evaluate at that level to the left fold of
      their values, which never stops: `a - b - c` is `(a - b) - c`, and at level 3
      `a ^ b ^ c` is `(a ^ b) ^ c`. Entered at level 0, a chain of `*`, `/`, `%` and `^`
      groups to the right instead (`Precedence.TightChainIsRightFold`). */
  lemma {:induction false} LevelChainIsLeftFold(lib: Lib, m: Machine, level: int,
                                                ts: seq<string>, cs: seq<char>, fuel: nat)
    requires ChainOf(level, ts, cs) && 1 <= |cs| && |ts| <= 999 && fuel >= 2
    ensures var vs := Values(lib, ts);
      var r := LeftFold(lib, vs[0], cs, vs[1..]);
      r.Done? && Evaluated(lib, m, Chain(ts, cs), level, 0, fuel) == r.value
  {
    var f := Chain(ts, cs);
    ChainNotNumber(level, ts, cs);
    ScanWholeChain(level, ts, cs);
    CalculateSplits(lib, m, f, level, fuel);
    FoldedChain(lib, level, m, ScanFrom(f, level, Start, 0), ts, cs, fuel);
  }

  /** Numerals joined by `+` and `-` evaluate at level 0 to the left fold of their values:
      `a - b - c` is `(a - b) - c`. */
  lemma {:induction false} ChainIsLeftFold(lib: Lib, m: Machine, ts: seq<string>, cs: seq<char>, fuel: nat)
    requires |ts| == |cs| + 1 && 1 <= |cs| && |ts| <= 999 && fuel >= 2
    requires forall q | 0 <= q < |ts| :: IsNumeral(ts[q])
    requires forall q | 0 <= q < |cs| :: Additive(cs[q])
    ensures var vs := Values(lib, ts);
      Evaluated(lib, m, Chain(ts, cs), 0, 0, fuel) == Summed(vs[0], cs, vs[1..])
  {
    var vs := Values(lib, ts);
    assert ChainOf(0, ts, cs);
    LevelChainIsLeftFold(lib, m, 0, ts, cs, fuel);
    AdditiveFold(lib, vs[0], cs, vs[1..]);
  }

  /** Numerals joined by `*` evaluate at level 1 to their product. */
  lemma {:induction false} ProductIsLeftFold(lib: Lib, m: Machine, ts: seq<string>,
                                             cs: seq<char>, fuel: nat)
    requires |ts| == |cs| + 1 && 1 <= |cs| && |ts| <= 999 && fuel >= 2
    requires forall q | 0 <= q < |ts| :: IsNumeral(ts[q])
    requires forall q | 0 <= q < |cs| :: cs[q] == '*'
    ensures var vs := Values(lib, ts);
      Evaluated(lib, m, Chain(ts, cs), 1, 0, fuel) == Multiplied(vs[0], vs[1..])
  {
    var vs := Values(lib, ts);
    assert ChainOf(1, ts, cs);
    LevelChainIsLeftFold(lib, m, 1, ts, cs, fuel);
    ProductFold(lib, vs[0], cs, vs[1..]);
  }

  /** Subtraction chains associate to the left: `8-2-1` is 5, not 7. */
  lemma {:induction false} EightMinusTwoMinusOne(lib: Lib, m: Machine, fuel: nat)
    requires fuel >= 2
    requires lib.strtod("8").value == 8.0 && lib.strtod("2").value == 2.0
    requires lib.strtod("1").value == 1.0
    ensures Evaluated(lib, m, "8-2-1", 0, 0, fuel) == 5.0
  {
    var ts := ["8", "2", "1"];
    var cs := ['-', '-'];
    assert Chain(ts, cs) == "8-2-1";
    ChainIsLeftFold(lib, m, ts, cs, fuel);
    var vs := Values(lib, ts);
    assert vs[0] == 8.0 && vs[1..] == [2.0, 1.0];
    assert Summed(8.0, cs, [2.0, 1.0]) == 5.0 by {
      assert [2.0, 1.0][..1] == [2.0] && cs[..1] == ['-'];
      assert Summed(8.0, ['-'], [2.0]) == 6.0 by {
        assert [2.0][..0] == [] && ['-'][..0] == [];
      }
    }
  }
}
