/** `calculate`: the precedence evaluator. A formula is scanned once at its level (0 `+ -`,
    1 `*`, 2 `/ %`, 3 `^`, 4 shifts); the operands joined by an operator of that level become
    slots evaluated one level up, a term joined by any other operator is regrouped into a
    parenthesised string, and the slots are folded from left to right. */
module Evaluator {
  import opened CalcErrors
  import opened CLib
  import opened Text
  import opened Lexicon
  import opened Converters

  /** The `PI` and `EXP` macros. */
  const Pi: real := 3.1415926535897932384626433832795
  const Exp: real := 2.7182818284590452353602874713527

  /** The character `calculate` records with at the end of its input. */
  const Nul: char := '\0'

  /** The state `calculate` changes besides its result: `mError`, the global errno, and whether
      the evaluation ran out of its recursion budget (which the source does not have) or
      reached a `factorial` loop that never ends. */
  datatype Machine = Machine(err: CalcError, errno: Errno, exhausted: bool)

  /** A value and the machine after computing it. */
  datatype Eval = Eval(m: Machine, value: real)

  /** Reads a slot of one of the scanner's arrays; `d` for a slot never written (the source's
      stack arrays hold garbage there, the vectors an empty string). */
  function At<T>(a: map<int, T>, k: int, d: T): T
  {
    if k in a then a[k] else d
  }

  predicate IsShift(c: char)
  {
    c == '<' || c == '>'
  }

  predicate IsDivision(c: char)
  {
    c == '/' || c == '%'
  }

  /** The scanner's variables: the current term `s`, the parenthesis depth `p`, the slot
      counter `o`, the operator counter `op`, the pending sign `neg`, and the arrays `oper`,
      `operations`, `oper_flags` and `is_f`. */
  datatype Scan = Scan(
    s: string, p: int, o: int, op: int, neg: bool,
    oper: map<int, char>,
    operations: map<int, string>,
    flags: map<int, int>,
    isf: map<int, int>)

  const Start: Scan := Scan("", 0, 0, 0, false, map[], map[], map[0 := 0], map[0 := -1])

  /** Whether a term joined by `c` is regrouped at `level` instead of becoming a slot. */
  predicate Joins(level: int, c: char)
  {
    if level == 0 then c != '+' && c != '-'
    else if level == 1 then c != '*'
    else if level == 2 then !IsDivision(c)
    else if level == 3 then c != '^'
    else if level == 4 then !IsShift(c)
    else false
  }

  /** The name of function number `f`, or nothing. */
  function FuncPrefix(f: int): string
  {
    if 0 < f <= |FuncNames| then FuncNames[f - 1] else ""
  }

  /** Slot `o` becomes `name(operations[o]) c (s)`, with a shift operator doubled, and is
      handed to the next level. */
  function Regroup(st: Scan, level: int, o: int, op: int): Scan
  {
    var f := At(st.isf, o, 0);
    var c := At(st.oper, op, Nul);
    var text := FuncPrefix(f) + "(" + At(st.operations, o, "") + ")"
      + (if IsShift(c) then [c, c] else [c]) + "(" + st.s + ")";
    st.(operations := st.operations[o := text], flags := st.flags[o := level + 1],
        isf := if f > 0 then st.isf[o := -1] else st.isf)
  }

  /** What regrouping does to the slots: slot `o` holds the joined text and is flagged
      `level + 1`, so it is evaluated one level deeper; every other slot and the rest of the
      state stay. */
  lemma {:induction false} RegroupSlots(st: Scan, level: int, o: int, op: int)
    ensures var r, c := Regroup(st, level, o, op), At(st.oper, op, Nul);
      && At(r.operations, o, "") == FuncPrefix(At(st.isf, o, 0)) + "(" + At(st.operations, o, "")
           + ")" + (if IsShift(c) then [c, c] else [c]) + "(" + st.s + ")"
      && At(r.flags, o, 0) == level + 1 && At(r.isf, o, 0) <= 0
      && (forall k | k != o ::
            At(r.operations, k, "") == At(st.operations, k, "")
            && At(r.flags, k, 0) == At(st.flags, k, 0) && At(r.isf, k, 0) == At(st.isf, k, 0))
      && r.s == st.s && r.p == st.p && r.o == st.o && r.op == st.op && r.neg == st.neg
      && r.oper == st.oper
  {
  }

  /** The `if (record)` block, with `c` the character that triggered it. */
  function Record(level: int, st: Scan, c: char): Scan
  {
    if st.s == [] then st
    else
      var juntar := st.op > 0 && st.o > 0 && Joins(level, At(st.oper, st.op - 1, Nul));
      if juntar && st.op > st.o then
        var op1 := st.op - 1;
        if IsShift(At(st.oper, op1, Nul)) && IsShift(At(st.oper, op1 - 1, Nul)) then
          var st' := Regroup(st, level, st.o - 1, op1 - 1);
          st'.(oper := st'.oper[op1 - 1 := At(st.oper, op1, Nul)], s := "", op := op1, o := st.o)
        else
          st.(op := op1, s := st.s + (if IsShift(At(st.oper, op1, Nul)) then [c, c] else [c]))
      else
        var st1 :=
          if juntar then Regroup(st, level, st.o - 1, st.op - 1).(o := st.o - 1, op := st.op - 1)
          else st.(operations := st.operations[st.o := st.s]);
        var f := IsFunc(At(st1.operations, st1.o, ""));
        var st2 :=
          if f > 0 then st1.(isf := st1.isf[st1.o := f][st1.o + 1 := -1])
          else st1.(o := st1.o + 1);
        st2.(s := "", neg := false)
  }

  /** One character of the scan: the new state, whether it records, and where the scan goes on
      (past the second character of a `<<` or `>>`). */
  datatype Lexed = Lexed(st: Scan, record: bool, next: nat)

  /** Pushes operator `c` and records. */
  function PushOp(st: Scan, c: char): Scan
  {
    st.(oper := st.oper[st.op := c], op := st.op + 1)
  }

  /** The character classes of the scanning loop for `formula[i]`. The exponent flag of the
      source is never raised, so its branches are left out. */
  function Lex(formula: string, st: Scan, i: nat): (r: Lexed)
    requires i < |formula|
    ensures i < r.next <= i + 2
  {
    var c := formula[i];
    if st.o >= 999 then Lexed(st.(s := st.s + [c]), false, i + 1)
    else if c == '(' then
      var st1 := if st.p == 0 then st.(flags := st.flags[st.o := 0]) else st;
      var s1 :=
        if st.p == 0 && st.neg && |st.s| <= 1 then "(-1)*(" else st.s;
      var record := st.p == 0 && (if st.neg then |st.s| > 1 else st.s != []);
      var p1 := st.p + 1;
      Lexed(st1.(s := if p1 > 1 then s1 + [c] else s1, p := p1), record, i + 1)
    else if c == ')' then
      var p1 := st.p - 1;
      if p1 == 0 then
        Lexed(st.(p := p1, s := if st.neg then st.s + [c] else st.s, neg := false), true, i + 1)
      else Lexed(st.(p := p1, s := st.s + [c]), false, i + 1)
    else if st.p != 0 then Lexed(st.(s := st.s + [c]), false, i + 1)
    else if IsShift(c) then Lexed(PushOp(st, c), true, i + 2)
    else if c == '^' || c == '%' || c == '/' || c == '*' || c == '+' then
      Lexed(PushOp(st, c), true, i + 1)
    else if c == '-' then
      if i == 0 || (st.op > 0 && At(st.oper, st.op - 1, Nul) == formula[i - 1]) then
        Lexed(st.(s := st.s + [c], neg := true), false, i + 1)
      else if st.s != [] && var l := st.s[|st.s| - 1];
        l == '^' || l == '%' || l == '/' || l == '*' || IsShift(l) then
        Lexed(st.(s := st.s + [c]), false, i + 1)
      else Lexed(PushOp(st, c), true, i + 1)
    else Lexed(st.(s := st.s + [c]), false, i + 1)
  }

  /** The scanning `for` loop from position `i` on; at the end of the input the last term is
      recorded with `oper_flags[o] = level + 1`. */
  function ScanFrom(formula: string, level: int, st: Scan, i: nat): Scan
    decreases |formula| + 1 - i
  {
    if i > |formula| then st
    else if i == |formula| then Record(level, st.(flags := st.flags[st.o := level + 1]), Nul)
    else
      var l := Lex(formula, st, i);
      ScanFrom(formula, level, if l.record then Record(level, l.st, formula[i]) else l.st, l.next)
  }

  /** The character classes of one scanning step: the slot counter stays, at most one
      operator is pushed, the depth follows the parentheses, only a shift at depth 0 skips a
      character, nothing records inside parentheses except the closing one, and there every
      other character only grows the current term; an operator at depth 0 is pushed and
      records. */
  lemma {:induction false} LexClasses(formula: string, st: Scan, i: nat)
    requires i < |formula|
    ensures var r := Lex(formula, st, i);
      var c := formula[i];
      && r.st.o == st.o && st.op <= r.st.op <= st.op + 1
      && r.next == (if st.o < 999 && st.p == 0 && IsShift(c) then i + 2 else i + 1)
      && r.st.p == st.p + (if st.o >= 999 then 0 else if c == '(' then 1
                           else if c == ')' then -1 else 0)
      && (r.record ==> st.o < 999 && (st.p == 0 || (st.p == 1 && c == ')')))
      && ((st.o >= 999 || (st.p > 0 && !(st.p == 1 && c == ')')))
          ==> !r.record && r.st.s == st.s + [c] && r.st.op == st.op)
      && (st.o < 999 && st.p == 0 && (c in "^%/*+" || IsShift(c))
          ==> r.record && r.st == PushOp(st, c))
  {
  }

  /** What one step of the fold does with the accumulator. */
  datatype Step = Next(value: real, errno: Errno) | Stop(err: CalcError)

  /** One iteration of the fold's `switch`: division or modulo by zero and a shift of a
      non-integral left operand stop the fold with an error; a shift works on `(int)` casts. */
  function Combine(lib: Lib, res: real, c: char, tmp: real): (r: Step)
    ensures r.Stop? <==> (IsDivision(c) && tmp == 0.0) || (IsShift(c) && !IsIntegral(res))
    ensures r.Stop? ==> r.err == (if IsShift(c) then IntBitshift else Div0)
    ensures c == '+' ==> r == Next(res + tmp, NoErrno)
    ensures c == '-' ==> r == Next(res - tmp, NoErrno)
    ensures c == '*' ==> r == Next(res * tmp, NoErrno)
    ensures c == '/' && tmp != 0.0 ==> r == Next(res / tmp, NoErrno)
    ensures IsShift(c) && r.Next? ==> IsIntegral(r.value) && IsInt32(Floor(r.value))
    ensures (r.Next? && !IsShift(c) && !IsDivision(c) && c != '+' && c != '-' && c != '*'
             && c != '^') ==> r == Next(res, NoErrno)
  {
    if c == '-' then Next(res - tmp, NoErrno)
    else if c == '+' then Next(res + tmp, NoErrno)
    else if c == '*' then Next(res * tmp, NoErrno)
    else if IsDivision(c) then
      if tmp == 0.0 then Stop(Div0)
      else if c == '%' then var out := lib.fmod(res, tmp); Next(out.value, out.errno)
      else Next(res / tmp, NoErrno)
    else if c == '^' then var out := lib.powl(res, tmp); Next(out.value, out.errno)
    else if IsShift(c) then
      if IsIntegral(res) then
        var n := if c == '<' then Shl32(ToInt32(res), ToInt32(tmp))
          else Shr32(ToInt32(res), ToInt32(tmp));
        assert Floor(n as real) == n;
        Next(n as real, NoErrno)
      else Stop(IntBitshift)
    else Next(res, NoErrno)
  }

  /** The outcome of folding: a value, or the error that stopped the fold. */
  datatype Folding = Done(value: real) | Stopped(err: CalcError)

  /** The left fold `((res c0 v0) c1 v1) ...` as a reference definition: the last operator is
      applied last, to everything before it; once stopped, nothing is applied. */
  function LeftFold(lib: Lib, res: real, ops: seq<char>, vals: seq<real>): Folding
    requires |ops| == |vals|
    decreases |vals|
  {
    if vals == [] then Done(res)
    else
      var n := |vals| - 1;
      match LeftFold(lib, res, ops[..n], vals[..n])
      case Stopped(e) => Stopped(e)
      case Done(v) =>
        match Combine(lib, v, ops[n], vals[n])
        case Stop(e) => Stopped(e)
        case Next(w, _) => Done(w)
  }

  /** Peeling the first step off a left fold. */
  lemma {:induction false} LeftFoldCons(lib: Lib, res: real, c: char, t: real, ops: seq<char>,
                                        vals: seq<real>)
    requires |ops| == |vals|
    ensures LeftFold(lib, res, [c] + ops, [t] + vals) ==
      match Combine(lib, res, c, t)
      case Stop(e) => Stopped(e)
      case Next(w, _) => LeftFold(lib, w, ops, vals)
    decreases |vals|
  {
    if vals != [] {
      var n := |vals| - 1;
      assert ([c] + ops)[..n + 1] == [c] + ops[..n];
      assert ([t] + vals)[..n + 1] == [t] + vals[..n];
      LeftFoldCons(lib, res, c, t, ops[..n], vals[..n]);
    }
  }

  /** Once a fold has stopped, further operands do not change its outcome. */
  lemma {:induction false} StoppedStays(lib: Lib, res: real, ops: seq<char>, vals: seq<real>,
                                        ops': seq<char>, vals': seq<real>)
    requires |ops| == |vals| && |ops'| == |vals'|
    requires LeftFold(lib, res, ops, vals).Stopped?
    ensures LeftFold(lib, res, ops + ops', vals + vals') == LeftFold(lib, res, ops, vals)
    decreases |vals'|
  {
    if vals' != [] {
      var n := |vals'| - 1;
      var all := ops + ops';
      var vs := vals + vals';
      assert all[..|all| - 1] == ops + ops'[..n];
      assert vs[..|vs| - 1] == vals + vals'[..n];
      StoppedStays(lib, res, ops, vals, ops'[..n], vals'[..n]);
      assert LeftFold(lib, res, all[..|all| - 1], vs[..|vs| - 1]).Stopped?;
    } else {
      assert ops + ops' == ops && vals + vals' == vals;
    }
  }

  /** The operators `oper[j]`, ..., `oper[j + k - 1]`. */
  function OpsFrom(sc: Scan, j: int, k: nat): (ops: seq<char>)
    ensures |ops| == k
  {
    seq(k, n => At(sc.oper, j + n, Nul))
  }

  /** The operators from `j` on start with `oper[j]`. */
  lemma {:induction false} OpsFromCons(sc: Scan, j: int, k: nat)
    ensures OpsFrom(sc, j, k + 1) == [At(sc.oper, j, Nul)] + OpsFrom(sc, j + 1, k)
  {
  }

  /** A fold result `value` with error `err` agrees with the left fold of `vals`: its value
      when the fold is done, and -1 with the stopping error otherwise. */
  predicate Agrees(lib: Lib, res: real, ops: seq<char>, vals: seq<real>, value: real,
                   err: CalcError)
    requires |ops| == |vals|
  {
    match LeftFold(lib, res, ops, vals)
    case Done(v) => value == v
    case Stopped(e) => value == -1.0 && err == e
  }

  /** Agreement carries over to one more step taken first. */
  lemma {:induction false} AgreesCons(lib: Lib, res: real, c: char, t: real, v: real, errno: Errno,
                   ops: seq<char>, vals: seq<real>, value: real, err: CalcError)
    requires |ops| == |vals| && Combine(lib, res, c, t) == Next(v, errno)
    requires Agrees(lib, v, ops, vals, value, err)
    ensures Agrees(lib, res, [c] + ops, [t] + vals, value, err)
  {
    LeftFoldCons(lib, res, c, t, ops, vals);
  }

  /** What the fold loop returns: the machine, the accumulator, and the operands it evaluated
      in order. */
  datatype Folded = Folded(m: Machine, value: real, operands: seq<real>)

  /** errno mapped to the calculator's error. */
  function ErrnoError(e: Errno): CalcError
  {
    match e
    case NoErrno => Nada
    case EDomErrno => EDom
    case ERangeErrno => ERange
    case OtherErrno => Epic
  }

  /** `strtod` as the leaf parser, with the errno it may set. */
  function Strtod(lib: Lib, m: Machine, s: string): Eval
  {
    var out := lib.strtod(s);
    Eval(m.(errno := Sticky(m.errno, out.errno)), out.value)
  }

  /** `bin2dec`, `oct2dec` or `hex2dec`: a bad digit sets the base's error. */
  function Converted(m: Machine, b: Base, s: string, e: CalcError): Eval
  {
    var c := Convert(b, s);
    Eval(if c.bad then m.(err := e) else m, c.value)
  }

  /** The value of a leaf: a text `IsValidNum` accepts is a number (converted from base 2, 8 or
      16 under `bin`, `oct` or `hex`, `e` the constant); above level 4 any other text is `pi`
      or goes to `strtod`. */
  function Leaf(lib: Lib, m: Machine, formula: string, operFunc: int): Eval
  {
    if operFunc == FuncBin then Converted(m, Base2, formula, Bin)
    else if operFunc == FuncOct then Converted(m, Base8, formula, Oct)
    else if operFunc == FuncHex then Converted(m, Base16, formula, Hex)
    else if formula == "e" then Eval(m, Exp)
    else Strtod(lib, m, formula)
  }

  /** `factorial` as it is written: out of bounds for negative or fractional input, and
      otherwise the product 0 * 1 * ... * n. Its `int` counter never passes an argument of
      `INT_MAX` or more, so that loop does not end: the evaluation is marked exhausted. */
  function FactorialOf(m: Machine, x: real): (r: Eval)
    ensures r.value == 0.0
    ensures r.m.err == (if x < 0.0 || !IsIntegral(x) then FactOutOfBounds else m.err)
    ensures r.m.exhausted <==> m.exhausted || (x >= 0.0 && IsIntegral(x) && Floor(x) >= IntMax)
    ensures r.m.errno == m.errno
  {
    if x < 0.0 || x - Floor(x) as real > 0.0 then Eval(m.(err := FactOutOfBounds), 0.0)
    else if Floor(x) >= IntMax then Eval(m.(exhausted := true), 0.0)
    else (ProductFromZeroIsZero(Floor(x)); Eval(m, ProductFromZero(Floor(x)) as real))
  }

  /** `round`: up from a fractional part of one half. */
  function Round(x: real): (r: int)
    ensures x - 0.5 < r as real <= x + 0.5
  {
    if x - Floor(x) as real >= 0.5 then Ceil(x) else Floor(x)
  }

  /** The function-application `switch` for function number `f`. */
  function ApplyRaw(lib: Lib, m: Machine, x: real, f: int): Eval
  {
    if f == FuncSqrt || 4 <= f <= FuncLog then
      var out := lib.libm(f, x);
      Eval(m.(errno := Sticky(m.errno, out.errno)), out.value)
    else if f == FuncFloor then Eval(m, Floor(x) as real)
    else if f == FuncCeil then Eval(m, Ceil(x) as real)
    else if f == FuncAbs || f == FuncFabs then Eval(m, if x < 0.0 then -x else x)
    else if f == FuncRound then Eval(m, Round(x) as real)
    else if f == FuncFact then FactorialOf(m, x)
    else Eval(m, x)
  }

  /** The tail of `calculate`: with a function number, apply it; then a set errno turns into
      the calculator's error and a result of 0. errno is never cleared, so once set every later
      function application yields 0. */
  function Apply(lib: Lib, m: Machine, x: real, f: int): (r: Eval)
    ensures f <= 0 ==> r == Eval(m, x)
    ensures f > 0 && r.m.errno != NoErrno ==> r.value == 0.0 && r.m.err == ErrnoError(r.m.errno)
    ensures f > 0 && m.errno != NoErrno ==> r.value == 0.0 && r.m.errno != NoErrno
    ensures m.errno != NoErrno ==> r.m.errno != NoErrno
    ensures f != FuncFact ==> r.m.exhausted == m.exhausted
    ensures m.exhausted ==> r.m.exhausted
  {
    if f <= 0 then Eval(m, x)
    else
      var a := ApplyRaw(lib, m, x, f);
      if a.m.errno != NoErrno then Eval(a.m.(err := ErrnoError(a.m.errno)), 0.0) else a
  }

  /** The recursion budget of the top-level call. */
  const MaxDepth: nat := 1000

  /** `calculate(formula, level, oper_func)`. With no budget left the evaluation is marked
      exhausted and yields 0. */
  function Calculate(lib: Lib, m: Machine, formula: string, level: int, operFunc: int,
                     fuel: nat): (r: Eval)
    ensures m.exhausted ==> r.m.exhausted
    ensures m.errno != NoErrno ==> r.m.errno != NoErrno
    decreases fuel, 2, 0
  {
    if fuel == 0 then Eval(m.(exhausted := true), 0.0)
    else
      var base :=
        if ValidNum(formula) then Leaf(lib, m, formula, operFunc)
        else if level > 4 then (if formula == "pi" then Eval(m, Pi) else Strtod(lib, m, formula))
        else
          var sc := ScanFrom(formula, level, Start, 0);
          var first := Calculate(lib, m, At(sc.operations, 0, ""), At(sc.flags, 0, 0),
                                 At(sc.isf, 0, 0), fuel - 1);
          var folded := Fold(lib, first.m, sc, first.value, 1, 0, fuel);
          Eval(folded.m, folded.value);
      Apply(lib, base.m, base.value, operFunc)
  }

  /** The value `calculate` returns; a name of its own keeps proofs about evaluations from
      unfolding the evaluator more than once. */
  ghost function Evaluated(lib: Lib, m: Machine, f: string, level: int, operFunc: int,
                      fuel: nat): real
  {
    Calculate(lib, m, f, level, operFunc, fuel).value
  }

  /** The fold loop `for (i = 1, j = 0; i < o && j < op; ...)`: slot `i` is evaluated and
      joined to the accumulator by `oper[j]`. Its result is the left fold of the operands it
      evaluated; an error stops it with -1. */
  function Fold(lib: Lib, m: Machine, sc: Scan, res: real, i: int, j: int, fuel: nat)
    : (r: Folded)
    requires fuel > 0
    ensures m.exhausted ==> r.m.exhausted
    ensures m.errno != NoErrno ==> r.m.errno != NoErrno
    decreases fuel, 1, sc.o - i
  {
    if !(i < sc.o && j < sc.op) then Folded(m, res, [])
    else
      var t := Calculate(lib, m, At(sc.operations, i, ""), At(sc.flags, i, 0),
                         At(sc.isf, i, 0), fuel - 1);
      var c := At(sc.oper, j, Nul);
      match Combine(lib, res, c, t.value)
      case Stop(e) => Folded(t.m.(err := e), -1.0, [t.value])
      case Next(v, errno) =>
        var rest := Fold(lib, t.m.(errno := Sticky(t.m.errno, errno)), sc, v, i + 1, j + 1, fuel);
        Folded(rest.m, rest.value, [t.value] + rest.operands)
  }

  /** The fold loop computes the left fold of the operands it evaluates, joined by the
      operators from `oper[j]` on: its value when the fold is done, and -1 with the error that
      stopped it otherwise. */
  lemma {:induction false} FoldIsLeftFold(lib: Lib, m: Machine, sc: Scan, res: real, i: int,
                                          j: int, fuel: nat)
    requires fuel > 0
    ensures var r := Fold(lib, m, sc, res, i, j, fuel);
      Agrees(lib, res, OpsFrom(sc, j, |r.operands|), r.operands, r.value, r.m.err)
    decreases sc.o - i
  {
    if i < sc.o && j < sc.op {
      var t := Calculate(lib, m, At(sc.operations, i, ""), At(sc.flags, i, 0),
                         At(sc.isf, i, 0), fuel - 1);
      var c := At(sc.oper, j, Nul);
      match Combine(lib, res, c, t.value) {
        case Stop(e) =>
          FoldStop(lib, m, sc, res, i, j, fuel, t, e);
          assert OpsFrom(sc, j, 1) == [c];
          assert LeftFold(lib, res, [c], [t.value]) == Stopped(e) by {
            assert [c][..0] == [] && [t.value][..0] == [];
          }
        case Next(v, errno) =>
          FoldNext(lib, m, sc, res, i, j, fuel, t, v, errno);
          var m' := t.m.(errno := Sticky(t.m.errno, errno));
          FoldIsLeftFold(lib, m', sc, v, i + 1, j + 1, fuel);
          var rest := Fold(lib, m', sc, v, i + 1, j + 1, fuel);
          var k := |rest.operands|;
          OpsFromCons(sc, j, k);
          AgreesCons(lib, res, c, t.value, v, errno, OpsFrom(sc, j + 1, k), rest.operands,
                     rest.value, rest.m.err);
      }
    }
  }

  /** The fold loop is over once the slots run out. */
  lemma {:induction false} FoldDone(lib: Lib, m: Machine, sc: Scan, res: real, i: int, j: int, fuel: nat)
    requires fuel > 0 && i >= sc.o
    ensures Fold(lib, m, sc, res, i, j, fuel) == Folded(m, res, [])
  {
  }

  /** A step of the fold loop that goes on: the loop continues from the next slot with the
      combined value and the errno the step left. */
  lemma {:induction false} FoldNext(lib: Lib, m: Machine, sc: Scan, res: real, i: int, j: int, fuel: nat,
                 t: Eval, v: real, errno: Errno)
    requires fuel > 0 && i < sc.o && j < sc.op
    requires t == Calculate(lib, m, At(sc.operations, i, ""), At(sc.flags, i, 0),
                            At(sc.isf, i, 0), fuel - 1)
    requires Combine(lib, res, At(sc.oper, j, Nul), t.value) == Next(v, errno)
    ensures var f := Fold(lib, m, sc, res, i, j, fuel);
      var g := Fold(lib, t.m.(errno := Sticky(t.m.errno, errno)), sc, v, i + 1, j + 1, fuel);
      f.m == g.m && f.value == g.value && f.operands == [t.value] + g.operands
  {
  }

  /** A step of the fold loop that stops: the error is set and the fold yields -1. */
  lemma {:induction false} FoldStop(lib: Lib, m: Machine, sc: Scan, res: real, i: int, j: int, fuel: nat,
                 t: Eval, e: CalcError)
    requires fuel > 0 && i < sc.o && j < sc.op
    requires t == Calculate(lib, m, At(sc.operations, i, ""), At(sc.flags, i, 0),
                            At(sc.isf, i, 0), fuel - 1)
    requires Combine(lib, res, At(sc.oper, j, Nul), t.value) == Stop(e)
    ensures var f := Fold(lib, m, sc, res, i, j, fuel);
      f.m == t.m.(err := e) && f.value == -1.0 && f.operands == [t.value]
  {
  }
}
