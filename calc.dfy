/** The `Calc` class: the calculator object whose members update `mError`, `mResult`,
    `mFormula`, `mIsCompare`, `mCompare`, `mList`, `mOutput` and `mCompRes` step by step.
    Every method is proved against the function that specifies it in the other modules. */
module Funkii {
  import opened CalcErrors
  import opened CLib
  import opened Text
  import opened Converters
  import opened Lexicon
  import opened Normalizer
  import opened Variables
  import opened Evaluator
  import Formatting
  import opened Comparison
  import Pipeline

  /** The error a base's converter reports for a bad digit. */
  function BaseError(b: Base): (e: CalcError)
    ensures e == Bin || e == Oct || e == Hex
  {
    match b
    case Base2 => Bin
    case Base8 => Oct
    case Base16 => Hex
  }

  /** The state of the splitting loop of `checkandcompare`, on values: `j` pieces (`list`)
      and comparators (`cmps`) are cut, the current piece began at `last` and the search goes
      on from `from`; the pieces are evaluated in order from `m0` to `m` into the front of
      `vals`, whose other entries are those of `kept`. */
  ghost predicate SplitState(lib: Lib, f: string, m0: Machine, kept: seq<real>, last: int,
                             from: int, j: int, cmps: seq<Cmp>, list: seq<string>, m: Machine,
                             vals: seq<real>)
  {
    0 <= last <= from <= |f| && EndsClear(f) && |list| == j == |cmps| <= MaxComparisons
    && |vals| == |kept| == MaxComparisons + 1
    && Split(f) == Parts(list + SplitAt(f, last, from, j).operands,
                         cmps + SplitAt(f, last, from, j).cmps)
    && EvalPieces(lib, m0, list, MaxDepth) == Evaluated(m, vals[..j])
    && vals[j..] == kept[j..]
  }

  /** A comparator cut: the piece before it, once evaluated into `vals'[j]`, joins the
      others and the search goes on after the comparator. */
  lemma CutStep(lib: Lib, f: string, m0: Machine, kept: seq<real>, last: nat, from: nat, j: nat,
                cmps: seq<Cmp>, list: seq<string>, m: Machine, vals: seq<real>, found: nat,
                c: Cmp, next: nat, m': Machine, vals': seq<real>)
    requires SplitState(lib, f, m0, kept, last, from, j, cmps, list, m, vals)
    requires found == NextCmp(f, from) && j < MaxComparisons && !ShiftPair(f, found)
    requires found + 1 < |f| && c == Classify(f[found], f[found + 1])
    requires next == found + |Spelling(c)|
    requires |vals'| == |vals| && vals'[j + 1..] == vals[j + 1..]
    requires EvalPieces(lib, m0, list + [f[last..found]], MaxDepth) == Evaluated(m', vals'[..j + 1])
    ensures from < next
    ensures SplitState(lib, f, m0, kept, next, next, j + 1, cmps + [c], list + [f[last..found]],
                       m', vals')
  {
    SplitTake(f, last, from, j, found, c, next, list, cmps);
  }

  /** The last piece cut and evaluated into `vals'[j]`: the pieces and comparators are those
      of `Split(f)` and the front of `vals'` holds their values. */
  lemma LastStep(lib: Lib, f: string, m0: Machine, kept: seq<real>, last: nat, from: nat, j: nat,
                 cmps: seq<Cmp>, list: seq<string>, m: Machine, vals: seq<real>, m': Machine,
                 vals': seq<real>)
    requires SplitState(lib, f, m0, kept, last, from, j, cmps, list, m, vals)
    requires NextCmp(f, from) == -1 || j >= MaxComparisons
    requires |vals'| == |vals| && vals'[j + 1..] == vals[j + 1..]
    requires EvalPieces(lib, m0, list + [f[last..]], MaxDepth) == Evaluated(m', vals'[..j + 1])
    ensures var parts := Split(f);
      var ev := EvalPieces(lib, m0, parts.operands, MaxDepth);
      list + [f[last..]] == parts.operands && cmps == parts.cmps && m' == ev.m
      && vals' == ev.vals + kept[|parts.operands|..]
  {
    SplitEnd(f, last, from, j);
    assert vals' == vals'[..j + 1] + vals'[j + 1..];
  }

  class Calc {
    /** The C library the calculator calls. */
    const lib: Lib

    var err: CalcError
    /** errno, which the library sets and nothing clears. */
    var errno: Errno
    /** Set when an evaluation ran past the recursion budget, a factorial loop would never
        end, or a variable expansion would never end: the source does not return from
        those. */
    var exhausted: bool

    var result: real
    var formula: string
    var isCompare: bool
    var list: seq<string>
    var output: string

    /** `mCompRes` and `mCompare`. `mCompRes` has one entry more than the source declares: a
        formula with 1000 comparators makes the source write and read one entry past its end. */
    const compRes: array<real>
    const compare: array<bool>

    /** `Calc(formula)`: the new object runs `calcthis(formula)`; `Calc()` is `Calc("0")`.
        `errno` is the process's, which a new object does not reset. */
    constructor (lib: Lib, errno: Errno, raw: string)
      ensures Valid() && this.lib == lib && fresh(compRes) && fresh(compare)
      ensures State() == Pipeline.CalcThis(lib, Pipeline.Fresh(errno), raw)
    {
      this.lib := lib;
      this.errno := errno;
      err, exhausted, result, formula, isCompare, list, output := Nada, false, 0.0, "", false, [], "";
      compRes := new real[MaxComparisons + 1](_ => 0.0);
      compare := new bool[MaxComparisons](_ => false);
      new;
      assert State() == Pipeline.Fresh(errno);
      CalcThis(raw);
    }

    ghost predicate Valid()
      reads this
    {
      compRes.Length == MaxComparisons + 1 && compare.Length == MaxComparisons
    }

    /** The evaluator's view of the object. */
    function Mach(): (m: Machine)
      reads this
      ensures m.err == err && m.errno == errno && m.exhausted == exhausted
    {
      Machine(err, errno, exhausted)
    }

    /** Everything `calcthis` reads and writes. */
    function State(): (s: Pipeline.Session)
      reads this, compRes, compare
      ensures s.m == Mach() && s.result == result && s.formula == formula
      ensures s.compRes == compRes[..] && s.compare == compare[..]
    {
      Pipeline.Session(Mach(), result, formula, isCompare, list, compRes[..], compare[..], output)
    }

    /** Only `mError`, errno and the exhaustion flag may have changed. */
    twostate predicate OnlyMachine()
      reads this
    {
      result == old(result) && formula == old(formula) && isCompare == old(isCompare)
      && list == old(list) && output == old(output)
    }

    /** `result_d()`: the result, or 0 after an error. */
    function ResultD(): (r: real)
      reads this
      ensures err == Nada ==> r == result
      ensures err != Nada ==> r == 0.0
    {
      if err == Nada then result else 0.0
    }

    /** `error()`. */
    function Error(): (r: bool)
      reads this
      ensures r <==> err != Nada
    {
      err != Nada
    }

    /** `get_error()`: the message of the current error, empty when there is none. */
    function GetError(): (msg: string)
      reads this
      ensures msg == "" <==> err == Nada
      ensures err != Nada ==> |msg| > |ErrorPrefix| && msg[..|ErrorPrefix|] == ErrorPrefix
    {
      ErrorString(err)
    }

    /** `IsValidNum(n)`: digits, points, a leading `-` and hex letters, with one sign or letter
        admitted after each `e`. */
    method IsValidNum(n: string) returns (valid: bool)
      ensures valid == ValidNum(n)
      ensures valid ==> forall k | 0 <= k < |n| :: NumChar(n[k])
    {
      if ValidNum(n) {
        ValidNumAlphabet(n);
      }
      var isE := false;
      var i := 0;
      while i < |n|
        invariant 0 <= i <= |n|
        invariant ValidFrom(n, i, isE) == ValidNum(n)
      {
        var c := n[i];
        if !IsDigit(c) && c != '.' && !(c == '-' && i == 0) {
          if isE {
            if c == '+' || c == '-' {
              isE := false;
            } else if 'a' <= c <= 'f' {
              isE := false;
            } else {
              return false;
            }
          } else {
            if c == 'e' {
              isE := true;
            } else if 'a' <= c <= 'f' {
            } else {
              return false;
            }
          }
        }
        i := i + 1;
      }
      return true;
    }

    /** `bin2dec`, `oct2dec` and `hex2dec`: the digits are weighed from the right; a digit
        outside the base sets the base's error and gives 0. */
    method ToDecimal(b: Base, num: string) returns (ret: real)
      modifies this
      ensures ret == Convert(b, num).value
      ensures err == if Convert(b, num).bad then BaseError(b) else old(err)
      ensures errno == old(errno) && exhausted == old(exhausted) && OnlyMachine()
    {
      ret := 0.0;
      var z := |num| - 1;
      while z >= 0
        invariant -1 <= z < |num|
        invariant AllDigits(b, num[z + 1..]) && ret == Value(b, num[z + 1..]) as real
        invariant unchanged(this)
      {
        var d := DigitValue(b, num[z]);
        if d < 0 {
          err := BaseError(b);
          return 0.0;
        }
        ValuePrepend(b, num[z], num[z + 1..]);
        assert [num[z]] + num[z + 1..] == num[z..];
        ret := ret + (d * Power(Radix(b), |num| - 1 - z)) as real;
        z := z - 1;
      }
      assert num[0..] == num;
    }

    /** `factorial(num)`: out of bounds for a negative or fractional argument; otherwise the
        loop's product, which starts with the factor 0. From `INT_MAX` on, the `int` counter
        never passes `num` and the loop does not end: the flag is raised instead. */
    method Factorial(num: real) returns (ret: real)
      modifies this
      ensures Eval(Mach(), ret) == FactorialOf(old(Mach()), num)
      ensures ret == 0.0
      ensures OnlyMachine()
    {
      ret := 0.0;
      if num < 0.0 {
        err := FactOutOfBounds;
      } else if num - Floor(num) as real > 0.0 {
        err := FactOutOfBounds;
      } else if Floor(num) >= IntMax {
        exhausted := true;
      } else {
        ret := 1.0;
        var i := 0;
        while i as real <= num
          invariant 0 <= i <= Floor(num) + 1
          invariant ret == if i == 0 then 1.0 else ProductFromZero(i - 1) as real
          decreases Floor(num) + 1 - i
        {
          ret := ret * i as real;
          i := i + 1;
        }
        ProductFromZeroIsZero(Floor(num));
      }
    }

    /** `fib(n)` on the whole numbers it is called with: F(n) for |n| < 1476, with the sign
        rule for negative n, and 0 beyond. */
    method Fib(n: int) returns (r: real)
      ensures -1476 < n < 1476 ==> r == NegaFib(n) as real
      ensures n <= -1476 || 1476 <= n ==> r == 0.0
    {
      var neg := false;
      var m := n;
      if m < 0 {
        m := -m;
        neg := true;
      }
      if m < 1476 {
        if m == 0 {
          return 0.0;
        } else if m == 1 || m == 2 {
          return if neg && m == 2 then -1.0 else 1.0;
        } else {
          var fx, f1, f2 := 3, 1, 1;
          while fx <= m
            invariant 3 <= fx <= m + 1
            invariant f1 == Converters.Fib(fx - 2) && f2 == Converters.Fib(fx - 1)
          {
            var tmp := f1 + f2;
            f1 := f2;
            f2 := tmp;
            fx := fx + 1;
          }
          if neg {
            return (if (m + 1) % 2 == 0 then 1.0 else -1.0) * f2 as real;
          } else {
            return f2 as real;
          }
        }
      } else {
        return 0.0;
      }
    }

    /** `fibonacci()`: the error's message after an error; otherwise F(1475) when the result
        is exactly 1475, and the out-of-bounds message for every other result. */
    method Fibonacci() returns (s: string)
      ensures err != Nada ==> s == ErrorString(err)
      ensures err == Nada && result != 1475.0 ==> s == ErrorString(FibOutOfBounds)
      ensures err == Nada && result == 1475.0 ==> s == lib.show(Converters.Fib(1475) as real)
    {
      if err == Nada {
        if result > 1475.0 || result < 1475.0 {
          return ErrorString(FibOutOfBounds);
        } else {
          var f := Fib(Floor(result));
          return lib.show(f);
        }
      } else {
        return ErrorString(err);
      }
    }

    /** `format(input)`: a comma goes in every three characters to the left of the last `.`,
        stopping before the first character (or before the one after a leading `-`). */
    method Format(input: string) returns (r: string)
      requires input != ""
      ensures r == Formatting.Format(input)
      ensures Formatting.Strip(r) == Formatting.Strip(input)
    {
      var body := input;
      var e := "";
      var epos := FindLastOf(body, 'e');
      if epos > 0 {
        e := body[epos..];
        body := body[..epos];
      }
      var found := FindLastOf(body, '.');
      if found <= 0 {
        found := |body|;
      }
      var lim := if body[0] == '-' then 1 else 0;
      ghost var mantissa := body;
      body := InsertCommas(body, found, lim);
      if epos > 0 {
        body := body + e;
      }
      r := body;
      Formatting.FormatAssembled(input, mantissa, found, lim, e);
      Formatting.FormatStrips(input);
    }

    /** The comma loop of `format`: going left from `found` three characters at a time, a
        comma goes in while more than `lim` characters are left in front. */
    method InsertCommas(body: string, found: nat, lim: nat) returns (r: string)
      requires found <= |body|
      ensures r == Formatting.Group(body[..found], lim) + body[found..]
    {
      r := body;
      ghost var head, rest := body[..found], body[found..];
      ghost var tail := "";
      var i := found - 3;
      Formatting.Unsplit(body, found, lim);
      while i > lim
        invariant 0 <= i + 3 <= |head|
        invariant r == head[..i + 3] + tail + rest
        invariant Formatting.Group(head, lim) == Formatting.Group(head[..i + 3], lim) + tail
        decreases i
      {
        Formatting.GroupStep(head, i + 3, lim, tail, rest, r);
        r := r[..i] + "," + r[i..];
        tail := "," + head[i..i + 3] + tail;
        i := i - 3;
      }
      Formatting.GroupShort(head[..i + 3], lim);
    }

    /** The leaf branch of `calculate`: `bin2dec`, `oct2dec` or `hex2dec` under a base
        function, the constant `e`, or `strtod`. */
    method LeafValue(formula: string, operFunc: int) returns (res: real)
      modifies this
      ensures Eval(Mach(), res) == Leaf(lib, old(Mach()), formula, operFunc)
      ensures OnlyMachine()
    {
      if operFunc == FuncBin {
        res := ToDecimal(Base2, formula);
      } else if operFunc == FuncOct {
        res := ToDecimal(Base8, formula);
      } else if operFunc == FuncHex {
        res := ToDecimal(Base16, formula);
      } else if formula == "e" {
        res := Exp;
      } else {
        var out := lib.strtod(formula);
        res := out.value;
        errno := Sticky(errno, out.errno);
      }
    }

    /** The scanning `for` loop of `calculate`: one pass over `formula` and the end marker,
        recording terms into slots and operators as it goes. */
    method ScanSlots(formula: string, level: int) returns (st: Scan)
      ensures st == ScanFrom(formula, level, Start, 0)
    {
      st := Start;
      var i := 0;
      while i <= |formula|
        invariant i <= |formula| + 1
        invariant ScanFrom(formula, level, st, i) == ScanFrom(formula, level, Start, 0)
        decreases |formula| + 1 - i
      {
        if i == |formula| {
          st := Record(level, st.(flags := st.flags[st.o := level + 1]), Nul);
          i := i + 1;
        } else {
          var l := Lex(formula, st, i);
          st := if l.record then Record(level, l.st, formula[i]) else l.st;
          i := l.next;
        }
      }
    }

    /** One case of the fold's `switch`: `stop` when division or modulo by zero or a shift of a
        non-integral value sets the error and ends the fold with -1. */
    method CombineStep(res: real, c: char, tmp: real) returns (r: real, stop: bool)
      modifies this
      ensures var step := Combine(lib, res, c, tmp);
        stop == step.Stop?
        && (stop ==> r == -1.0 && Mach() == old(Mach()).(err := step.err))
        && (!stop ==> r == step.value && Mach() == old(Mach()).(errno := Sticky(old(errno), step.errno)))
      ensures OnlyMachine()
    {
      stop := false;
      r := res;
      if c == '-' {
        r := res - tmp;
      } else if c == '+' {
        r := res + tmp;
      } else if c == '*' {
        r := res * tmp;
      } else if c == '%' || c == '/' {
        if tmp == 0.0 {
          err := Div0;
          r, stop := -1.0, true;
        } else if c == '%' {
          var out := lib.fmod(res, tmp);
          r := out.value;
          errno := Sticky(errno, out.errno);
        } else {
          r := res / tmp;
        }
      } else if c == '^' {
        var out := lib.powl(res, tmp);
        r := out.value;
        errno := Sticky(errno, out.errno);
      } else if c == '>' || c == '<' {
        if res - Floor(res) as real == 0.0 {
          if c == '<' {
            r := Shl32(ToInt32(res), ToInt32(tmp)) as real;
          } else {
            r := Shr32(ToInt32(res), ToInt32(tmp)) as real;
          }
          assert Floor(r) as real == r;
        } else {
          err := IntBitshift;
          r, stop := -1.0, true;
        }
      }
    }

    /** The fold loop of `calculate`: slot `k` is evaluated and joined to the accumulator by
        `oper[k - 1]`, from the left, until the slots or the operators run out or a step stops
        the fold. */
    method FoldSlots(st: Scan, first: real, fuel: nat) returns (res: real)
      requires fuel > 0
      modifies this
      ensures var f := Fold(lib, old(Mach()), st, first, 1, 0, fuel);
        Mach() == f.m && res == f.value
      ensures OnlyMachine()
      decreases fuel, 1
    {
      res := first;
      ghost var folded := Fold(lib, Mach(), st, first, 1, 0, fuel);
      var k, j := 1, 0;
      while k < st.o && j < st.op
        invariant Fold(lib, Mach(), st, res, k, j, fuel).m == folded.m
        invariant Fold(lib, Mach(), st, res, k, j, fuel).value == folded.value
        invariant OnlyMachine()
        decreases st.o - k
      {
        var stop;
        res, stop := FoldOne(st, res, k, j, fuel);
        if stop {
          k := st.o;
        }
        k, j := k + 1, j + 1;
      }
    }

    /** One pass of the fold loop: evaluate slot `k` one level deeper and combine it into the
        running value with operator `j`; `stop` when an error ends the loop. */
    method FoldOne(st: Scan, res: real, k: int, j: int, fuel: nat) returns (r: real, stop: bool)
      requires fuel > 0 && k < st.o && j < st.op
      modifies this
      ensures var f := Fold(lib, old(Mach()), st, res, k, j, fuel);
        var g := Fold(lib, Mach(), st, r, if stop then st.o + 1 else k + 1, j + 1, fuel);
        g.m == f.m && g.value == f.value
      ensures OnlyMachine()
      decreases fuel, 0
    {
      ghost var m0 := Mach();
      ghost var t := Evaluator.Calculate(lib, m0, At(st.operations, k, ""), At(st.flags, k, 0),
                                         At(st.isf, k, 0), fuel - 1);
      var tmp := Calculate(At(st.operations, k, ""), At(st.flags, k, 0), At(st.isf, k, 0),
                           fuel - 1);
      assert Mach() == t.m && tmp == t.value;
      r, stop := CombineStep(res, At(st.oper, j, Nul), tmp);
      match Combine(lib, res, At(st.oper, j, Nul), t.value) {
        case Stop(e) =>
          FoldStop(lib, m0, st, res, k, j, fuel, t, e);
          FoldDone(lib, Mach(), st, r, st.o + 1, j + 1, fuel);
        case Next(v, e) => FoldNext(lib, m0, st, res, k, j, fuel, t, v, e);
      }
    }

    /** The function-application `switch` and the errno check that ends `calculate`. */
    method ApplyFunction(x: real, f: int) returns (res: real)
      modifies this
      ensures Eval(Mach(), res) == Apply(lib, old(Mach()), x, f)
      ensures OnlyMachine()
    {
      res := x;
      if f > 0 {
        if f == FuncSqrt || 4 <= f <= FuncLog {
          var out := lib.libm(f, res);
          res := out.value;
          errno := Sticky(errno, out.errno);
        } else if f == FuncFloor {
          res := Floor(res) as real;
        } else if f == FuncCeil {
          res := Ceil(res) as real;
        } else if f == FuncAbs || f == FuncFabs {
          if res < 0.0 {
            res := -res;
          }
        } else if f == FuncRound {
          if res - Floor(res) as real >= 0.5 {
            res := Ceil(res) as real;
          } else {
            res := Floor(res) as real;
          }
        } else if f == FuncFact {
          res := Factorial(res);
        }
        if errno != NoErrno {
          if errno == EDomErrno {
            err := EDom;
          } else if errno == ERangeErrno {
            err := ERange;
          } else {
            err := Epic;
          }
          res := 0.0;
        }
      }
    }

    /** `calculate(formula, level, oper_func)`, with `fuel` the recursion budget the source
        does not have. A valid number is a leaf; above level 4 the text is `pi` or goes to
        `strtod`; otherwise the scan splits the formula into slots, the slots are evaluated one
        level up and folded from the left, and a function number applies its function. */
    method Calculate(formula: string, level: int, operFunc: int, fuel: nat) returns (res: real)
      modifies this
      ensures Eval(Mach(), res)
        == Evaluator.Calculate(lib, old(Mach()), formula, level, operFunc, fuel)
      ensures OnlyMachine()
      decreases fuel, 2
    {
      if fuel == 0 {
        exhausted := true;
        return 0.0;
      }
      var valid := IsValidNum(formula);
      if valid {
        res := LeafValue(formula, operFunc);
      } else if level > 4 {
        if formula == "pi" {
          res := Pi;
        } else {
          var out := lib.strtod(formula);
          res := out.value;
          errno := Sticky(errno, out.errno);
        }
      } else {
        var st := ScanSlots(formula, level);
        var first := Calculate(At(st.operations, 0, ""), At(st.flags, 0, 0), At(st.isf, 0, 0),
                               fuel - 1);
        res := FoldSlots(st, first, fuel);
      }
      res := ApplyFunction(res, operFunc);
    }

    /** `parse_vars(found, formula)`: `found` is the position of the last `;`. The declarations
        are split off right to left, then five passes replace each name by its wrapped value
        and a sixth reports a name still present. A replacement loop that would not end sets
        the exhaustion flag instead. */
    method ParseVars(found: nat, raw: string) returns (text: string, hung: bool)
      requires found < |raw|
      modifies this
      ensures var r := Variables.ParseVars(found, raw);
        match r
        case VarsHang => hung && exhausted && err == old(err)
        case VarsOut(t, e) =>
          !hung && text == t && err == (if e == Nada then old(err) else e)
          && exhausted == old(exhausted)
      ensures errno == old(errno) && OnlyMachine()
    {
      hung := false;
      text := raw[found + 1..];
      var tmp := raw[..found];
      var ds := SplitDeclarations(tmp);
      if ds == [] {
        err := SyntaxVars;
        return text, false;
      }
      var e := Expand(text, ds);
      match e {
        case Expanded(t) => text := t;
        case InfLoop(t) =>
          text := t;
          err := SynVarsInfLoop;
        case Diverges =>
          exhausted := true;
          hung := true;
      }
    }

    /** The substitution loop of `parse_vars`: five passes over the declarations, then a guard
        pass that reports a name still present. */
    method Expand(text: string, ds: seq<Decl>) returns (e: Expansion)
      ensures e == Passes(text, ds, 0)
    {
      var s := text;
      var j := 0;
      while j < 5
        invariant 0 <= j <= 5
        invariant Passes(text, ds, 0) == Passes(s, ds, j)
      {
        var r := Pass(s, ds);
        if r.None? {
          return Diverges;
        }
        s := r.value;
        j := j + 1;
      }
      var i := 0;
      while i < |ds|
        invariant 0 <= i <= |ds|
        invariant forall k | 0 <= k < i :: Find(s, ds[k].name) < 0
      {
        if Find(s, ds[i].name) >= 0 {
          return InfLoop(s);
        }
        i := i + 1;
      }
      return Expanded(s);
    }

    /** One pass of the `for` loop: each name in turn is replaced throughout. */
    method Pass(s: string, ds: seq<Decl>) returns (r: Option<string>)
      ensures r == PassFrom(s, ds, 0)
    {
      var t := s;
      var i := 0;
      while i < |ds|
        invariant 0 <= i <= |ds|
        invariant PassFrom(t, ds, i) == PassFrom(s, ds, 0)
      {
        var done;
        t, done := ReplaceName(t, ds[i].name, Wrap(ds[i].value));
        if !done {
          return None;
        }
        i := i + 1;
      }
      return Some(t);
    }

    /** The splitting loop of `parse_vars`: each round takes the value after the last `=` and
        the name after the last `,` before it. */
    method SplitDeclarations(decls: string) returns (ds: seq<Decl>)
      ensures ds == SplitDecls(decls)
    {
      ds := [];
      var tmp := decls;
      var found := FindLastOf(tmp, '=');
      while found > 0
        invariant found == FindLastOf(tmp, '=')
        invariant SplitDecls(decls) == ds + SplitDecls(tmp)
        decreases |tmp|
      {
        ghost var before := tmp;
        var value := tmp[found + 1..];
        tmp := tmp[..found];
        var c := FindLastOf(tmp, ',');
        var d;
        if c > 0 {
          d := Decl(tmp[c + 1..], value);
          tmp := tmp[..c];
        } else {
          d := Decl(tmp, value);
        }
        assert (d, tmp) == Peel(before);
        PeelDecl(before, ds);
        ds := ds + [d];
        found := FindLastOf(tmp, '=');
      }
    }

    /** The inner `while (x >= 0)` loop of `parse_vars`: every occurrence of `name` gives way
        to `w`, first occurrence first. `done` is false when the loop is still going after the
        budget of replacements. */
    method ReplaceName(s: string, name: string, w: string) returns (t: string, done: bool)
      ensures var r := ReplaceAll(s, name, w, Budget(s));
        done == r.Some? && (done ==> t == r.value)
    {
      t := s;
      var budget := Budget(s);
      var x := Find(t, name);
      while x >= 0
        invariant x == Find(t, name)
        invariant ReplaceAll(t, name, w, budget) == ReplaceAll(s, name, w, Budget(s))
        decreases budget
      {
        if budget == 0 {
          return t, false;
        }
        t := Replace(t, x, |name|, w);
        budget := budget - 1;
        x := Find(t, name);
      }
      done := true;
    }

    /** `syntax(formula)`: variables are expanded when a `;` lies past the first character,
        the text is cleaned, and the cleaned text is checked; an accepted formula goes to
        `mFormula`. A variable expansion that would not end sets the exhaustion flag. */
    method Syntax(raw: string) returns (ok: bool)
      modifies this
      ensures match Pipeline.Syntax(old(err), raw)
        case Hangs => exhausted && !ok && formula == "" && err == old(err)
        case Checked(e, k, f) =>
          err == e && ok == k && formula == f && exhausted == old(exhausted)
      ensures errno == old(errno) && result == old(result) && isCompare == old(isCompare)
      ensures list == old(list) && output == old(output)
    {
      formula := "";
      var text, hung := Declare(raw);
      if hung {
        return false;
      }
      ghost var e0 := err;
      var v := Check(text);
      assert Pipeline.Syntax(old(err), raw) == Pipeline.Normalized(e0, text);
      match v {
        case Accept(f) =>
          formula := f;
          return true;
        case Reject(e) =>
          err := e;
          return false;
      }
    }

    /** The variable step of `syntax`: `parse_vars` runs when a `;` lies past the first
        character; otherwise the text is kept. */
    method Declare(raw: string) returns (text: string, hung: bool)
      modifies this
      ensures match Pipeline.Declared(raw)
        case VarsHang => hung && exhausted && err == old(err)
        case VarsOut(t, e) =>
          !hung && text == t && err == (if e == Nada then old(err) else e)
          && exhausted == old(exhausted)
      ensures errno == old(errno) && OnlyMachine()
    {
      text, hung := raw, false;
      var found := FindLastOf(raw, ';');
      if found > 0 {
        text, hung := ParseVars(found, raw);
      }
    }

    /** The clean-up and the checks of `syntax` on text whose variables are expanded: an
        unknown escape, a bad first or last character, a `(` after the last `)`, a bad pair
        of neighbours, unbalanced parentheses or nothing left is an error. */
    method Check(text: string) returns (v: Verdict)
      ensures v == Normalize(text)
    {
      var cleaned := CleanScan(text);
      match cleaned {
        case BadEscape =>
          return Reject(CalcError.Syntax);
        case Cleaned(f, p) =>
          if p == 0 && f != "" {
            if !FirstOk(f[0]) {
              return Reject(SynInvalidChar);
            }
            if TrailingBad(f[|f| - 1]) {
              return Reject(CalcError.Syntax);
            }
            if OpenAfterClose(f) {
              return Reject(SynPar);
            }
            var e := CheckAdjacent(f);
            if e != Nada {
              return Reject(e);
            }
            return Accept(f);
          } else if p != 0 {
            return Reject(SynPar);
          }
          return Reject(Empty);
      }
    }

    /** The clean-up loop of `syntax`: spaces are skipped, a run opened by `\b`, `\o` or `\x`
        keeps its digits, and a character it does not admit closes it and is looked at again
        in decimal mode, where accepted characters are kept lower-cased and parentheses are
        counted. */
    method CleanScan(t: string) returns (r: CleanResult)
      ensures r == Clean(t)
    {
      var out := "";
      var p := 0;
      var m := Dec;
      var i := 0;
      while i < |t|
        invariant 0 <= i <= |t|
        invariant CleanFrom(t, i, m, p, out) == Clean(t)
        decreases |t| - i, if m == Dec then 0 else 1
      {
        var c := t[i];
        if c == ' ' {
          i := i + 1;
        } else if m != Dec {
          if RunDigit(m, c) {
            out := out + [Lower(c)];
            i := i + 1;
          } else {
            out := out + ")";
            m := Dec;
          }
        } else {
          if c == '(' {
            p := p + 1;
          } else if c == ')' {
            p := p - 1;
          }
          if Accepted(c) {
            out := out + [Lower(c)];
            i := i + 1;
          } else if c == '\\' && i + 1 < |t| {
            var e := EscapeMode(t[i + 1]);
            if e == Dec {
              return BadEscape;
            }
            out := out + Prefix(e);
            m := e;
            i := i + 2;
          } else {
            i := i + 1;
          }
        }
      }
      if m != Dec {
        out := out + ")";
      }
      return Cleaned(out, p);
    }

    /** The adjacency loop of `syntax`: an empty pair of parentheses, or an operator followed
        by something that opens no operand and forms no admitted pair, is an error. */
    method CheckAdjacent(f: string) returns (e: CalcError)
      ensures e == AdjFrom(f, 0)
    {
      var i := 0;
      while i + 1 < |f|
        invariant AdjFrom(f, i) == AdjFrom(f, 0)
        decreases |f| - i
      {
        if f[i] == '(' && f[i + 1] == ')' {
          return SynEmptyPar;
        }
        if IsOp(f[i]) {
          if i + 2 < |f| && f[i + 1] == '-' && OperandStart(f[i + 2]) {
            i := i + 3;
            continue;
          }
          if !OperandStart(f[i + 1]) {
            if PairOk(f[i], f[i + 1]) {
              i := i + 2;
              continue;
            }
            return CalcError.Syntax;
          }
        }
        i := i + 1;
      }
      return Nada;
    }

    /** `checkandcompare(formula)`: the formula is cut at its comparators, every piece is
        evaluated with `calculate(piece, 0, 0)` into `mCompRes`, each adjacent pair is compared
        into `mCompare` and printed into `mOutput`, and `mResult` is 1 exactly when the first
        comparison and all the others hold. */
    method CheckAndCompare(f: string)
      requires Valid() && EndsClear(f)
      modifies this, compRes, compare
      ensures var c := Comparison.CheckAndCompare(lib, old(Mach()), f, old(compare[0]), MaxDepth);
        Mach() == c.m && result == c.result && list == c.list && output == c.output
        && compRes[..] == Pipeline.Overwrite(old(compRes[..]), c.compRes)
        && compare[..] == Pipeline.Overwrite(old(compare[..]), c.verdicts)
      ensures isCompare && formula == old(formula)
    {
      ghost var stale := compare[0];
      ghost var m0 := Mach();
      ghost var parts := Split(f);
      ghost var ev := EvalPieces(lib, m0, parts.operands, MaxDepth);
      isCompare := true;
      var cmps := SplitPieces(f);
      Pipeline.OverwriteFront(old(compRes[..]), ev.vals, compRes[..]);
      assert compRes[..|cmps| + 1] == ev.vals;
      CompareValues(cmps);
      assert compare[0] == stale || |cmps| > 0;
      result := ChainResult(|cmps|, stale);
    }

    /** The splitting loop of `checkandcompare`: `find_first_of("<>=")` from the end of the
        last comparator, a `<<` or `>>` stepped over, each piece pushed onto `mList` and
        evaluated into `mCompRes[j]` as soon as it is cut; at most 1000 comparators. */
    method SplitPieces(f: string) returns (cmps: seq<Cmp>)
      requires Valid() && EndsClear(f)
      modifies this, compRes
      ensures var parts := Split(f);
        var ev := EvalPieces(lib, old(Mach()), parts.operands, MaxDepth);
        list == parts.operands && cmps == parts.cmps && Mach() == ev.m && |cmps| <= MaxComparisons
        && compRes[..] == ev.vals + old(compRes[..])[|list|..]
      ensures result == old(result) && formula == old(formula) && isCompare == old(isCompare)
      ensures output == old(output)
    {
      ghost var m0 := Mach();
      ghost var kept := compRes[..];
      list, cmps := [], [];
      var last: nat, j := 0, 0;
      ghost var from: nat := 0;
      var found := NextCmp(f, 0);
      SplitStarts(f, m0, kept);
      while found != -1 && j < MaxComparisons
        invariant Splitting(f, m0, kept, last, from, j, cmps) && found == NextCmp(f, from)
        invariant result == old(result) && formula == old(formula)
        invariant isCompare == old(isCompare) && output == old(output)
        decreases |f| - from
      {
        cmps, last, from, j, found := SplitStep(f, m0, kept, last, from, j, found, cmps);
      }
      CutLast(f, m0, kept, last, from, j, cmps);
    }

    /** One iteration of the splitting loop: a shift pair is stepped over, any other
        comparator cuts a piece. */
    method SplitStep(f: string, ghost m0: Machine, ghost kept: seq<real>, last: nat,
                     ghost from: nat, j: nat, found: int, cmps: seq<Cmp>)
      returns (cmps': seq<Cmp>, last': nat, ghost from': nat, j': nat, found': int)
      requires Valid() && Splitting(f, m0, kept, last, from, j, cmps)
      requires found == NextCmp(f, from) && found != -1 && j < MaxComparisons
      modifies this, compRes
      ensures Splitting(f, m0, kept, last', from', j', cmps') && found' == NextCmp(f, from')
      ensures from < from'
      ensures result == old(result) && formula == old(formula)
      ensures isCompare == old(isCompare) && output == old(output)
    {
      if ShiftPair(f, found) {
        SkipShift(f, m0, kept, last, from, j, cmps);
        cmps', last', from', j' := cmps, last, found + 2, j;
        found' := NextCmp(f, found + 2);
      } else {
        cmps', last' := CutPiece(f, m0, kept, last, from, j, found, cmps);
        j', from' := j + 1, last';
        found' := NextCmp(f, last');
      }
    }

    /** No comparator left, or 1000 of them found: the rest of the formula is the last piece. */
    method CutLast(f: string, ghost m0: Machine, ghost kept: seq<real>, last: nat,
                   ghost from: nat, j: nat, cmps: seq<Cmp>)
      requires Valid() && Splitting(f, m0, kept, last, from, j, cmps)
      requires NextCmp(f, from) == -1 || j >= MaxComparisons
      modifies this, compRes
      ensures var parts := Split(f);
        var ev := EvalPieces(lib, m0, parts.operands, MaxDepth);
        list == parts.operands && cmps == parts.cmps && Mach() == ev.m
        && compRes[..] == ev.vals + kept[|list|..]
      ensures result == old(result) && formula == old(formula) && isCompare == old(isCompare)
      ensures output == old(output)
    {
      ghost var done := list;
      list := list + [f[last..]];
      EvaluateNext(m0, done, f[last..], j);
      LastStep(lib, f, m0, kept, last, from, j, cmps, done, old(Mach()), old(compRes[..]),
               Mach(), compRes[..]);
    }

    /** The state of the splitting loop: `j` pieces and comparators are cut, the current piece
        began at `last` and the search goes on from `from`; the pieces are evaluated in order
        into the front of `mCompRes`, whose other entries are those of `kept`. */
    ghost predicate Splitting(f: string, m0: Machine, kept: seq<real>, last: int, from: int,
                              j: int, cmps: seq<Cmp>)
      reads this, compRes
    {
      SplitState(lib, f, m0, kept, last, from, j, cmps, list, Mach(), compRes[..])
    }

    /** Before the splitting loop nothing is cut and nothing evaluated. */
    lemma SplitStarts(f: string, m0: Machine, kept: seq<real>)
      requires Valid() && EndsClear(f) && list == [] && m0 == Mach() && kept == compRes[..]
      ensures Splitting(f, m0, kept, 0, 0, 0, [])
    {
      assert Split(f) == Parts(list + SplitAt(f, 0, 0, 0).operands, [] + SplitAt(f, 0, 0, 0).cmps);
    }

    /** A shift pair found: the splitting loop goes on after it within the same piece. */
    lemma SkipShift(f: string, m0: Machine, kept: seq<real>, last: nat, from: nat, j: nat,
                    cmps: seq<Cmp>)
      requires Splitting(f, m0, kept, last, from, j, cmps)
      requires NextCmp(f, from) != -1 && j < MaxComparisons && ShiftPair(f, NextCmp(f, from))
      ensures NextCmp(f, from) + 2 <= |f|
      ensures Splitting(f, m0, kept, last, NextCmp(f, from) + 2, j, cmps)
    {
      SplitSkip(f, last, from, j);
    }

    /** A comparator found at `found`: the piece before it goes onto `mList` and is
        evaluated, and the comparator is recorded. */
    method CutPiece(f: string, ghost m0: Machine, ghost kept: seq<real>, last: nat,
                    ghost from: nat, j: nat, found: nat, cmps: seq<Cmp>)
      returns (cmps': seq<Cmp>, next: nat)
      requires Valid() && Splitting(f, m0, kept, last, from, j, cmps)
      requires found == NextCmp(f, from) && j < MaxComparisons && !ShiftPair(f, found)
      modifies this, compRes
      ensures from < next && Splitting(f, m0, kept, next, next, j + 1, cmps')
      ensures result == old(result) && formula == old(formula)
      ensures isCompare == old(isCompare) && output == old(output)
    {
      var c := Classify(f[found], f[found + 1]);
      next := found + |Spelling(c)|;
      ghost var done := list;
      list, cmps' := list + [f[last..found]], cmps + [c];
      EvaluateNext(m0, done, f[last..found], j);
      CutStep(lib, f, m0, kept, last, from, j, cmps, done, old(Mach()), old(compRes[..]), found, c,
              next, Mach(), compRes[..]);
    }

    /** Evaluates `piece` into `mCompRes[j]`, after the `j` pieces of `done`. */
    method EvaluateNext(ghost m0: Machine, ghost done: seq<string>, piece: string, j: nat)
      requires Valid() && |done| == j < compRes.Length
      requires EvalPieces(lib, m0, done, MaxDepth) == Evaluated(Mach(), compRes[..j])
      modifies this, compRes
      ensures EvalPieces(lib, m0, done + [piece], MaxDepth) == Evaluated(Mach(), compRes[..j + 1])
      ensures compRes[j + 1..] == old(compRes[..])[j + 1..]
      ensures OnlyMachine()
    {
      ghost var e := Evaluator.Calculate(lib, Mach(), piece, 0, 0, MaxDepth);
      ghost var before := compRes[..j];
      var v := Calculate(piece, 0, 0, MaxDepth);
      compRes[j] := v;
      assert (done + [piece])[..j] == done;
      assert compRes[..j + 1] == before + [e.value];
    }

    /** The printing and comparing loop of `checkandcompare`: the first value, then each
        comparator and the value after it, formatted; `mCompare[i]` is whether comparator
        `i` holds between values `i` and `i + 1`. */
    method CompareValues(cmps: seq<Cmp>)
      requires Valid() && |cmps| <= MaxComparisons
      modifies this, compare
      ensures var vals := compRes[..|cmps| + 1];
        compare[..] == Pipeline.Overwrite(old(compare[..]), Verdicts(vals, cmps))
        && compare[..|cmps|] == Verdicts(vals, cmps)
        && output == Rendered(lib, vals, cmps, |cmps|)
      ensures Mach() == old(Mach()) && result == old(result) && formula == old(formula)
      ensures isCompare == old(isCompare) && list == old(list)
    {
      ghost var vals := compRes[..|cmps| + 1];
      ghost var verdicts := Verdicts(vals, cmps);
      output := "";
      var i := 0;
      while i < |cmps|
        invariant 0 <= i <= |cmps|
        invariant output == Rendered(lib, vals, cmps, i)
        invariant compare[..] == verdicts[..i] + old(compare[..])[i..]
        invariant Mach() == old(Mach()) && result == old(result) && formula == old(formula)
        invariant isCompare == old(isCompare) && list == old(list)
      {
        ghost var before := compare[..];
        CompareAt(cmps, i, vals);
        Pipeline.OverwriteNext(verdicts, old(compare[..]), i, before, compare[..]);
        i := i + 1;
      }
      assert verdicts[..i] == verdicts;
      Pipeline.OverwriteFront(old(compare[..]), verdicts, compare[..]);
    }

    /** One pass of the printing and comparing loop. */
    method CompareAt(cmps: seq<Cmp>, i: nat, ghost vals: seq<real>)
      requires Valid() && i < |cmps| <= MaxComparisons && vals == compRes[..|cmps| + 1]
      requires output == Rendered(lib, vals, cmps, i)
      modifies this, compare
      ensures output == Rendered(lib, vals, cmps, i + 1)
      ensures compare[..] == old(compare[..])[i := Holds(cmps[i], vals[i], vals[i + 1])]
      ensures Mach() == old(Mach()) && result == old(result) && formula == old(formula)
      ensures isCompare == old(isCompare) && list == old(list)
    {
      PrintAt(cmps, i, vals, compRes[0], compRes[i + 1]);
      compare[i] := Holds(cmps[i], compRes[i], compRes[i + 1]);
    }

    /** The printing half of one pass: the first value before the first comparator, then the
        comparator and the value after it, each value formatted. */
    method PrintAt(cmps: seq<Cmp>, i: nat, ghost vals: seq<real>, first: real, next: real)
      requires |vals| == |cmps| + 1 && i < |cmps| && first == vals[0] && next == vals[i + 1]
      requires output == Rendered(lib, vals, cmps, i)
      modifies this
      ensures output == Rendered(lib, vals, cmps, i + 1)
      ensures Mach() == old(Mach()) && result == old(result) && formula == old(formula)
      ensures isCompare == old(isCompare) && list == old(list)
    {
      RenderedStep(lib, vals, cmps, i, output);
      if i == 0 {
        var shown := Format(lib.show(first));
        output := output + shown;
      }
      output := output + Symbol(cmps[i]);
      var shown := Format(lib.show(next));
      output := output + shown;
    }

    /** The closing loop of `checkandcompare`: the result is 1 when `mCompare[0]` and every
        later verdict up to the number of comparators hold. With no comparator it is
        `mCompare[0]` as an earlier comparison left it. */
    method ChainResult(n: nat, ghost stale: bool) returns (r: real)
      requires Valid() && n <= MaxComparisons && (n == 0 ==> compare[0] == stale)
      ensures r == ChainValue(compare[..n], stale)
    {
      var holds := compare[0];
      var i := 1;
      while i < n
        invariant n == 0 ==> holds == stale
        invariant n > 0 ==> 1 <= i <= n && (holds <==> forall k | 0 <= k < i :: compare[k])
      {
        if !holds {
          break;
        }
        if !compare[i] {
          holds := false;
        }
        i := i + 1;
      }
      r := if holds then 1.0 else 0.0;
      if n > 0 {
        assert forall k | 0 <= k < n :: compare[..n][k] == compare[k];
      }
    }

    /** `calcthis(formula)`: `mError`, `mFormula`, `mResult` and `mIsCompare` are reset; a
        formula `syntax` accepts is compared when it holds a `=` past the first character or
        a `>` or `<` past it that is not part of a shift, and calculated at level 0 otherwise. */
    method CalcThis(raw: string)
      requires Valid()
      modifies this, compRes, compare
      ensures State() == Pipeline.CalcThis(lib, old(State()), raw)
    {
      err, formula, result, isCompare := Nada, "", 0.0, false;
      var ok := Syntax(raw);
      if ok {
        Dispatch();
      }
    }

    /** The end of `calcthis` once `syntax` accepted `mFormula`. */
    method Dispatch()
      requires Valid() && EndsClear(formula)
      modifies this, compRes, compare
      ensures State() == Pipeline.Dispatch(lib, old(State()))
    {
      var e := FindChar(formula, '=');
      var g := SkipShifts(formula, '>', FindChar(formula, '>'));
      var l := SkipShifts(formula, '<', FindChar(formula, '<'));
      if e > 0 || g > 0 || l > 0 {
        CheckAndCompare(formula);
      } else {
        result := Calculate(formula, 0, 0, MaxDepth);
      }
    }

    /** The `while (check && g > 0)` loops of `calcthis`: from the first `c` at `g`, a pair
        `cc` is a shift and the search goes on past it. */
    method SkipShifts(f: string, c: char, g: int) returns (r: int)
      requires g == -1 || (0 <= g < |f| && f[g] == c)
      requires f == [] || f[|f| - 1] != c
      ensures r == Pipeline.Unpaired(f, c, g)
    {
      r := g;
      var check := true;
      while check && r > 0
        invariant r == -1 || (0 <= r < |f| && f[r] == c)
        invariant Pipeline.Unpaired(f, c, r) == Pipeline.Unpaired(f, c, g)
        invariant !check ==> Pipeline.Unpaired(f, c, r) == r
        decreases if r < 0 then 0 else |f| + 1 - r, check
      {
        if f[r + 1] == c {
          r := FindFirstOf(f, {c}, r + 2);
        } else {
          check := false;
        }
      }
    }
  }
}
