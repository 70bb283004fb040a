/** `checkandcompare`: the formula is cut at its comparators `< > = <> <= >= ==` (a `<<` or
    `>>` is a shift and is stepped over), every piece is evaluated, each adjacent pair is
    compared, and the result is 1 when every comparison holds and 0 otherwise. */
module Comparison {
  import opened CalcErrors
  import opened CLib
  import opened Text
  import opened Evaluator
  import opened Formatting

  /** The comparators, numbered as the source's `type` 0 to 6. */
  datatype Cmp = Lt | Gt | Eq | Ne | Le | Ge | EqEq

  const CmpChars: set<char> := {'<', '>', '='}

  /** The loop stops looking for comparators after this many. */
  const MaxComparisons: nat := 1000

  /** How a comparator is spelled in a formula. */
  function Spelling(c: Cmp): (t: string)
    ensures 1 <= |t| <= 2 && t[0] in CmpChars
  {
    match c
    case Lt => "<"
    case Gt => ">"
    case Eq => "="
    case Ne => "<>"
    case Le => "<="
    case Ge => ">="
    case EqEq => "=="
  }

  /** The two-character comparators. */
  predicate IsPair(a: char, b: char)
  {
    (a == '<' && (b == '>' || b == '=')) || (a == '>' && b == '=') || (a == '=' && b == '=')
  }

  /** The comparator starting with `a` when `b` follows: the two-character one whenever
      `a b` spells one, the one-character one otherwise. */
  function Classify(a: char, b: char): (c: Cmp)
    requires a in CmpChars
    ensures Spelling(c)[0] == a
    ensures |Spelling(c)| == 2 <==> IsPair(a, b)
    ensures |Spelling(c)| == 2 ==> Spelling(c)[1] == b
  {
    if a == '<' then (if b == '>' then Ne else if b == '=' then Le else Lt)
    else if a == '>' then (if b == '=' then Ge else Gt)
    else (if b == '=' then EqEq else Eq)
  }

  /** A `<<` or `>>` at `k`. */
  predicate ShiftPair(f: string, k: nat)
    requires k + 1 < |f|
  {
    (f[k] == '<' || f[k] == '>') && f[k + 1] == f[k]
  }

  /** The formula does not end in a comparator character, so every comparator character has a
      successor to look at (the source reads it unchecked). */
  predicate EndsClear(f: string)
  {
    f == [] || f[|f| - 1] !in CmpChars
  }

  /** `f.find_first_of("<>=", from)`. */
  function NextCmp(f: string, from: nat): (r: int)
    ensures r == -1 || (from <= r < |f| && f[r] in CmpChars)
    decreases |f| - from
  {
    if from >= |f| then -1 else if f[from] in CmpChars then from else NextCmp(f, from + 1)
  }

  /** Nothing before the comparator character `NextCmp` finds is one. */
  lemma {:induction false} NextCmpFirst(f: string, from: nat)
    ensures var r := NextCmp(f, from);
      forall k | from <= k < (if r == -1 then |f| else r) :: f[k] !in CmpChars
    decreases |f| - from
  {
    if from < |f| && f[from] !in CmpChars {
      NextCmpFirst(f, from + 1);
    }
  }

  /** The pieces of a formula and the comparators between them. */
  datatype Parts = Parts(operands: seq<string>, cmps: seq<Cmp>)

  /** The splitting loop: the current piece began at `last`, the search goes on from `from`,
      and `j` comparators were found so far. */
  function SplitFrom(f: string, last: nat, from: nat, j: nat): (r: Parts)
    requires last <= from <= |f| && EndsClear(f)
    ensures |r.operands| == |r.cmps| + 1
    decreases |f| - from
  {
    var found := NextCmp(f, from);
    if found == -1 || j >= MaxComparisons then Parts([f[last..]], [])
    else if ShiftPair(f, found) then SplitFrom(f, last, found + 2, j)
    else
      var c := Classify(f[found], f[found + 1]);
      var next := found + |Spelling(c)|;
      var rest := SplitFrom(f, next, next, j + 1);
      Parts([f[last..found]] + rest.operands, [c] + rest.cmps)
  }

  function Split(f: string): (r: Parts)
    requires EndsClear(f)
    ensures |r.operands| == |r.cmps| + 1
  {
    SplitFrom(f, 0, 0, 0)
  }

  /** The pieces put back together with their comparators: the partner of `Split`. */
  function Join(ops: seq<string>, cmps: seq<Cmp>): string
    requires |ops| == |cmps| + 1
  {
    if cmps == [] then ops[0] else ops[0] + Spelling(cmps[0]) + Join(ops[1..], cmps[1..])
  }

  /** Splitting loses nothing: the pieces and comparators join back into the formula. */
  lemma {:induction false} SplitFromJoins(f: string, last: nat, from: nat, j: nat)
    requires last <= from <= |f| && EndsClear(f)
    ensures JoinsBack(f, last, from, j)
    decreases |f| - from, 1
  {
    var found := NextCmp(f, from);
    if found == -1 || j >= MaxComparisons {
      assert JoinsBack(f, last, from, j);
    } else if ShiftPair(f, found) {
      SkipJoins(f, last, from, j);
    } else {
      CmpJoins(f, last, from, j);
    }
  }

  predicate JoinsBack(f: string, last: nat, from: nat, j: nat)
    requires last <= from <= |f| && EndsClear(f)
  {
    var r := SplitFrom(f, last, from, j);
    Join(r.operands, r.cmps) == f[last..]
  }

  /** A shift pair is stepped over and stays inside the piece. */
  lemma {:induction false} SkipJoins(f: string, last: nat, from: nat, j: nat)
    requires last <= from <= |f| && EndsClear(f)
    requires var found := NextCmp(f, from);
      found != -1 && j < MaxComparisons && ShiftPair(f, found)
    ensures JoinsBack(f, last, from, j)
    decreases |f| - from, 0
  {
    SplitFromJoins(f, last, NextCmp(f, from) + 2, j);
  }

  /** A comparator ends the piece and is joined back between it and the rest. */
  lemma {:induction false} CmpJoins(f: string, last: nat, from: nat, j: nat)
    requires last <= from <= |f| && EndsClear(f)
    requires var found := NextCmp(f, from);
      found != -1 && j < MaxComparisons && !ShiftPair(f, found)
    ensures JoinsBack(f, last, from, j)
    decreases |f| - from, 0
  {
    var found := NextCmp(f, from);
    var c := Classify(f[found], f[found + 1]);
    var next := found + |Spelling(c)|;
    SplitFromJoins(f, next, next, j + 1);
    var rest := SplitFrom(f, next, next, j + 1);
    SplitFromCmp(f, last, from, j, found, c, next, rest);
    CmpSpelled(f, found);
    JoinStep(f, last, found, c, rest.operands, rest.cmps);
  }

  /** A comparator found: it is spelled by the characters at `found`, and it comes first. */
  lemma {:induction false} SplitFromCmp(f: string, last: nat, from: nat, j: nat, found: nat, c: Cmp,
                                        next: nat, rest: Parts)
    requires last <= from <= |f| && EndsClear(f)
    requires found == NextCmp(f, from) && j < MaxComparisons && !ShiftPair(f, found)
    requires c == Classify(f[found], f[found + 1]) && next == found + |Spelling(c)|
    requires rest == SplitFrom(f, next, next, j + 1)
    ensures SplitAt(f, last, from, j) == Parts([f[last..found]] + rest.operands, [c] + rest.cmps)
  {
  }

  /** `SplitFrom` under a name of its own: a proof about one step of the loop states its goal
      with it so that the solver unfolds the loop only once. */
  function SplitAt(f: string, last: nat, from: nat, j: nat): (r: Parts)
    requires last <= from <= |f| && EndsClear(f)
  {
    SplitFrom(f, last, from, j)
  }

  /** The splitting loop after a comparator: the piece before it and the comparator join the
      ones found so far, and the loop goes on after it. */
  lemma {:induction false} SplitTake(f: string, last: nat, from: nat, j: nat, found: nat, c: Cmp,
                                     next: nat, ops: seq<string>, cmps: seq<Cmp>)
    requires last <= from <= |f| && EndsClear(f)
    requires found == NextCmp(f, from) && j < MaxComparisons && !ShiftPair(f, found)
    requires c == Classify(f[found], f[found + 1]) && next == found + |Spelling(c)|
    ensures next <= |f|
    ensures var r, rest := SplitAt(f, last, from, j), SplitAt(f, next, next, j + 1);
      ops + r.operands == (ops + [f[last..found]]) + rest.operands
      && cmps + r.cmps == (cmps + [c]) + rest.cmps
  {
    var rest := SplitFrom(f, next, next, j + 1);
    SplitFromCmp(f, last, from, j, found, c, next, rest);
    assert ops + ([f[last..found]] + rest.operands) == (ops + [f[last..found]]) + rest.operands;
    assert cmps + ([c] + rest.cmps) == (cmps + [c]) + rest.cmps;
  }

  /** The splitting loop steps over a shift pair. */
  lemma {:induction false} SplitSkip(f: string, last: nat, from: nat, j: nat)
    requires last <= from <= |f| && EndsClear(f)
    requires var found := NextCmp(f, from);
      found != -1 && j < MaxComparisons && ShiftPair(f, found)
    ensures NextCmp(f, from) + 2 <= |f|
    ensures SplitAt(f, last, from, j) == SplitAt(f, last, NextCmp(f, from) + 2, j)
  {
  }

  /** The splitting loop ends when no comparator is left or enough were found. */
  lemma {:induction false} SplitEnd(f: string, last: nat, from: nat, j: nat)
    requires last <= from <= |f| && EndsClear(f)
    requires NextCmp(f, from) == -1 || j >= MaxComparisons
    ensures SplitAt(f, last, from, j) == Parts([f[last..]], [])
  {
  }

  /** The comparator found is spelled by the characters at `found`. */
  lemma {:induction false} CmpSpelled(f: string, found: nat)
    requires found + 1 < |f| && f[found] in CmpChars
    ensures var c := Classify(f[found], f[found + 1]);
      Spelling(c) == f[found..found + |Spelling(c)|]
  {
  }

  /** One comparator more in front of a joined tail. */
  lemma {:induction false} JoinStep(f: string, last: nat, found: nat, c: Cmp, ops: seq<string>, cmps: seq<Cmp>)
    requires last <= found && found + |Spelling(c)| <= |f| && |ops| == |cmps| + 1
    requires Spelling(c) == f[found..found + |Spelling(c)|]
    requires Join(ops, cmps) == f[found + |Spelling(c)|..]
    ensures Join([f[last..found]] + ops, [c] + cmps) == f[last..]
  {
    var next := found + |Spelling(c)|;
    var x := f[last..found];
    var all, allc := [x] + ops, [c] + cmps;
    assert allc != [] && all[0] == x && all[1..] == ops && allc[0] == c && allc[1..] == cmps;
    assert Join(all, allc) == x + Spelling(c) + Join(ops, cmps);
    assert f[last..] == x + f[found..next] + f[next..];
  }

  lemma {:induction false} SplitJoins(f: string)
    requires EndsClear(f)
    ensures Join(Split(f).operands, Split(f).cmps) == f
  {
    SplitFromJoins(f, 0, 0, 0);
    assert f[0..] == f;
  }

  /** Comparator characters that only occur as `<<` or `>>` pairs. */
  predicate Paired(t: string)
    decreases |t|
  {
    if t == [] then true
    else if t[0] !in CmpChars then Paired(t[1..])
    else |t| >= 2 && (t[0] == '<' || t[0] == '>') && t[1] == t[0] && Paired(t[2..])
  }

  lemma {:induction false} PairedAppend(a: string, b: string)
    requires Paired(a) && Paired(b)
    ensures Paired(a + b)
    decreases |a|
  {
    if a == [] {
      assert a + b == b;
    } else if a[0] !in CmpChars {
      assert (a + b)[1..] == a[1..] + b;
      PairedAppend(a[1..], b);
    } else {
      assert (a + b)[2..] == a[2..] + b;
      PairedAppend(a[2..], b);
    }
  }

  lemma {:induction false} PlainPaired(t: string)
    requires forall k | 0 <= k < |t| :: t[k] !in CmpChars
    ensures Paired(t)
    decreases |t|
  {
    if t != [] {
      PlainPaired(t[1..]);
    }
  }

  /** The stretch `f[from..found]` before the next comparator character holds none. */
  lemma {:induction false} ClearStretch(f: string, last: nat, from: nat, to: nat)
    requires last <= from <= to <= |f|
    requires Paired(f[last..from])
    requires forall k | from <= k < to :: f[k] !in CmpChars
    ensures Paired(f[last..to])
  {
    PlainPaired(f[from..to]);
    PairedAppend(f[last..from], f[from..to]);
    assert f[last..from] + f[from..to] == f[last..to];
  }

  /** The pieces from `last` on hold no comparator, only shift pairs: every piece but the last,
      and the last too unless the comparator limit was reached. */
  predicate PiecesPaired(f: string, last: nat, from: nat, j: nat)
    requires last <= from <= |f| && EndsClear(f)
  {
    var r := SplitAt(f, last, from, j);
    (forall i | 0 <= i < |r.cmps| :: Paired(r.operands[i]))
    && (j + |r.cmps| < MaxComparisons ==> Paired(r.operands[|r.cmps|]))
  }

  lemma {:induction false} SplitFromPaired(f: string, last: nat, from: nat, j: nat)
    requires last <= from <= |f| && EndsClear(f) && Paired(f[last..from])
    ensures PiecesPaired(f, last, from, j)
    decreases |f| - from, 1
  {
    var found := NextCmp(f, from);
    if found == -1 || j >= MaxComparisons {
      if found == -1 {
        NextCmpFirst(f, from);
        ClearStretch(f, last, from, |f|);
        assert f[last..|f|] == f[last..];
      }
    } else if ShiftPair(f, found) {
      SkipPaired(f, last, from, j);
    } else {
      CmpPaired(f, last, from, j);
    }
  }

  lemma {:induction false} SkipPaired(f: string, last: nat, from: nat, j: nat)
    requires last <= from <= |f| && EndsClear(f) && Paired(f[last..from])
    requires var found := NextCmp(f, from);
      found != -1 && j < MaxComparisons && ShiftPair(f, found)
    ensures PiecesPaired(f, last, from, j)
    decreases |f| - from, 0
  {
    var found := NextCmp(f, from);
    NextCmpFirst(f, from);
    ClearStretch(f, last, from, found);
    PairExtends(f, last, found);
    SplitFromPaired(f, last, found + 2, j);
  }

  lemma {:induction false} PairExtends(f: string, last: nat, found: nat)
    requires last <= found && found + 1 < |f| && ShiftPair(f, found) && Paired(f[last..found])
    ensures Paired(f[last..found + 2])
  {
    var pair := f[found..found + 2];
    assert Paired(pair) by {
      assert pair[2..] == [];
    }
    PairedAppend(f[last..found], pair);
    assert f[last..found] + pair == f[last..found + 2];
  }

  lemma {:induction false} CmpPaired(f: string, last: nat, from: nat, j: nat)
    requires last <= from <= |f| && EndsClear(f) && Paired(f[last..from])
    requires var found := NextCmp(f, from);
      found != -1 && j < MaxComparisons && !ShiftPair(f, found)
    ensures PiecesPaired(f, last, from, j)
    decreases |f| - from, 0
  {
    var found := NextCmp(f, from);
    NextCmpFirst(f, from);
    ClearStretch(f, last, from, found);
    var c := Classify(f[found], f[found + 1]);
    var next := found + |Spelling(c)|;
    assert f[next..next] == [];
    SplitFromPaired(f, next, next, j + 1);
    var rest := SplitFrom(f, next, next, j + 1);
    SplitFromCmp(f, last, from, j, found, c, next, rest);
    PairedStep(f[last..found], c, j, rest, SplitAt(f, last, from, j));
  }

  /** A paired piece in front of paired pieces. */
  lemma {:induction false} PairedStep(x: string, c: Cmp, j: nat, rest: Parts, r: Parts)
    requires |rest.operands| == |rest.cmps| + 1 && Paired(x)
    requires (forall i | 0 <= i < |rest.cmps| :: Paired(rest.operands[i]))
      && (j + 1 + |rest.cmps| < MaxComparisons ==> Paired(rest.operands[|rest.cmps|]))
    requires r == Parts([x] + rest.operands, [c] + rest.cmps)
    ensures (forall i | 0 <= i < |r.cmps| :: Paired(r.operands[i]))
      && (j + |r.cmps| < MaxComparisons ==> Paired(r.operands[|r.cmps|]))
  {
    forall i | 0 <= i < |r.cmps|
      ensures Paired(r.operands[i])
    {
      if i > 0 {
        assert r.operands[i] == rest.operands[i - 1];
      }
    }
    assert r.operands[|r.cmps|] == rest.operands[|rest.cmps|];
  }

  /** In every piece of a split formula the comparator characters are shift pairs. */
  lemma {:induction false} SplitPaired(f: string)
    requires EndsClear(f)
    ensures var r := Split(f);
      (forall i | 0 <= i < |r.cmps| :: Paired(r.operands[i]))
      && (|r.cmps| < MaxComparisons ==> Paired(r.operands[|r.cmps|]))
  {
    assert f[0..0] == [];
    SplitFromPaired(f, 0, 0, 0);
  }

  /** A formula without comparator characters is a single piece. */
  lemma {:induction false} SplitPlain(f: string)
    requires forall k | 0 <= k < |f| :: f[k] !in CmpChars
    ensures EndsClear(f) && Split(f) == Parts([f], [])
  {
    NoCmp(f, 0);
  }

  lemma {:induction false} NoCmp(f: string, from: nat)
    requires forall k | 0 <= k < |f| :: f[k] !in CmpChars
    ensures NextCmp(f, from) == -1
    decreases |f| - from
  {
    if from < |f| {
      NoCmp(f, from + 1);
    }
  }

  /** Whether `x c y` holds. */
  predicate Holds(c: Cmp, x: real, y: real)
  {
    match c
    case Lt => x < y
    case Gt => x > y
    case Eq => x == y
    case Ne => x != y
    case Le => x <= y
    case Ge => x >= y
    case EqEq => x == y
  }

  /** The machine after the pieces are evaluated left to right, and their values. */
  datatype Evaluated = Evaluated(m: Machine, vals: seq<real>)

  /** Every piece goes through `calculate(piece, 0, 0)`, in order. */
  function EvalPieces(lib: Lib, m: Machine, ops: seq<string>, fuel: nat): (r: Evaluated)
    ensures |r.vals| == |ops|
    ensures m.exhausted ==> r.m.exhausted
    ensures m.errno != NoErrno ==> r.m.errno != NoErrno
  {
    if ops == [] then Evaluated(m, [])
    else
      var pre := EvalPieces(lib, m, ops[..|ops| - 1], fuel);
      var e := Calculate(lib, pre.m, ops[|ops| - 1], 0, 0, fuel);
      Evaluated(e.m, pre.vals + [e.value])
  }

  /** `mCompare[i]` for each comparator. */
  function Verdicts(vals: seq<real>, cmps: seq<Cmp>): (v: seq<bool>)
    requires |vals| == |cmps| + 1
    ensures |v| == |cmps|
    ensures forall i | 0 <= i < |cmps| :: v[i] == Holds(cmps[i], vals[i], vals[i + 1])
  {
    seq(|cmps|, i requires 0 <= i < |cmps| => Holds(cmps[i], vals[i], vals[i + 1]))
  }

  /** `mResult`: 1 when the first verdict and all the others hold. With no comparator the
      source reads the `mCompare[0]` a previous comparison left, given here as `stale`. */
  function ChainValue(verdicts: seq<bool>, stale: bool): (r: real)
    ensures r == 1.0 || r == 0.0
  {
    if verdicts == [] then (if stale then 1.0 else 0.0)
    else if forall i | 0 <= i < |verdicts| :: verdicts[i] then 1.0 else 0.0
  }

  /** A chain of comparisons is true exactly when each adjacent pair satisfies its comparator:
      `a < b < c` is `a < b && b < c`. */
  lemma {:induction false} ChainMeansEveryPair(vals: seq<real>, cmps: seq<Cmp>, stale: bool)
    requires |vals| == |cmps| + 1 && |cmps| >= 1
    ensures ChainValue(Verdicts(vals, cmps), stale) == 1.0 <==>
      forall i | 0 <= i < |cmps| :: Holds(cmps[i], vals[i], vals[i + 1])
    ensures ChainValue(Verdicts(vals, cmps), stale) == 0.0 <==>
      exists i | 0 <= i < |cmps| :: !Holds(cmps[i], vals[i], vals[i + 1])
  {
    var v := Verdicts(vals, cmps);
    if ChainValue(v, stale) == 0.0 {
      var i :| 0 <= i < |v| && !v[i];
      assert !Holds(cmps[i], vals[i], vals[i + 1]);
    }
  }

  /** How the source prints one comparator between two values. */
  function Symbol(c: Cmp): string
  {
    " " + Spelling(c) + " "
  }

  /** `mOutput` after the first `n` comparisons: the first value, then each comparator and the
      value after it, every value printed and formatted. Nothing is printed without a
      comparator. */
  function Rendered(lib: Lib, vals: seq<real>, cmps: seq<Cmp>, n: nat): string
    requires |vals| == |cmps| + 1 && n <= |cmps|
  {
    if n == 0 then ""
    else
      (if n == 1 then Format(lib.show(vals[0])) else Rendered(lib, vals, cmps, n - 1))
      + Symbol(cmps[n - 1]) + Format(lib.show(vals[n]))
  }

  /** One more comparator printed: the first value goes in front of the first one. */
  lemma {:induction false} RenderedStep(lib: Lib, vals: seq<real>, cmps: seq<Cmp>, n: nat, out: string)
    requires |vals| == |cmps| + 1 && n < |cmps| && out == Rendered(lib, vals, cmps, n)
    ensures Rendered(lib, vals, cmps, n + 1)
      == (if n == 0 then out + Format(lib.show(vals[0])) else out) + Symbol(cmps[n])
         + Format(lib.show(vals[n + 1]))
  {
    if n == 0 {
      assert out + Format(lib.show(vals[0])) == Format(lib.show(vals[0]));
    }
  }

  /** The comparison of a formula that does not end in a comparator character. */
  datatype Compared = Compared(m: Machine, result: real, list: seq<string>, compRes: seq<real>,
                               verdicts: seq<bool>, output: string)

  /** `checkandcompare(f)` on machine `m`; `stale` stands for `mCompare[0]` before the call. */
  function CheckAndCompare(lib: Lib, m: Machine, f: string, stale: bool, fuel: nat)
    : (r: Compared)
    requires EndsClear(f)
    ensures |r.compRes| == |r.list| == |r.verdicts| + 1
    ensures m.errno != NoErrno ==> r.m.errno != NoErrno
    ensures |r.verdicts| >= 1 ==>
      (r.result == 1.0 <==> forall i | 0 <= i < |r.verdicts| :: r.verdicts[i])
  {
    var parts := Split(f);
    var ev := EvalPieces(lib, m, parts.operands, fuel);
    var v := Verdicts(ev.vals, parts.cmps);
    Compared(ev.m, ChainValue(v, stale), parts.operands, ev.vals, v,
             Rendered(lib, ev.vals, parts.cmps, |parts.cmps|))
  }
}
