/** How `calculate` gives `*`, `/`, `%` and `^` precedence over `+` and `-`, and
    parentheses precedence over all of them. At level 0 such an operator after a term that
    follows a `+` or `-` does not make a slot: the term and the rest of the product stay one
    slot, flagged level 1, so `2+3*4` is `2+(3*4)`. When the formula starts with a chain of
    them, every operator after the first is taken back into the current term, and at the end
    the whole term is regrouped with the first numeral, so the chain groups to the right:
    `8/4/2` is `8/(4/2)`. A group in parentheses at depth 0 becomes one slot flagged level
    0, so its contents are evaluated from the lowest level again. */
module Precedence {
  import opened CLib
  import opened Text
  import opened Lexicon
  import opened Evaluator
  import opened Chains

  /** The scanner at depth 0 inside a term past slot 0 whose operators are taken back as they
      come, so that a tight operator joins the term. */
  predicate InTerm(st: Scan)
  {
    st.p == 0 && 0 < st.o < 999 && st.op >= st.o
  }

  /** Such a term that follows a `+` or `-` at level 0: it is recorded as a slot of its own. */
  predicate InProduct(st: Scan)
  {
    InTerm(st) && Additive(At(st.oper, st.op - 1, Nul))
  }

  /** `r` holds the product text `t` in slot `st.o`, flagged level 1, with the slots and
      operators before it as `st` had them. */
  ghost predicate ProductRecorded(st: Scan, r: Scan, t: string)
  {
    r.o == st.o + 1 && r.op == st.op && r.isf == st.isf
    && At(r.operations, st.o, "") == t && At(r.flags, st.o, 0) == 1
    && (forall k | k < st.o :: At(r.operations, k, "") == At(st.operations, k, ""))
    && (forall k | k < st.op :: At(r.oper, k, Nul) == At(st.oper, k, Nul))
  }

  /** A tight operator inside such a term joins it: the operator is pushed and taken back,
      and appended to the current term. */
  lemma {:induction false} TightStep(f: string, st: Scan, i: nat)
    requires i < |f| && Tight(f[i]) && st.s != [] && InTerm(st)
    ensures Scanned(f, 0, st, i)
      == Scanned(f, 0, st.(oper := st.oper[st.op := f[i]], s := st.s + [f[i]]), i + 1)
  {
    var c := f[i];
    assert c in "^%/*+";
    LexClasses(f, st, i);
    TightRecord(st, c);
    ScanOne(f, 0, st, i);
  }

  /** Recording at a tight operator inside such a term takes the operator back and appends
      it to the term. */
  lemma {:induction false} TightRecord(st: Scan, c: char)
    requires Tight(c) && st.s != [] && InTerm(st)
    ensures Record(0, PushOp(st, c), c) == st.(oper := st.oper[st.op := c], s := st.s + [c])
  {
    var p := PushOp(st, c);
    assert At(p.oper, p.op - 1, Nul) == c;
    TakenBack(0, p, c);
  }

  /** A term whose operator joins at `level`, read while the operators after the last slot
      are still pending, takes the operator back and appends it to the term. */
  lemma {:induction false} TakenBack(level: int, st: Scan, c: char)
    requires st.s != [] && st.op > st.o > 0
    requires var d := At(st.oper, st.op - 1, Nul); Joins(level, d) && !IsShift(d)
    ensures Record(level, st, c) == st.(op := st.op - 1, s := st.s + [c])
  {
  }

  /** The end of the input records the product as one slot flagged level 1. */
  lemma {:induction false} ProductEnd(f: string, st: Scan)
    requires st.s != [] && IsDigit(st.s[0]) && InProduct(st)
    ensures ProductRecorded(st, Scanned(f, 0, st, |f|), st.s + f[|f|..])
  {
    assert st.s + f[|f|..] == st.s;
    RecordNumeral(0, st.(flags := st.flags[st.o := 1]), st.s, Nul);
  }

  /** The rest of the formula, made of digits and tight operators, joins the current term:
      the scan reaches the end with the term grown by that rest, and with the slots and the
      operators before the term as they were. */
  lemma {:induction false} TermTail(f: string, st: Scan, i: nat) returns (e: Scan)
    requires i <= |f| && forall k | i <= k < |f| :: IsDigit(f[k]) || Tight(f[k])
    requires st.s != [] ==> IsDigit(st.s[0])
    requires st.s == [] ==> i < |f| && IsDigit(f[i])
    requires InTerm(st)
    ensures Scanned(f, 0, st, i) == Scanned(f, 0, e, |f|)
    ensures e == st.(s := st.s + f[i..], oper := e.oper) && IsDigit(e.s[0]) && InTerm(e)
    ensures forall k | k < st.op :: At(e.oper, k, Nul) == At(st.oper, k, Nul)
    decreases |f| - i
  {
    if i == |f| {
      e := st;
      assert st.s + f[i..] == st.s;
    } else {
      var st' := if Tight(f[i]) then st.(oper := st.oper[st.op := f[i]], s := st.s + [f[i]])
        else st.(s := st.s + [f[i]]);
      TermNext(f, st, i);
      e := TermTail(f, st', i + 1);
    }
  }

  /** One character of such a term: a digit or a tight operator joins the current term. */
  lemma {:induction false} TermNext(f: string, st: Scan, i: nat)
    requires i < |f| && (IsDigit(f[i]) || Tight(f[i]))
    requires st.s != [] ==> IsDigit(st.s[0])
    requires st.s == [] ==> IsDigit(f[i])
    requires InTerm(st)
    ensures var st' := if Tight(f[i]) then st.(oper := st.oper[st.op := f[i]], s := st.s + [f[i]])
        else st.(s := st.s + [f[i]]);
      Scanned(f, 0, st, i) == Scanned(f, 0, st', i + 1)
      && st'.s + f[i + 1..] == st.s + f[i..] && IsDigit(st'.s[0]) && InTerm(st')
  {
    assert f[i..] == [f[i]] + f[i + 1..];
    if Tight(f[i]) {
      TightNext(f, st, i);
    } else {
      DigitNext(f, st, i);
    }
  }

  /** A tight operator of a term: the state stays inside the term. */
  lemma {:induction false} TightNext(f: string, st: Scan, i: nat)
    requires i < |f| && Tight(f[i]) && st.s != [] && IsDigit(st.s[0]) && InTerm(st)
    ensures var st' := st.(oper := st.oper[st.op := f[i]], s := st.s + [f[i]]);
      Scanned(f, 0, st, i) == Scanned(f, 0, st', i + 1) && IsDigit(st'.s[0]) && InTerm(st')
  {
    var st' := st.(oper := st.oper[st.op := f[i]], s := st.s + [f[i]]);
    assert Scanned(f, 0, st, i) == Scanned(f, 0, st', i + 1) by {
      TightStep(f, st, i);
    }
    assert st'.s[0] == st.s[0];
  }

  /** A digit of a term: the state stays inside the term. */
  lemma {:induction false} DigitNext(f: string, st: Scan, i: nat)
    requires i < |f| && IsDigit(f[i]) && InTerm(st)
    requires st.s != [] ==> IsDigit(st.s[0])
    ensures var st' := st.(s := st.s + [f[i]]);
      Scanned(f, 0, st, i) == Scanned(f, 0, st', i + 1) && IsDigit(st'.s[0]) && InTerm(st')
  {
    var st' := st.(s := st.s + [f[i]]);
    assert Scanned(f, 0, st, i) == Scanned(f, 0, st', i + 1) by {
      DigitStep(f, 0, st, i);
    }
    assert st'.s[0] == if st.s == [] then f[i] else st.s[0];
  }

  /** The rest of the formula, made of digits and tight operators, is scanned into one slot
      after a `+` or `-`. */
  lemma {:induction false} ProductTail(f: string, st: Scan, i: nat)
    requires i <= |f| && forall k | i <= k < |f| :: IsDigit(f[k]) || Tight(f[k])
    requires st.s != [] ==> IsDigit(st.s[0])
    requires st.s == [] ==> i < |f| && IsDigit(f[i])
    requires InProduct(st)
    ensures ProductRecorded(st, Scanned(f, 0, st, i), st.s + f[i..])
  {
    var e := TermTail(f, st, i);
    assert At(e.oper, st.op - 1, Nul) == At(st.oper, st.op - 1, Nul);
    ProductEnd(f, e);
    assert e.s + f[|f|..] == st.s + f[i..];
    ProductKept(st, e, Scanned(f, 0, e, |f|), st.s + f[i..]);
  }

  /** The step's state records the product as the state before it would. */
  lemma {:induction false} ProductKept(st: Scan, st': Scan, r: Scan, t: string)
    requires st'.o == st.o && st'.op == st.op && st'.isf == st.isf
    requires st'.operations == st.operations
    requires forall k | k < st.op :: At(st'.oper, k, Nul) == At(st.oper, k, Nul)
    requires ProductRecorded(st', r, t)
    ensures ProductRecorded(st, r, t)
  {
  }

  /** A chain of numerals joined by tight operators starts with a digit and holds only
      digits and tight operators. */
  lemma {:induction false} TightChars(ns: seq<string>, ds: seq<char>)
    requires |ns| == |ds| + 1
    requires forall q | 0 <= q < |ns| :: IsNumeral(ns[q])
    requires forall q | 0 <= q < |ds| :: Tight(ds[q])
    ensures var t := Chain(ns, ds);
      |t| > 0 && IsDigit(t[0]) && forall k | 0 <= k < |t| :: IsDigit(t[k]) || Tight(t[k])
    decreases |ds|
  {
    var t := Chain(ns, ds);
    assert IsNumeral(ns[0]);
    if ds != [] {
      var rest := Chain(ns[1..], ds[1..]);
      assert forall q | 0 <= q < |ns| - 1 :: ns[1..][q] == ns[q + 1];
      assert forall q | 0 <= q < |ds| - 1 :: ds[1..][q] == ds[q + 1];
      TightChars(ns[1..], ds[1..]);
      assert t == ns[0] + [ds[0]] + rest;
      forall k | 0 <= k < |t|
        ensures IsDigit(t[k]) || Tight(t[k])
      {
        if k < |ns[0]| {
          assert t[k] == ns[0][k];
        } else if k > |ns[0]| {
          assert t[k] == rest[k - |ns[0]| - 1];
        }
      }
    }
  }

  /** The scan of `a c p` at level 0, with `a` a numeral, `c` a `+` or `-` and `p` a chain
      of numerals joined by `*`: two slots, `a` and the whole of `p` flagged level 1, joined
      by `c`, and no function. */
  lemma {:induction false} ScanSumWithProduct(a: string, c: char, ns: seq<string>,
                                              stars: seq<char>)
    requires IsNumeral(a) && Additive(c) && |ns| == |stars| + 1
    requires forall q | 0 <= q < |ns| :: IsNumeral(ns[q])
    requires forall q | 0 <= q < |stars| :: stars[q] == '*'
    ensures var sc := Scanned(a + [c] + Chain(ns, stars), 0, Start, 0);
      sc.o == 2 && sc.op == 1 && sc.isf == Start.isf && At(sc.oper, 0, Nul) == c
      && At(sc.operations, 0, "") == a && At(sc.operations, 1, "") == Chain(ns, stars)
      && At(sc.flags, 1, 0) == 1
  {
    var p := Chain(ns, stars);
    var f := a + [c] + p;
    var st3 := Recorded(PushOp(Start, c), a);
    assert ScanFrom(f, 0, Start, 0) == Scanned(f, 0, st3, |a| + 1) by {
      assert f[0..|a|] == a && f[|a|] == c;
      assert OfLevel(0, c) && Between(0, Start);
      ChainStep(f, 0, Start, 0, a, c);
    }
    assert st3.o == 1 && st3.op == 1 && st3.isf == Start.isf;
    assert At(st3.oper, 0, Nul) == c && At(st3.operations, 0, "") == a;
    assert ProductRecorded(st3, Scanned(f, 0, st3, |a| + 1), p) by {
      TightChars(ns, stars);
      forall k | |a| + 1 <= k < |f|
        ensures IsDigit(f[k]) || Tight(f[k])
      {
        assert f[k] == p[k - |a| - 1];
      }
      assert f[|a| + 1] == p[0];
      assert InProduct(st3);
      ProductTail(f, st3, |a| + 1);
      assert st3.s + f[|a| + 1..] == p;
    }
  }

  /** A product after a `+` or `-` binds tighter: `a + n0*n1*...` evaluates at level 0 to
      `a` plus the product, not to the left fold `(a + n0) * n1 * ...`. */
  lemma {:induction false} SumWithProduct(lib: Lib, m: Machine, a: string, c: char,
                                          ns: seq<string>, stars: seq<char>, fuel: nat)
    requires IsNumeral(a) && Additive(c)
    requires |ns| == |stars| + 1 && 1 <= |stars| && |ns| <= 999 && fuel >= 3
    requires forall q | 0 <= q < |ns| :: IsNumeral(ns[q])
    requires forall q | 0 <= q < |stars| :: stars[q] == '*'
    ensures var x := lib.strtod(a).value;
      var vs := Values(lib, ns);
      var p := Multiplied(vs[0], vs[1..]);
      Evaluated(lib, m, a + [c] + Chain(ns, stars), 0, 0, fuel)
      == if c == '+' then x + p else x - p
  {
    var p := Chain(ns, stars);
    var f := a + [c] + p;
    LeadingTermNotNumber(a, c, p);
    ScanSumWithProduct(a, c, ns, stars);
    var sc := ScanFrom(f, 0, Start, 0);
    CalculateSplits(lib, m, f, 0, fuel);
    var first := Calculate(lib, m, a, At(sc.flags, 0, 0), -1, fuel - 1);
    NumeralLeaf(lib, m, a, At(sc.flags, 0, 0), -1, fuel - 1);
    var t := Calculate(lib, first.m, p, 1, 0, fuel - 1);
    ProductIsLeftFold(lib, first.m, ns, stars, fuel - 1);
    TwoSlotFold(lib, first.m, sc, first.value, fuel);
  }

  /** Folding two slots applies the one operator between them. */
  lemma {:induction false} TwoSlotFold(lib: Lib, m: Machine, sc: Scan, res: real, fuel: nat)
    requires fuel > 0 && sc.o == 2 && sc.op >= 1
    requires var t := Calculate(lib, m, At(sc.operations, 1, ""), At(sc.flags, 1, 0),
                                At(sc.isf, 1, 0), fuel - 1);
      Combine(lib, res, At(sc.oper, 0, Nul), t.value).Next?
    ensures var t := Calculate(lib, m, At(sc.operations, 1, ""), At(sc.flags, 1, 0),
                               At(sc.isf, 1, 0), fuel - 1);
      Fold(lib, m, sc, res, 1, 0, fuel).value
      == Combine(lib, res, At(sc.oper, 0, Nul), t.value).value
  {
    var t := Calculate(lib, m, At(sc.operations, 1, ""), At(sc.flags, 1, 0),
                       At(sc.isf, 1, 0), fuel - 1);
    var step := Combine(lib, res, At(sc.oper, 0, Nul), t.value);
    FoldNext(lib, m, sc, res, 1, 0, fuel, t, step.value, step.errno);
    FoldDone(lib, t.m.(errno := Sticky(t.m.errno, step.errno)), sc, step.value, 2, 1, fuel);
  }

  /** `2+3*4` is 14, not 20. */
  lemma {:induction false} TwoPlusThreeTimesFour(lib: Lib, m: Machine, fuel: nat)
    requires fuel >= 3
    requires lib.strtod("2").value == 2.0 && lib.strtod("3").value == 3.0
    requires lib.strtod("4").value == 4.0
    ensures Evaluated(lib, m, "2+3*4", 0, 0, fuel) == 14.0
  {
    var ns := ["3", "4"];
    var stars := ['*'];
    assert Chain(ns, stars) == "3*4" by {
      assert Chain(ns[1..], stars[1..]) == "4";
    }
    assert "2" + ['+'] + "3*4" == "2+3*4";
    SumWithProduct(lib, m, "2", '+', ns, stars, fuel);
    var vs := Values(lib, ns);
    assert vs[0] == 3.0 && vs[1..] == [4.0];
    assert Multiplied(3.0, [4.0]) == 12.0 by {
      assert [4.0][..0] == [];
    }
  }

  /** Characters other than parentheses inside a group only grow the current term. */
  lemma {:induction false} ScanInside(f: string, level: int, st: Scan, i: nat, j: nat)
    requires i <= j <= |f| && forall k | i <= k < j :: f[k] != '(' && f[k] != ')'
    requires st.o < 999 && st.p > 0
    ensures Scanned(f, level, st, i) == Scanned(f, level, st.(s := st.s + f[i..j]), j)
    decreases j - i
  {
    if i < j {
      var st1 := st.(s := st.s + [f[i]]);
      InsideStep(f, level, st, i);
      ScanInside(f, level, st1, i + 1, j);
      assert st1.s + f[i + 1..j] == st.s + f[i..j];
    } else {
      assert st.s + f[i..j] == st.s;
    }
  }

  /** One character other than a parenthesis inside a group joins the current term. */
  lemma {:induction false} InsideStep(f: string, level: int, st: Scan, i: nat)
    requires i < |f| && f[i] != '(' && f[i] != ')' && st.o < 999 && st.p > 0
    ensures Scanned(f, level, st, i) == Scanned(f, level, st.(s := st.s + [f[i]]), i + 1)
  {
    assert Lex(f, st, i) == Lexed(st.(s := st.s + [f[i]]), false, i + 1);
    ScanOne(f, level, st, i);
  }

  /** The state after a group `(x)` at the start of a formula has been recorded in slot 0. */
  function AfterGroup(x: string): Scan
  {
    Recorded(Start.(p := 0), x)
  }

  /** A group `(x)` at the start of a formula, with `x` free of parentheses and not a
      function name, becomes slot 0, flagged level 0, whatever follows it. */
  lemma {:induction false} GroupPrefix(f: string, level: int, x: string, rest: string)
    requires x != [] && '(' !in x && ')' !in x && IsFunc(x) == 0
    requires f == "(" + x + ")" + rest
    ensures Scanned(f, level, Start, 0) == Scanned(f, level, AfterGroup(x), |x| + 2)
  {
    var n := |x| + 1;
    assert f[0] == '(' && f[n] == ')' && f[1..n] == x;
    GroupOpen(f, level);
    GroupInside(f, level, x);
    GroupClose(f, level, x);
  }

  /** The opening parenthesis at the start of a formula opens depth 1. */
  lemma {:induction false} GroupOpen(f: string, level: int)
    requires |f| > 0 && f[0] == '('
    ensures Scanned(f, level, Start, 0) == Scanned(f, level, Start.(s := "", p := 1), 1)
  {
    assert Lex(f, Start, 0) == Lexed(Start.(s := "", p := 1), false, 1);
    ScanOne(f, level, Start, 0);
  }

  /** The text `x` of a group opened at the start is gathered into `s`. */
  lemma {:induction false} GroupInside(f: string, level: int, x: string)
    requires '(' !in x && ')' !in x && |x| + 1 <= |f| && f[1..|x| + 1] == x
    ensures Scanned(f, level, Start.(s := "", p := 1), 1)
      == Scanned(f, level, Start.(s := x, p := 1), |x| + 1)
  {
    var a := Start.(s := "", p := 1);
    assert forall k | 1 <= k < |x| + 1 :: f[k] == x[k - 1];
    ScanInside(f, level, a, 1, |x| + 1);
    assert a.(s := a.s + f[1..|x| + 1]) == Start.(s := x, p := 1);
  }

  /** The closing parenthesis of a group opened at the start records the group in slot 0. */
  lemma {:induction false} GroupClose(f: string, level: int, x: string)
    requires x != [] && IsFunc(x) == 0 && |x| + 1 < |f| && f[|x| + 1] == ')'
    ensures Scanned(f, level, Start.(s := x, p := 1), |x| + 1)
      == Scanned(f, level, AfterGroup(x), |x| + 2)
  {
    var b := Start.(s := x, p := 1);
    assert Lex(f, b, |x| + 1) == Lexed(b.(p := 0, neg := false), true, |x| + 2);
    ScanOne(f, level, b, |x| + 1);
    assert Record(level, b.(p := 0, neg := false), ')') == AfterGroup(x);
  }

  /** A formula that is one group `(x)`, with `x` free of parentheses and not a function
      name, scans into a single slot holding `x`, flagged level 0, whatever the level of
      the scan. */
  lemma {:induction false} GroupScan(x: string, level: int)
    requires x != [] && '(' !in x && ')' !in x && IsFunc(x) == 0
    ensures var sc := Scanned("(" + x + ")", level, Start, 0);
      sc.o == 1 && sc.op == 0 && sc.isf == Start.isf
      && At(sc.operations, 0, "") == x && At(sc.flags, 0, 0) == 0
  {
    var f := "(" + x + ")";
    assert f == "(" + x + ")" + "";
    GroupPrefix(f, level, x, "");
    var c := AfterGroup(x);
    assert ScanFrom(f, level, c, |x| + 2) == c.(flags := c.flags[c.o := level + 1]);
  }

  /** No function name starts with a parenthesis. */
  lemma {:induction false} GroupNotFunc(t: string)
    requires |t| > 0 && t[0] == '('
    ensures IsFunc(t) == 0
  {
    assert forall k | 0 <= k < |FuncNames| :: |FuncNames[k]| > 0 && FuncNames[k][0] != '(';
  }

  /** A term whose operator binds tighter than `level` allows is regrouped with the slot
      before it, if that slot holds no function: the slot becomes `(slot) c (term)`, flagged
      for the next level, and the operator is taken back. */
  lemma {:induction false} JoinedRecord(level: int, st: Scan, c: char)
    requires st.s != [] && 0 < st.op <= st.o && Joins(level, At(st.oper, st.op - 1, Nul))
    requires At(st.isf, st.o - 1, 0) <= 0
    ensures var r := Record(level, st, c);
      var k := st.o - 1;
      var d := At(st.oper, st.op - 1, Nul);
      r.o == st.o && r.op == st.op - 1 && r.s == [] && !r.neg && r.oper == st.oper
      && r.isf == st.isf && At(r.flags, k, 0) == level + 1
      && At(r.operations, k, "")
         == "(" + At(st.operations, k, "") + ")" + (if IsShift(d) then [d, d] else [d])
            + "(" + st.s + ")"
      && forall j | j != k :: At(r.operations, j, "") == At(st.operations, j, "")
  {
    var k, d := st.o - 1, At(st.oper, st.op - 1, Nul);
    var g := Regroup(st, level, k, st.op - 1);
    var text := "(" + At(st.operations, k, "") + ")" + (if IsShift(d) then [d, d] else [d])
      + "(" + st.s + ")";
    assert FuncPrefix(At(st.isf, k, 0)) == "";
    assert At(g.operations, k, "") == text by {
      assert "" + "(" + At(st.operations, k, "") == "(" + At(st.operations, k, "");
    }
    assert g.isf == st.isf;
    GroupNotFunc(text);
    RegroupRecords(level, st, c);
  }

  /** Recording a joined term that regroups into a slot holding no function name. */
  lemma {:induction false} RegroupRecords(level: int, st: Scan, c: char)
    requires st.s != [] && 0 < st.op <= st.o && Joins(level, At(st.oper, st.op - 1, Nul))
    requires IsFunc(At(Regroup(st, level, st.o - 1, st.op - 1).operations, st.o - 1, "")) == 0
    ensures Record(level, st, c)
      == Regroup(st, level, st.o - 1, st.op - 1).(op := st.op - 1, s := "", neg := false)
  {
    var g := Regroup(st, level, st.o - 1, st.op - 1);
    var st1 := g.(o := st.o - 1, op := st.op - 1);
    assert g.o == st.o;
    assert Record(level, st, c) == st1.(o := st1.o + 1).(s := "", neg := false);
  }

  /** A nonempty text without parentheses that names no function. */
  predicate Plain(x: string)
  {
    x != [] && '(' !in x && ')' !in x && IsFunc(x) == 0
  }

  /** The text `(x) d (y)` that a term joined by `d` is regrouped into. */
  function GroupOp(x: string, d: char, y: string): string
  {
    "(" + x + ")" + [d] + "(" + y + ")"
  }

  /** Before the end of `(x)*n`, the group is slot 0, `*` is pushed and `n` is the term. */
  lemma {:induction false} GroupThenProduct(x: string, n: string)
    requires x != [] && '(' !in x && ')' !in x && IsFunc(x) == 0 && IsNumeral(n)
    ensures var f := "(" + x + ")*" + n;
      Scanned(f, 0, Start, 0) == Scanned(f, 0, PushOp(AfterGroup(x), '*').(s := n), |f|)
  {
    var f := "(" + x + ")*" + n;
    var i := |x| + 2;
    var d := PushOp(AfterGroup(x), '*');
    assert Scanned(f, 0, Start, 0) == Scanned(f, 0, AfterGroup(x), i) by {
      assert f == "(" + x + ")" + ("*" + n);
      GroupPrefix(f, 0, x, "*" + n);
    }
    StarAfterGroup(f, x, n);
    assert f[i + 1..] == n;
    NumeralTail(f, d, i + 1, n);
  }

  /** The `*` after the group at level 0 is pushed and nothing is recorded. */
  lemma {:induction false} StarAfterGroup(f: string, x: string, n: string)
    requires x != [] && f == "(" + x + ")*" + n
    ensures var i := |x| + 2;
      Scanned(f, 0, AfterGroup(x), i) == Scanned(f, 0, PushOp(AfterGroup(x), '*'), i + 1)
  {
    var i := |x| + 2;
    var c := AfterGroup(x);
    var d := PushOp(c, '*');
    assert f[i] == '*';
    assert Lex(f, c, i) == Lexed(d, true, i + 1);
    ScanOne(f, 0, c, i);
    assert Record(0, d, '*') == d;
  }

  /** A numeral that ends the formula becomes the current term. */
  lemma {:induction false} NumeralTail(f: string, d: Scan, j: nat, n: string)
    requires j <= |f| && f[j..] == n && IsNumeral(n) && d.s == [] && d.o < 999 && d.p == 0
    ensures Scanned(f, 0, d, j) == Scanned(f, 0, d.(s := n), |f|)
  {
    assert forall k | j <= k < |f| :: f[k] == n[k - j];
    ScanDigits(f, 0, d, j, |f|);
    assert d.s + f[j..|f|] == n;
  }

  /** At level 0, `(x)*n` is regrouped: the `*` joins the term `n` to slot 0, which becomes
      `(x)*(n)`, flagged level 1, the only slot. */
  lemma {:induction false} RegroupedProduct(x: string, n: string)
    requires x != [] && '(' !in x && ')' !in x && IsFunc(x) == 0 && IsNumeral(n)
    ensures var sc := Scanned("(" + x + ")*" + n, 0, Start, 0);
      sc.o == 1 && sc.op == 0 && At(sc.isf, 0, 0) == -1
      && At(sc.operations, 0, "") == GroupOp(x, '*', n) && At(sc.flags, 0, 0) == 1
  {
    var f := "(" + x + ")*" + n;
    GroupThenProduct(x, n);
    var d := PushOp(AfterGroup(x), '*');
    var e := d.(s := n, flags := d.flags[d.o := 1]);
    assert Scanned(f, 0, d.(s := n), |f|) == Record(0, e, Nul);
    assert e.o == 1 && e.op == 1 && At(e.oper, 0, Nul) == '*' && At(e.isf, 0, 0) == -1;
    assert At(e.operations, 0, "") == x;
    JoinedRecord(0, e, Nul);
  }

  /** The level at which a tight operator makes slots: 1 for `*`, 2 for `/` and `%`, 3 for
      `^`. */
  function TightLevel(d: char): nat
    requires Tight(d)
  {
    if d == '*' then 1 else if d == '^' then 3 else 2
  }

  /** A tight operator joins at every level that scans except its own. */
  lemma {:induction false} TightJoins(d: char, level: int)
    requires Tight(d) && 0 <= level <= 4
    ensures Joins(level, d) <==> level != TightLevel(d)
  {
  }

  /** The state of a scan of `(x) d (y)` once `y` has been read inside its group. */
  function InSecondGroup(x: string, d: char, y: string): Scan
  {
    var st := PushOp(AfterGroup(x), d);
    st.(flags := st.flags[st.o := 0], p := 1, s := y)
  }

  /** At any level, the group `(x)` of `(x) d (y)` becomes slot 0 and `d` is pushed. */
  lemma {:induction false} GroupOpPush(x: string, d: char, y: string, level: int)
    requires Plain(x) && Tight(d)
    ensures var f := GroupOp(x, d, y);
      Scanned(f, level, Start, 0) == Scanned(f, level, PushOp(AfterGroup(x), d), |x| + 3)
  {
    var f := GroupOp(x, d, y);
    var i := |x| + 2;
    assert f == "(" + x + ")" + ([d] + "(" + y + ")");
    GroupPrefix(f, level, x, [d] + "(" + y + ")");
    var c := AfterGroup(x);
    assert f[i] == d && d in "^%/*+";
    LexClasses(f, c, i);
    ScanOne(f, level, c, i);
    assert Record(level, PushOp(c, d), d) == PushOp(c, d);
  }

  /** At any level, `(x) d (` becomes slot 0 and the pushed `d`, and `y` is read as the
      term inside the second group. */
  lemma {:induction false} GroupOpPrefix(x: string, d: char, y: string, level: int)
    requires Plain(x) && Tight(d) && Plain(y)
    ensures var f := GroupOp(x, d, y);
      Scanned(f, level, Start, 0) == Scanned(f, level, InSecondGroup(x, d, y), |f| - 1)
  {
    var f := GroupOp(x, d, y);
    var i := |x| + 3;
    var j := i + 1 + |y|;
    GroupOpPush(x, d, y, level);
    assert f[i] == '(' && f[i + 1..j] == y && |f| == j + 1;
    var st := PushOp(AfterGroup(x), d);
    var st1 := st.(flags := st.flags[st.o := 0], p := 1);
    assert Lex(f, st, i) == Lexed(st1, false, i + 1);
    ScanOne(f, level, st, i);
    assert forall k | i + 1 <= k < j :: f[k] == y[k - i - 1];
    ScanInside(f, level, st1, i + 1, j);
    assert st1.(s := st1.s + f[i + 1..j]) == InSecondGroup(x, d, y);
  }

  /** At the level of `d`, `(x) d (y)` scans into two slots, `x` and `y`, both flagged
      level 0 and joined by `d`. */
  lemma {:induction false} ScanGroupOp(x: string, d: char, y: string, level: int)
    requires Plain(x) && Tight(d) && Plain(y) && !Joins(level, d)
    ensures var sc := Scanned(GroupOp(x, d, y), level, Start, 0);
      sc.o == 2 && sc.op == 1 && sc.isf == Start.isf && At(sc.oper, 0, Nul) == d
      && At(sc.operations, 0, "") == x && At(sc.operations, 1, "") == y
      && At(sc.flags, 0, 0) == 0 && At(sc.flags, 1, 0) == 0
  {
    var f := GroupOp(x, d, y);
    var j := |f| - 1;
    GroupOpPrefix(x, d, y, level);
    var st := InSecondGroup(x, d, y);
    assert f[j] == ')';
    assert Lex(f, st, j) == Lexed(st.(p := 0, neg := false), true, j + 1);
    ScanOne(f, level, st, j);
    var r := Recorded(st.(p := 0, neg := false), y);
    assert Record(level, st.(p := 0, neg := false), ')') == r;
    assert ScanFrom(f, level, r, j + 1) == r.(flags := r.flags[r.o := level + 1]);
  }

  /** Below the level of `d`, `(x) d (y)` is regrouped into itself: one slot, flagged for
      the next level. */
  lemma {:induction false} RegroupGroupOp(x: string, d: char, y: string, level: int)
    requires Plain(x) && Tight(d) && Plain(y) && Joins(level, d)
    ensures var sc := Scanned(GroupOp(x, d, y), level, Start, 0);
      sc.o == 1 && sc.op == 0 && sc.isf == Start.isf
      && At(sc.operations, 0, "") == GroupOp(x, d, y) && At(sc.flags, 0, 0) == level + 1
  {
    var f := GroupOp(x, d, y);
    var j := |f| - 1;
    GroupOpPrefix(x, d, y, level);
    var st := InSecondGroup(x, d, y);
    assert f[j] == ')';
    var e := st.(p := 0, neg := false);
    assert Lex(f, st, j) == Lexed(e, true, j + 1);
    ScanOne(f, level, st, j);
    assert At(e.oper, 0, Nul) == d && At(e.isf, 0, 0) == -1 && At(e.operations, 0, "") == x;
    JoinedRecord(level, e, ')');
    var r := Record(level, e, ')');
    assert ScanFrom(f, level, r, j + 1) == r.(flags := r.flags[r.o := level + 1]);
  }

  /** Below the level of `d`, evaluating `(x) d (y)` passes it on to the next level. */
  lemma {:induction false} GroupOpJoins(lib: Lib, m: Machine, x: string, d: char, y: string,
                                        level: int, fuel: nat)
    requires Plain(x) && Tight(d) && Plain(y) && Joins(level, d) && level <= 4 && fuel > 0
    ensures Evaluated(lib, m, GroupOp(x, d, y), level, -1, fuel)
      == Evaluated(lib, m, GroupOp(x, d, y), level + 1, -1, fuel - 1)
  {
    var f := GroupOp(x, d, y);
    assert f[0] == '(';
    assert !ValidNum(f);
    RegroupGroupOp(x, d, y, level);
    NoFunctionSame(lib, m, f, level, fuel);
    CalculateSplits(lib, m, f, level, fuel);
    var sc := ScanFrom(f, level, Start, 0);
    var first := Calculate(lib, m, f, level + 1, -1, fuel - 1);
    FoldDone(lib, first.m, sc, first.value, 1, 0, fuel);
  }

  /** From level 1 up to the level of `d`, `(x) d (y)` is passed on one level per step. */
  lemma {:induction false} Climb(lib: Lib, m: Machine, x: string, d: char, y: string,
                                 level: int, fuel: nat)
    requires Plain(x) && Tight(d) && Plain(y)
    requires 0 <= level <= TightLevel(d) && fuel >= TightLevel(d) - level
    ensures Evaluated(lib, m, GroupOp(x, d, y), level, -1, fuel)
      == Evaluated(lib, m, GroupOp(x, d, y), TightLevel(d), -1, fuel - (TightLevel(d) - level))
    decreases TightLevel(d) - level
  {
    if level < TightLevel(d) {
      TightJoins(d, level);
      GroupOpJoins(lib, m, x, d, y, level, fuel);
      Climb(lib, m, x, d, y, level + 1, fuel - 1);
    }
  }

  /** At the level of `d`, `(x) d (y)` applies `d` to the value of `x` and the value of
      `y`, each evaluated from level 0, `y` on the machine `x` left. */
  lemma {:induction false} GroupOpSplits(lib: Lib, m: Machine, x: string, d: char, y: string,
                                         fuel: nat)
    requires Plain(x) && Tight(d) && Plain(y) && fuel > 0
    ensures var first := Calculate(lib, m, x, 0, 0, fuel - 1);
      var r := Combine(lib, first.value, d, Evaluated(lib, first.m, y, 0, 0, fuel - 1));
      r.Next? ==> Evaluated(lib, m, GroupOp(x, d, y), TightLevel(d), -1, fuel) == r.value
  {
    var f := GroupOp(x, d, y);
    var level := TightLevel(d);
    assert f[0] == '(';
    assert !ValidNum(f);
    TightJoins(d, level);
    ScanGroupOp(x, d, y, level);
    NoFunctionSame(lib, m, f, level, fuel);
    CalculateSplits(lib, m, f, level, fuel);
    var sc := ScanFrom(f, level, Start, 0);
    NoFunctionSame(lib, m, x, 0, fuel - 1);
    var first := Calculate(lib, m, x, 0, 0, fuel - 1);
    var r := Combine(lib, first.value, d, Evaluated(lib, first.m, y, 0, 0, fuel - 1));
    if r.Next? {
      TwoSlotFold(lib, first.m, sc, first.value, fuel);
    }
  }

  /** The regrouped `(x)*(n)` evaluates at level 1 to `x`, evaluated from level 0, times
      the value of `n`. */
  lemma {:induction false} GroupTimesValue(lib: Lib, m: Machine, x: string, n: string, fuel: nat)
    requires Plain(x) && IsNumeral(n) && fuel >= 2
    ensures Evaluated(lib, m, GroupOp(x, '*', n), 1, -1, fuel)
      == Evaluated(lib, m, x, 0, 0, fuel - 1) * lib.strtod(n).value
  {
    TightTermPlain(n);
    GroupOpSplits(lib, m, x, '*', n, fuel);
    var first := Calculate(lib, m, x, 0, 0, fuel - 1);
    NumeralLeaf(lib, first.m, n, 0, 0, fuel - 1);
  }

  /** A numeral followed by digits and tight operators: the text a tight chain holds. */
  predicate TightTerm(t: string)
  {
    |t| > 0 && IsDigit(t[0]) && forall k | 0 <= k < |t| :: IsDigit(t[k]) || Tight(t[k])
  }

  /** Such a term holds no parenthesis and names no function. */
  lemma {:induction false} TightTermPlain(t: string)
    requires TightTerm(t) || IsNumeral(t)
    ensures TightTerm(t) && Plain(t)
  {
    LeadingDigitNotFunc(t);
  }

  /** At level 0, a numeral `a` and a tight operator become slot 0 and the pushed operator,
      with nothing regrouped: slot 0 has no slot before it. */
  lemma {:induction false} FirstTight(f: string, a: string, d: char)
    requires |a| < |f| && f[..|a|] == a && f[|a|] == d && IsNumeral(a) && Tight(d)
    ensures Scanned(f, 0, Start, 0) == Scanned(f, 0, Recorded(PushOp(Start, d), a), |a| + 1)
  {
    assert f[0..|a|] == a;
    TermDigits(f, 0, Start, 0, a);
    var st := Start.(s := a);
    assert d in "^%/*+";
    LexClasses(f, st, |a|);
    ScanOne(f, 0, st, |a|);
    LeadingDigitNotFunc(a);
    assert Record(0, PushOp(st, d), d) == Recorded(PushOp(Start, d), a);
  }

  /** At level 0, `a d t`, with `a` a numeral, `d` a tight operator and `t` a tight term,
      is one slot `(a) d (t)` flagged level 1: the operators after the first are taken back
      into the term, and the whole term is regrouped with `a` at the end. The chain groups
      to the right. */
  lemma {:induction false} RightGrouped(a: string, d: char, t: string)
    requires IsNumeral(a) && Tight(d) && TightTerm(t)
    ensures var sc := Scanned(a + [d] + t, 0, Start, 0);
      sc.o == 1 && sc.op == 0 && At(sc.isf, 0, 0) == -1
      && At(sc.operations, 0, "") == GroupOp(a, d, t) && At(sc.flags, 0, 0) == 1
  {
    var f := a + [d] + t;
    var e := RightTerm(a, d, t);
    var e' := e.(flags := e.flags[e.o := 1]);
    assert Scanned(f, 0, e, |f|) == Record(0, e', Nul);
    JoinedRecord(0, e', Nul);
  }

  /** Before the end of `a d t` at level 0, `a` is slot 0, `d` is pending and `t` is the
      current term. */
  lemma {:induction false} RightTerm(a: string, d: char, t: string) returns (e: Scan)
    requires IsNumeral(a) && Tight(d) && TightTerm(t)
    ensures var f := a + [d] + t;
      Scanned(f, 0, Start, 0) == Scanned(f, 0, e, |f|)
    ensures e.s == t && e.o == 1 && e.op == 1 && e.isf == Start.isf && e.p == 0
    ensures At(e.oper, 0, Nul) == d && At(e.operations, 0, "") == a
  {
    var f := a + [d] + t;
    var i := |a| + 1;
    assert f[..|a|] == a && f[|a|] == d && f[i..] == t;
    FirstTight(f, a, d);
    var st := Recorded(PushOp(Start, d), a);
    assert InTerm(st);
    forall k | i <= k < |f|
      ensures IsDigit(f[k]) || Tight(f[k])
    {
      assert f[k] == t[k - i];
    }
    assert f[i] == t[0];
    e := TermTail(f, st, i);
  }

  /** At level 0, `a d t` evaluates to `a d v`, where `v` is the value of `t` from level 0,
      whatever the machine: `t` is evaluated first. `fuel` is what the evaluation of `t`
      is given. */
  lemma {:induction false} RightGroupValue(lib: Lib, m: Machine, a: string, d: char, t: string,
                                           v: real, fuel: nat)
    requires IsNumeral(a) && Tight(d) && TightTerm(t) && fuel > 0
    requires forall m' :: Evaluated(lib, m', t, 0, 0, fuel) == v
    ensures var r := Combine(lib, lib.strtod(a).value, d, v);
      r.Next? ==> Evaluated(lib, m, a + [d] + t, 0, 0, fuel + TightLevel(d) + 1) == r.value
  {
    var level := TightLevel(d);
    var g := GroupOp(a, d, t);
    RightGroupedSlot(lib, m, a, d, t, fuel + level + 1);
    TightTermPlain(a);
    TightTermPlain(t);
    GroupOpSplits(lib, m, a, d, t, fuel + 1);
    var first := Calculate(lib, m, a, 0, 0, fuel);
    NumeralLeaf(lib, m, a, 0, 0, fuel);
    assert Evaluated(lib, first.m, t, 0, 0, fuel) == v;
  }

  /** At level 0, `a d t` evaluates as `(a) d (t)` does at the level of `d`. */
  lemma {:induction false} RightGroupedSlot(lib: Lib, m: Machine, a: string, d: char, t: string,
                                            fuel: nat)
    requires IsNumeral(a) && Tight(d) && TightTerm(t) && fuel >= TightLevel(d)
    ensures Evaluated(lib, m, a + [d] + t, 0, 0, fuel)
      == Evaluated(lib, m, GroupOp(a, d, t), TightLevel(d), -1, fuel - TightLevel(d))
  {
    var f := a + [d] + t;
    LeadingTermNotNumber(a, d, t);
    RightGrouped(a, d, t);
    SingleSlot(lib, m, f, fuel);
    TightTermPlain(a);
    TightTermPlain(t);
    Climb(lib, m, a, d, t, 1, fuel - 1);
  }

  /** The right fold `v0 d0 (v1 d1 (... vn))`, which stops at the first operator, from the
      right, that stops. */
  function RightFolded(lib: Lib, vs: seq<real>, ds: seq<char>): Folding
    requires |vs| == |ds| + 1
    decreases |ds|
  {
    if ds == [] then Done(vs[0])
    else
      match RightFolded(lib, vs[1..], ds[1..])
      case Stopped(e) => Stopped(e)
      case Done(w) =>
        var r := Combine(lib, vs[0], ds[0], w);
        if r.Next? then Done(r.value) else Stopped(r.err)
  }

  /** Numerals joined by `*`, `/`, `%` and `^` evaluate at level 0 to the right fold of
      their values: `8/4/2` is `8/(4/2)`, not `(8/4)/2`. */
  lemma {:induction false} TightChainIsRightFold(lib: Lib, m: Machine, ns: seq<string>,
                                                 ds: seq<char>, fuel: nat)
    requires |ns| == |ds| + 1 && fuel >= 4 * |ds| + 1
    requires forall q | 0 <= q < |ns| :: IsNumeral(ns[q])
    requires forall q | 0 <= q < |ds| :: Tight(ds[q])
    ensures var r := RightFolded(lib, Values(lib, ns), ds);
      r.Done? ==> Evaluated(lib, m, Chain(ns, ds), 0, 0, fuel) == r.value
    decreases |ds|
  {
    var vs := Values(lib, ns);
    if ds == [] {
      NumeralLeaf(lib, m, ns[0], 0, 0, fuel);
    } else {
      var t := Chain(ns[1..], ds[1..]);
      var d := ds[0];
      var fuel' := fuel - TightLevel(d) - 1;
      assert fuel' > 0;
      assert forall q | 0 <= q < |ns| - 1 :: ns[1..][q] == ns[q + 1];
      assert forall q | 0 <= q < |ds| - 1 :: ds[1..][q] == ds[q + 1];
      assert Values(lib, ns[1..]) == vs[1..];
      var inner := RightFolded(lib, vs[1..], ds[1..]);
      if inner.Done? {
        forall m' | true
          ensures Evaluated(lib, m', t, 0, 0, fuel') == inner.value
        {
          TightChainIsRightFold(lib, m', ns[1..], ds[1..], fuel');
        }
        TightChars(ns[1..], ds[1..]);
        RightGroupValue(lib, m, ns[0], d, t, inner.value, fuel');
      }
    }
  }

  /** Division chains at level 0 group to the right: `8/4/2` is 4, not 1. */
  lemma {:induction false} EightOverFourOverTwo(lib: Lib, m: Machine, fuel: nat)
    requires fuel >= 9
    requires lib.strtod("8").value == 8.0 && lib.strtod("4").value == 4.0
    requires lib.strtod("2").value == 2.0
    ensures Evaluated(lib, m, "8/4/2", 0, 0, fuel) == 4.0
  {
    var ns := ["8", "4", "2"];
    var ds := ['/', '/'];
    assert Chain(ns, ds) == "8/4/2" by {
      assert Chain(ns[2..], ds[2..]) == "2";
      assert Chain(ns[1..], ds[1..]) == "4/2";
    }
    TightChainIsRightFold(lib, m, ns, ds, fuel);
    var vs := Values(lib, ns);
    assert vs == [8.0, 4.0, 2.0];
    assert RightFolded(lib, vs[2..], ds[2..]) == Done(2.0);
    assert RightFolded(lib, vs[1..], ds[1..]) == Done(2.0);
  }

  /** A group times a numeral: `(x)*n` evaluates at level 0 to `x`, evaluated from level 0,
      times `n`. The `*` is not applied to the last term of `x`. */
  lemma {:induction false} GroupTimesNumeral(lib: Lib, m: Machine, x: string, n: string,
                                             fuel: nat)
    requires x != [] && '(' !in x && ')' !in x && IsFunc(x) == 0 && IsNumeral(n)
    requires fuel >= 3
    ensures Evaluated(lib, m, "(" + x + ")*" + n, 0, 0, fuel)
      == Evaluated(lib, m, x, 0, 0, fuel - 2) * lib.strtod(n).value
  {
    var f := "(" + x + ")*" + n;
    assert !ValidNum(f) by {
      assert f[0] == '(';
    }
    RegroupedProduct(x, n);
    SingleSlot(lib, m, f, fuel);
    GroupTimesValue(lib, m, x, n, fuel - 1);
    assert fuel - 1 - 1 == fuel - 2;
  }

  /** A formula that scans into a single slot has the value of that slot. */
  lemma {:induction false} SingleSlot(lib: Lib, m: Machine, f: string, fuel: nat)
    requires !ValidNum(f) && fuel > 0 && Scanned(f, 0, Start, 0).o == 1
    ensures var sc := Scanned(f, 0, Start, 0);
      Evaluated(lib, m, f, 0, 0, fuel)
      == Evaluated(lib, m, At(sc.operations, 0, ""), At(sc.flags, 0, 0), At(sc.isf, 0, 0), fuel - 1)
  {
    var sc := ScanFrom(f, 0, Start, 0);
    var first := Calculate(lib, m, At(sc.operations, 0, ""), At(sc.flags, 0, 0),
                           At(sc.isf, 0, 0), fuel - 1);
    CalculateSplits(lib, m, f, 0, fuel);
    FoldDone(lib, first.m, sc, first.value, 1, 0, fuel);
  }

  /** A sum or difference of two numerals is their sum or difference. */
  lemma {:induction false} TwoTermSum(lib: Lib, m: Machine, a: string, c: char, b: string,
                                      fuel: nat)
    requires IsNumeral(a) && IsNumeral(b) && Additive(c) && fuel >= 2
    ensures var x, y := lib.strtod(a).value, lib.strtod(b).value;
      Evaluated(lib, m, a + [c] + b, 0, 0, fuel) == if c == '+' then x + y else x - y
  {
    var ts := [a, b];
    var cs := [c];
    assert Chain(ts, cs) == a + [c] + b by {
      assert Chain(ts[1..], cs[1..]) == b;
    }
    ChainIsLeftFold(lib, m, ts, cs, fuel);
    var vs := Values(lib, ts);
    assert vs[0] == lib.strtod(a).value && vs[1..] == [lib.strtod(b).value];
    assert cs[..0] == [] && vs[1..][..0] == [];
  }

  /** A parenthesised sum times a numeral: `(a+b)*n` is `(a + b) * n`, the group evaluated
      first. */
  lemma {:induction false} GroupedSumTimes(lib: Lib, m: Machine, a: string, c: char,
                                           b: string, n: string, fuel: nat)
    requires IsNumeral(a) && IsNumeral(b) && IsNumeral(n) && Additive(c) && fuel >= 4
    ensures var x, y, z := lib.strtod(a).value, lib.strtod(b).value, lib.strtod(n).value;
      Evaluated(lib, m, "(" + a + [c] + b + ")*" + n, 0, 0, fuel)
      == (if c == '+' then x + y else x - y) * z
  {
    TwoTermSum(lib, m, a, c, b, fuel - 2);
    GroupedSumScaled(lib, m, a, c, b, n, fuel);
  }

  /** The group of `(a+b)*n` is evaluated on its own, then multiplied by `n`. */
  lemma {:induction false} GroupedSumScaled(lib: Lib, m: Machine, a: string, c: char,
                                            b: string, n: string, fuel: nat)
    requires IsNumeral(a) && IsNumeral(b) && IsNumeral(n) && Additive(c) && fuel >= 4
    ensures Evaluated(lib, m, "(" + a + [c] + b + ")*" + n, 0, 0, fuel)
      == Evaluated(lib, m, a + [c] + b, 0, 0, fuel - 2) * lib.strtod(n).value
  {
    var t := a + [c] + b;
    SumTextFree(a, c, b);
    GroupTimesNumeral(lib, m, t, n, fuel);
    assert "(" + t + ")*" + n == "(" + a + [c] + b + ")*" + n;
  }

  /** A two-term sum of numerals holds no parenthesis and is not a function name. */
  lemma {:induction false} SumTextFree(a: string, c: char, b: string)
    requires IsNumeral(a) && IsNumeral(b) && Additive(c)
    ensures var t := a + [c] + b;
      t != [] && '(' !in t && ')' !in t && IsFunc(t) == 0
  {
    var t := a + [c] + b;
    forall k | 0 <= k < |t|
      ensures t[k] == c || IsDigit(t[k])
    {
      if k < |a| {
        assert t[k] == a[k];
      } else if k > |a| {
        assert t[k] == b[k - |a| - 1];
      }
    }
    LeadingDigitNotFunc(t);
  }

  /** `(2+3)*4` is 20. */
  lemma {:induction false} GroupedSumTimesFour(lib: Lib, m: Machine, fuel: nat)
    requires fuel >= 4
    requires lib.strtod("2").value == 2.0 && lib.strtod("3").value == 3.0
    requires lib.strtod("4").value == 4.0
    ensures Evaluated(lib, m, "(2+3)*4", 0, 0, fuel) == 20.0
  {
    assert "(" + "2" + ['+'] + "3" + ")*" + "4" == "(2+3)*4";
    GroupedSumTimes(lib, m, "2", '+', "3", "4", fuel);
  }

  /** With no function number, -1 and 0 are the same. */
  lemma {:induction false} NoFunctionSame(lib: Lib, m: Machine, x: string, level: int,
                                          fuel: nat)
    ensures Calculate(lib, m, x, level, -1, fuel) == Calculate(lib, m, x, level, 0, fuel)
  {
  }

  /** A formula that is one group `(x)` is evaluated by evaluating `x` from level 0, at any
      level that scans: the group restarts the precedence levels. */
  lemma {:induction false} GroupRestarts(lib: Lib, m: Machine, x: string, level: int,
                                         fuel: nat)
    requires x != [] && '(' !in x && ')' !in x && IsFunc(x) == 0
    requires level <= 4 && fuel > 0
    ensures Calculate(lib, m, "(" + x + ")", level, 0, fuel) == Calculate(lib, m, x, 0, 0, fuel - 1)
  {
    var f := "(" + x + ")";
    assert f[0] == '(';
    assert !ValidNum(f);
    GroupScan(x, level);
    var sc := ScanFrom(f, level, Start, 0);
    var first := Calculate(lib, m, x, 0, -1, fuel - 1);
    FoldDone(lib, first.m, sc, first.value, 1, 0, fuel);
    NoFunctionSame(lib, m, x, 0, fuel - 1);
  }
}
