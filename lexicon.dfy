/** The evaluator's vocabulary: the table of function names (`func_array` and `isFunc`) and
    the shape of text that `IsValidNum` accepts as a numeric leaf. */
module Lexicon {
  import opened Text

  /** `func_array`, in order: function number k is `FuncNames[k - 1]`. */
  const FuncNames: seq<string> := [
    "sqrt", "floor", "ceil", "sin", "cos",
    "tan", "asin", "acos", "atan", "sinh",
    "cosh", "tanh", "ln", "log", "abs",
    "fabs", "bin", "oct", "hex", "round",
    "fact"]

  const FuncSqrt: int := 1
  const FuncFloor: int := 2
  const FuncCeil: int := 3
  const FuncLn: int := 13
  const FuncLog: int := 14
  const FuncAbs: int := 15
  const FuncFabs: int := 16
  const FuncBin: int := 17
  const FuncOct: int := 18
  const FuncHex: int := 19
  const FuncRound: int := 20
  const FuncFact: int := 21

  /** The search of `isFunc` from slot `num` down to slot 0. */
  function SearchDown(s: string, num: int): (r: nat)
    requires -1 <= num < |FuncNames|
    ensures r <= num + 1
    ensures r > 0 ==> FuncNames[r - 1] == s
    ensures r == 0 <==> forall k | 0 <= k <= num :: FuncNames[k] != s
    decreases num + 1
  {
    if num < 0 then 0
    else if FuncNames[num] == s then num + 1
    else SearchDown(s, num - 1)
  }

  /** `isFunc`: the 1-based number of a function name, 0 for anything else. */
  function IsFunc(s: string): (r: nat)
    ensures r <= |FuncNames|
    ensures r > 0 ==> FuncNames[r - 1] == s
    ensures r == 0 <==> s !in FuncNames
  {
    SearchDown(s, |FuncNames| - 1)
  }

  /** Reads a table slot back from a name's length and first, second and last characters. */
  function SlotOfName(s: string): int
    requires |s| >= 2
  {
    match (|s|, s[0], s[1], s[|s| - 1])
    case (4, 's', 'q', _) => 0
    case (5, 'f', _, _) => 1
    case (4, 'c', 'e', _) => 2
    case (3, 's', _, _) => 3
    case (3, 'c', _, _) => 4
    case (3, 't', _, _) => 5
    case (4, 'a', 's', _) => 6
    case (4, 'a', 'c', _) => 7
    case (4, 'a', 't', _) => 8
    case (4, 's', 'i', _) => 9
    case (4, 'c', 'o', _) => 10
    case (4, 't', _, _) => 11
    case (2, _, _, _) => 12
    case (3, 'l', _, _) => 13
    case (3, 'a', _, _) => 14
    case (4, 'f', _, 's') => 15
    case (3, 'b', _, _) => 16
    case (3, 'o', _, _) => 17
    case (3, 'h', _, _) => 18
    case (5, 'r', _, _) => 19
    case (4, 'f', _, _) => 20
    case _ => -1
  }

  lemma {:induction false} SlotOfNameInverts(k: nat)
    requires k < |FuncNames|
    ensures |FuncNames[k]| >= 2 && SlotOfName(FuncNames[k]) == k
  {
  }

  /** Every name in the table is recognised as its own number: the table has no duplicates, so
      searching it from the end finds the one slot that holds the name. */
  lemma {:induction false} IsFuncNumbersTable(k: nat)
    requires k < |FuncNames|
    ensures IsFunc(FuncNames[k]) == k + 1
  {
    var r := IsFunc(FuncNames[k]);
    SlotOfNameInverts(k);
    SlotOfNameInverts(r - 1);
  }

  predicate IsHexLetter(c: char)
  {
    'a' <= c <= 'f'
  }

  /** A digit or a decimal point: the characters that never change `IsValidNum`'s state. */
  predicate IsPlain(c: char)
  {
    IsDigit(c) || c == '.'
  }

  /** `IsValidNum` from position `i` on, with `isE` the loop's flag: after an `e`, one sign or
      one further hex letter is admitted and clears the flag. */
  function ValidFrom(n: string, i: nat, isE: bool): bool
    decreases |n| - i
  {
    if i >= |n| then true
    else
      var c := n[i];
      if IsPlain(c) || (c == '-' && i == 0) then ValidFrom(n, i + 1, isE)
      else if isE then
        if c == '+' || c == '-' || IsHexLetter(c) then ValidFrom(n, i + 1, false) else false
      else if c == 'e' then ValidFrom(n, i + 1, true)
      else if IsHexLetter(c) then ValidFrom(n, i + 1, false)
      else false
  }

  /** What `IsValidNum` accepts as a number that needs no further splitting. */
  predicate ValidNum(n: string)
  {
    ValidFrom(n, 0, false)
  }

  /** The characters a valid number may hold. */
  predicate NumChar(c: char)
  {
    IsPlain(c) || c == '-' || c == '+' || IsHexLetter(c)
  }

  lemma {:induction false} ValidFromAlphabet(n: string, i: nat, isE: bool)
    requires ValidFrom(n, i, isE)
    ensures forall k | i <= k < |n| :: NumChar(n[k])
    decreases |n| - i
  {
    if i < |n| {
      var c := n[i];
      if IsPlain(c) || (c == '-' && i == 0) {
        ValidFromAlphabet(n, i + 1, isE);
      } else if isE || c != 'e' {
        ValidFromAlphabet(n, i + 1, false);
      } else {
        ValidFromAlphabet(n, i + 1, true);
      }
    }
  }

  /** A valid number is made of digits, points, signs and the letters a to f only. */
  lemma {:induction false} ValidNumAlphabet(n: string)
    requires ValidNum(n)
    ensures forall k | 0 <= k < |n| :: NumChar(n[k])
  {
    ValidFromAlphabet(n, 0, false);
  }

  /** A run of digits and points leaves the scan and its flag as they were. */
  lemma {:induction false} SkipPlain(n: string, i: nat, j: nat, isE: bool)
    requires i <= j <= |n|
    requires forall k | i <= k < j :: IsPlain(n[k])
    ensures ValidFrom(n, i, isE) == ValidFrom(n, j, isE)
    decreases j - i
  {
    if i < j {
      SkipPlain(n, i + 1, j, isE);
    }
  }

  /** A sign past position 0 is admitted only right after an exponent mark: the last character
      before it that is not a digit or a point is an `e` (`e` is where the flag was raised). */
  lemma {:induction false} SignFollowsExponent(n: string, i: nat, isE: bool, k: nat, e: int)
    requires ValidFrom(n, i, isE) && i <= k < |n| && 0 < k && (n[k] == '+' || n[k] == '-')
    requires isE ==> 0 <= e < i && n[e] == 'e' && forall m | e < m < i :: IsPlain(n[m])
    ensures exists j | 0 <= j < k :: n[j] == 'e' && forall m | j < m < k :: IsPlain(n[m])
    decreases |n| - i
  {
    var c := n[i];
    if i == k {
      if isE {
        assert n[e] == 'e' && forall m | e < m < k :: IsPlain(n[m]);
      } else {
        assert false;
      }
    } else if IsPlain(c) || (c == '-' && i == 0) {
      SignFollowsExponent(n, i + 1, isE, k, e);
    } else if isE || c != 'e' {
      SignFollowsExponent(n, i + 1, false, k, e);
    } else {
      SignFollowsExponent(n, i + 1, true, k, i);
    }
  }

  /** The same, from the start of the text. */
  lemma {:induction false} ValidNumSignRule(n: string, k: nat)
    requires ValidNum(n) && 0 < k < |n| && (n[k] == '+' || n[k] == '-')
    ensures exists j | 0 <= j < k :: n[j] == 'e' && forall m | j < m < k :: IsPlain(n[m])
  {
    SignFollowsExponent(n, 0, false, k, -1);
  }

  predicate AllPlain(s: string)
  {
    forall k | 0 <= k < |s| :: IsPlain(s[k])
  }

  /** Decimal literals (digits with points, a leading minus, an exponent with or without its
      sign) are valid numbers. */
  lemma {:induction false} DecimalLiteralsValid(a: string, b: string)
    requires AllPlain(a) && AllPlain(b)
    ensures ValidNum(a) && ValidNum("-" + a)
    ensures ValidNum(a + "e" + b) && ValidNum(a + "e-" + b) && ValidNum(a + "e+" + b)
  {
    SkipPlain(a, 0, |a|, false);
    var m := "-" + a;
    SkipPlain(m, 1, |m|, false);
    var s := a + "e" + b;
    SkipPlain(s, 0, |a|, false);
    SkipPlain(s, |a| + 1, |s|, true);
    var t := a + "e-" + b;
    SkipPlain(t, 0, |a|, false);
    SkipPlain(t, |a| + 2, |t|, false);
    var u := a + "e+" + b;
    SkipPlain(u, 0, |a|, false);
    SkipPlain(u, |a| + 2, |u|, false);
  }

  /** An operator after a nonempty run of digits is never part of a number, so the evaluator
      splits there. */
  lemma {:induction false} OperatorSplitsNumber(a: string, c: char, b: string)
    requires |a| > 0 && AllPlain(a)
    requires c in "+-*/%^()<>="
    ensures !ValidNum(a + [c] + b)
  {
    var s := a + [c] + b;
    SkipPlain(s, 0, |a|, false);
  }

  /** `IsValidNum` quirks: the sign rule is only about the exponent flag, so "1e5-3" passes;
      words made of the letters a to f pass; "pi" does not. */
  lemma {:induction false} ValidNumQuirks()
    ensures ValidNum("1e5-3")
    ensures ValidNum("face") && ValidNum("e") && ValidNum("")
    ensures !ValidNum("pi") && !ValidNum("1-3")
  {
  }
}
