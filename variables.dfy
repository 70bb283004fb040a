/** `parse_vars`: the declarations before the last `;` are split right to left into names and
    values, and every occurrence of a name in the formula is replaced by its value in
    parentheses, pass after pass, with a guard on the sixth pass. */
module Variables {
  import opened CalcErrors
  import opened Text

  /** One declaration `name=value`. In the source the names are collected in `_vals` and the
      values, already wrapped in parentheses, in `_vars`. */
  datatype Decl = Decl(name: string, value: string)

  /** The splitting loop: each round takes off one declaration with `Peel` until no `=` lies
      past position 0. The last declaration comes first. */
  function SplitDecls(tmp: string): (ds: seq<Decl>)
    ensures ds == [] <==> FindLastOf(tmp, '=') < 1
    decreases |tmp|
  {
    if FindLastOf(tmp, '=') <= 0 then []
    else
      var (d, rest) := Peel(tmp);
      [d] + SplitDecls(rest)
  }

  /** One round of the splitting loop: the value is what follows the last `=`; the name is
      what follows the last `,` before it, or everything before it when no `,` lies past
      position 0 (and then the text is kept for the next round). */
  function Peel(tmp: string): (r: (Decl, string))
    requires FindLastOf(tmp, '=') > 0
    ensures |r.1| < |tmp|
  {
    var found := FindLastOf(tmp, '=');
    var value := tmp[found + 1..];
    var rest := tmp[..found];
    var c := FindLastOf(rest, ',');
    if c > 0 then (Decl(rest[c + 1..], value), rest[..c]) else (Decl(rest, value), rest)
  }

  /** Taking off one more declaration extends the ones taken off before. */
  lemma {:induction false} PeelDecl(tmp: string, ds: seq<Decl>)
    requires FindLastOf(tmp, '=') > 0
    ensures ds + SplitDecls(tmp) == (ds + [Peel(tmp).0]) + SplitDecls(Peel(tmp).1)
  {
    assert SplitDecls(tmp) == [Peel(tmp).0] + SplitDecls(Peel(tmp).1);
  }

  /** A declaration that reads back as written: a nonempty name without `,` or `=`, and a
      value without `=`. */
  predicate Plain(d: Decl)
  {
    d.name != [] && ',' !in d.name && '=' !in d.name && '=' !in d.value
  }

  /** The declaration section that lists `ds` from last to first. */
  function Render(ds: seq<Decl>): string
  {
    if ds == [] then ""
    else (if |ds| == 1 then "" else Render(ds[1..]) + ",") + ds[0].name + "=" + ds[0].value
  }

  /** A single plain declaration splits back into itself. */
  lemma {:induction false} SplitOne(d: Decl)
    requires Plain(d)
    ensures SplitDecls(d.name + "=" + d.value) == [d]
  {
    var text := d.name + "=" + d.value;
    assert text == d.name + ['='] + d.value;
    LastOccurrence(d.name, '=', d.value);
    var found := |d.name|;
    assert text[..found] == d.name;
    assert text[found + 1..] == d.value;
  }

  /** Splitting `r,name=value` peels off the last declaration and goes on with `r`. */
  lemma {:induction false} SplitStep(r: string, d: Decl)
    requires Plain(d) && r != []
    ensures SplitDecls(r + "," + d.name + "=" + d.value) == [d] + SplitDecls(r)
  {
    PeelLast(r, d);
  }

  /** The last declaration of `r,name=value` is peeled off, leaving `r`. */
  lemma {:induction false} PeelLast(r: string, d: Decl)
    requires Plain(d) && r != []
    ensures var text := r + "," + d.name + "=" + d.value;
      FindLastOf(text, '=') > 0 && Peel(text) == (d, r)
  {
    var text := r + "," + d.name + "=" + d.value;
    var head := r + [','] + d.name;
    assert FindLastOf(text, '=') == |head| && text[..|head|] == head
      && text[|head| + 1..] == d.value by {
      assert text == head + ['='] + d.value;
      LastOccurrence(head, '=', d.value);
    }
    assert FindLastOf(head, ',') == |r| && head[|r| + 1..] == d.name && head[..|r|] == r by {
      LastOccurrence(r, ',', d.name);
    }
  }

  /** Splitting a rendered declaration section gives back its declarations. */
  lemma {:induction false} SplitRender(ds: seq<Decl>)
    requires forall k | 0 <= k < |ds| :: Plain(ds[k])
    ensures SplitDecls(Render(ds)) == ds
  {
    if |ds| == 1 {
      assert Render(ds) == ds[0].name + "=" + ds[0].value;
      SplitOne(ds[0]);
      assert ds == [ds[0]];
    } else if |ds| > 1 {
      var r := Render(ds[1..]);
      RenderCons(ds);
      SplitStep(r, ds[0]);
      SplitRender(ds[1..]);
      calc {
        SplitDecls(Render(ds));
        [ds[0]] + SplitDecls(r);
        [ds[0]] + ds[1..];
        ds;
      }
    }
  }

  /** A section of two or more declarations is a nonempty section, a comma and its first. */
  lemma RenderCons(ds: seq<Decl>)
    requires |ds| > 1
    ensures Render(ds) == Render(ds[1..]) + "," + ds[0].name + "=" + ds[0].value
    ensures Render(ds[1..]) != []
  {
    var e := ds[1..];
    assert |Render(e)| >= |e[0].name + "=" + e[0].value| > 0;
  }

  datatype Option<T> = None | Some(value: T)

  /** What a value is replaced by. */
  function Wrap(v: string): (w: string)
    ensures |w| == |v| + 2 && w[0] == '(' && w[|w| - 1] == ')' && w[1..|w| - 1] == v
  {
    "(" + v + ")"
  }

  /** The inner `while (x >= 0)` loop: replace the first occurrence of `name` by `w` until none
      is left. `None` when the loop is still going after `budget` replacements. */
  function ReplaceAll(s: string, name: string, w: string, budget: nat): (r: Option<string>)
    ensures r.Some? ==> Find(r.value, name) == -1
    decreases budget
  {
    var x := Find(s, name);
    if x < 0 then Some(s)
    else if budget == 0 then None
    else ReplaceAll(Replace(s, x, |name|, w), name, w, budget - 1)
  }

  /** The replacement budget of one inner loop: one more than the length of the text it
      starts on. */
  function Budget(s: string): nat
  {
    |s| + 1
  }

  /** One pass of the `for` loop over the declarations from `i` on. */
  function PassFrom(s: string, ds: seq<Decl>, i: nat): Option<string>
    requires i <= |ds|
    decreases |ds| - i
  {
    if i == |ds| then Some(s)
    else
      match ReplaceAll(s, ds[i].name, Wrap(ds[i].value), Budget(s))
      case None => None
      case Some(s') => PassFrom(s', ds, i + 1)
  }

  /** Some declared name still occurs in `s`. */
  predicate NamePresent(s: string, ds: seq<Decl>)
  {
    exists i | 0 <= i < |ds| :: Find(s, ds[i].name) >= 0
  }

  /** The result of substitution: the expanded text, the text at the guard, or a replacement
      loop that does not end. */
  datatype Expansion = Expanded(text: string) | InfLoop(text: string) | Diverges

  /** Passes `j` to 4 replace; pass 5 only looks for a name that is still present. */
  function Passes(s: string, ds: seq<Decl>, j: nat): (e: Expansion)
    requires j <= 5
    ensures e.InfLoop? ==> NamePresent(e.text, ds)
    ensures e.Expanded? ==> !NamePresent(e.text, ds)
    decreases 5 - j
  {
    if j == 5 then (if NamePresent(s, ds) then InfLoop(s) else Expanded(s))
    else
      match PassFrom(s, ds, 0)
      case None => Diverges
      case Some(s') => Passes(s', ds, j + 1)
  }

  /** What `parse_vars` returns: the text and the error it sets (`Nada` for none), or a
      replacement loop that does not end. */
  datatype VarsOut = VarsOut(text: string, err: CalcError) | VarsHang

  /** `parse_vars(found, formula)`: `found` is the position of the last `;`. */
  function ParseVars(found: nat, formula: string): (r: VarsOut)
    requires found < |formula|
    ensures r.VarsOut? ==> r.err == Nada || r.err == SyntaxVars || r.err == SynVarsInfLoop
  {
    var body := formula[found + 1..];
    var tmp := formula[..found];
    var ds := SplitDecls(tmp);
    if ds == [] then VarsOut(body, SyntaxVars)
    else
      match Passes(body, ds, 0)
      case Expanded(t) => VarsOut(t, Nada)
      case InfLoop(t) => VarsOut(t, SynVarsInfLoop)
      case Diverges => VarsHang
  }

  /** A declaration section with no `=` past position 0 is an error, and the formula after the
      `;` comes back untouched. */
  lemma {:induction false} NoDeclarations(found: nat, formula: string)
    requires found < |formula| && FindLastOf(formula[..found], '=') < 1
    ensures ParseVars(found, formula) == VarsOut(formula[found + 1..], SyntaxVars)
  {
  }

  /** A successful expansion leaves no declared name in the text; the guard fires exactly when
      a name is still there after five passes. */
  lemma {:induction false} ExpansionOutcome(found: nat, formula: string)
    requires found < |formula|
    ensures var r := ParseVars(found, formula);
      var ds := SplitDecls(formula[..found]);
      (r.VarsOut? && r.err == Nada ==> !NamePresent(r.text, ds))
      && (r.VarsOut? && r.err == SynVarsInfLoop ==> NamePresent(r.text, ds))
  {
  }

  /** Replacing the first occurrence of a parenthesis-free name by a wrapped value that does
      not hold the name leaves no occurrence before the end of the inserted text. */
  lemma {:induction false} NoOccurrenceBefore(s: string, name: string, v: string, x: nat, k: int)
    requires name != [] && '(' !in name && ')' !in name
    requires forall q :: !OccursAt(v, name, q)
    requires OccursAt(s, name, x) && forall q | 0 <= q < x :: !OccursAt(s, name, q)
    requires 0 <= k < x + |Wrap(v)|
    ensures !OccursAt(Replace(s, x, |name|, Wrap(v)), name, k)
  {
    var w := Wrap(v);
    var s' := Replace(s, x, |name|, w);
    var n := |name|;
    if k + n <= x {
      assert !OccursAt(s, name, k);
      assert s'[..x] == s[..x];
      forall i | k <= i < k + n
        ensures s'[i] == s[i]
      {
        assert s'[i] == s'[..x][i] == s[..x][i] == s[i];
      }
      assert s'[k..k + n] == s[k..k + n];
    } else if k <= x {
      if k + n <= |s'| {
        assert s'[x] == s'[x..x + |w|][0] == '(';
        assert s'[k..k + n][x - k] == '(';
      }
    } else if k + n <= x + |w| - 1 {
      assert s'[k..k + n] == s'[x..x + |w|][k - x..k - x + n] == w[k - x..k - x + n];
      assert w[k - x..k - x + n] == w[1..|w| - 1][k - x - 1..k - x - 1 + n];
      assert !OccursAt(v, name, k - x - 1);
    } else if k + n <= |s'| {
      var q := x + |w| - 1 - k;
      assert s'[x + |w| - 1] == s'[x..x + |w|][|w| - 1] == ')';
      assert s'[k..k + n][q] == ')';
    }
  }

  /** After such a replacement the first occurrence, if any, lies past the inserted text. */
  lemma {:induction false} NextOccurrence(s: string, name: string, v: string, x: nat)
    requires name != [] && '(' !in name && ')' !in name
    requires forall q :: !OccursAt(v, name, q)
    requires OccursAt(s, name, x) && forall q | 0 <= q < x :: !OccursAt(s, name, q)
    ensures var x' := Find(Replace(s, x, |name|, Wrap(v)), name);
      x' == -1 || x' >= x + |Wrap(v)|
  {
    var s' := Replace(s, x, |name|, Wrap(v));
    var x' := Find(s', name);
    FindFirst(s', name);
    if 0 <= x' < x + |Wrap(v)| {
      NoOccurrenceBefore(s, name, v, x, x');
    }
  }

  /** For a nonempty name without parentheses that does not occur in its own value, the
      replacement loop ends within its budget: each replacement moves the first occurrence past
      the inserted text, so the text after it shrinks by the length of the name. */
  lemma {:induction false} ReplaceAllTerminates(s: string, name: string, v: string, w: string, b: nat)
    requires name != [] && '(' !in name && ')' !in name && w == Wrap(v)
    requires forall q :: !OccursAt(v, name, q)
    requires Fits(s, name, b)
    ensures ReplaceAll(s, name, w, b).Some?
  {
    var none: string := [];
    assert none + s == s;
    ReplaceAllSubst(none, s, name, v, b);
  }

  /** Budget `b` covers the text from the first occurrence of `name` on. */
  predicate Fits(s: string, name: string, b: nat)
  {
    Find(s, name) >= 0 ==> b >= |s| - Find(s, name)
  }

  /** One replacement uses one unit of the budget and leaves enough for the rest. */
  lemma {:induction false} BudgetShrinks(s: string, name: string, v: string, w: string, b: nat)
      returns (s': string)
    requires name != [] && '(' !in name && ')' !in name && w == Wrap(v)
    requires forall q :: !OccursAt(v, name, q)
    requires Find(s, name) >= 0 && Fits(s, name, b)
    ensures s' == Replace(s, Find(s, name), |name|, w)
    ensures b > 0 && Fits(s', name, b - 1)
    ensures ReplaceAll(s, name, w, b) == ReplaceAll(s', name, w, b - 1)
  {
    var x := Find(s, name);
    s' := Replace(s, x, |name|, w);
    assert x + |name| <= |s|;
    FindFirst(s, name);
    NextOccurrence(s, name, v, x);
  }

  /** Every budget of at least one more than the text's length suffices for such names. */
  lemma {:induction false} BudgetSuffices(s: string, name: string, v: string)
    requires name != [] && '(' !in name && ')' !in name
    requires forall q :: !OccursAt(v, name, q)
    ensures ReplaceAll(s, name, Wrap(v), Budget(s)).Some?
  {
    ReplaceAllTerminates(s, name, v, Wrap(v), Budget(s));
  }

  /** Every occurrence of `name` in `s` replaced by `w`, from left to right and without
      overlaps, the search going on after each replacement rather than from the start: the
      reference for the text the replacement loop leaves. */
  function Subst(s: string, name: string, w: string): string
    requires name != []
    decreases |s|
  {
    if |s| < |name| then s
    else if s[..|name|] == name then w + Subst(s[|name|..], name, w)
    else [s[0]] + Subst(s[1..], name, w)
  }

  /** A suffix of `t` without an occurrence is left as it is. */
  lemma {:induction false} SubstAbsent(t: string, name: string, w: string, i: nat)
    requires name != [] && i <= |t| && forall k | i <= k :: !OccursAt(t, name, k)
    ensures Subst(t[i..], name, w) == t[i..]
    decreases |t| - i
  {
    if i < |t| {
      SubstSkip(t, name, w, i);
      SubstAbsent(t, name, w, i + 1);
      assert t[i..] == [t[i]] + t[i + 1..];
    }
  }

  /** From position `i` up to the first occurrence `x` the text is kept, the occurrence
      becomes `w`, and the substitution goes on after it. */
  lemma {:induction false} SubstFirst(t: string, name: string, w: string, i: nat, x: nat)
    requires name != [] && i <= x && OccursAt(t, name, x)
    requires forall k | i <= k < x :: !OccursAt(t, name, k)
    ensures Subst(t[i..], name, w) == t[i..x] + w + Subst(t[x + |name|..], name, w)
    decreases x - i
  {
    var r := Subst(t[x + |name|..], name, w);
    if i == x {
      SubstHere(t, name, w, x);
      assert t[x..x] + w == w;
    } else {
      SubstFirst(t, name, w, i + 1, x);
      SubstSkip(t, name, w, i);
      assert [t[i]] + t[i + 1..x] == t[i..x];
      PrependJoin([t[i]], t[i + 1..x], w, r, t[i..x]);
    }
  }

  /** An occurrence at `x` becomes `w`. */
  lemma {:induction false} SubstHere(t: string, name: string, w: string, x: nat)
    requires name != [] && OccursAt(t, name, x)
    ensures Subst(t[x..], name, w) == w + Subst(t[x + |name|..], name, w)
  {
    assert t[x..][..|name|] == name;
    assert t[x..][|name|..] == t[x + |name|..];
  }

  /** Without an occurrence at `i`, the character there is kept. */
  lemma {:induction false} SubstSkip(t: string, name: string, w: string, i: nat)
    requires name != [] && i < |t| && !OccursAt(t, name, i)
    ensures Subst(t[i..], name, w) == [t[i]] + Subst(t[i + 1..], name, w)
  {
    assert t[i..][1..] == t[i + 1..];
    if |t| - i >= |name| {
      assert t[i..][..|name|] == t[i..i + |name|];
    } else {
      assert Subst(t[i + 1..], name, w) == t[i + 1..];
      assert t[i..] == [t[i]] + t[i + 1..];
    }
  }

  /** The replacement loop over `p + t`, where no occurrence starts inside `p`, keeps `p`
      and substitutes every occurrence in `t`. */
  lemma {:induction false} ReplaceAllSubst(p: string, t: string, name: string, v: string, b: nat)
    requires name != [] && '(' !in name && ')' !in name
    requires forall q :: !OccursAt(v, name, q)
    requires forall k | 0 <= k < |p| :: !OccursAt(p + t, name, k)
    requires Fits(p + t, name, b)
    ensures ReplaceAll(p + t, name, Wrap(v), b) == Some(p + Subst(t, name, Wrap(v)))
    decreases b
  {
    var s, w := p + t, Wrap(v);
    var x := Find(s, name);
    if x < 0 {
      NoneLeft(p, t, name, w, b);
    } else {
      var s' := BudgetShrinks(s, name, v, w, b);
      var p', t' := s[..x] + w, s[x + |name|..];
      assert s' == p' + t';
      assert ReplaceAll(s', name, w, b - 1) == Some(p' + Subst(t', name, w)) by {
        FindFirst(s, name);
        NextOccurrence(s, name, v, x);
        FindFirst(s', name);
        ReplaceAllSubst(p', t', name, v, b - 1);
      }
      assert |p| <= x;
      SubstAfterPrefix(p, t, name, w, x);
      calc {
        ReplaceAll(s, name, w, b);
        ReplaceAll(s', name, w, b - 1);
        Some(p' + Subst(t', name, w));
        Some(p + Subst(t, name, w));
      }
    }
  }

  /** Once the name is gone, the loop stops and `t` has nothing left to substitute. */
  lemma {:induction false} NoneLeft(p: string, t: string, name: string, w: string, b: nat)
    requires name != [] && Find(p + t, name) < 0
    ensures ReplaceAll(p + t, name, w, b) == Some(p + Subst(t, name, w))
  {
    FindFirst(p + t, name);
    SuffixOccurrences(p, t, name);
    SubstAbsent(t, name, w, 0);
    assert t[0..] == t;
  }

  /** An occurrence in `t` is one in `p + t`, past `p`. */
  lemma {:induction false} SuffixOccurrences(p: string, t: string, name: string)
    ensures forall k | OccursAt(t, name, k) :: OccursAt(p + t, name, |p| + k)
  {
    forall k | OccursAt(t, name, k)
      ensures OccursAt(p + t, name, |p| + k)
    {
      assert (p + t)[|p| + k..|p| + k + |name|] == t[k..k + |name|];
    }
  }

  /** When the first occurrence in `p + t` lies at `x`, past `p`, substituting in `t` and
      putting `p` back gives the text up to `x`, then `w`, then the substitution after it. */
  lemma {:induction false} SubstAfterPrefix(p: string, t: string, name: string, w: string, x: int)
    requires name != [] && |p| <= x && Find(p + t, name) == x
    ensures p + Subst(t, name, w)
      == (p + t)[..x] + w + Subst((p + t)[x + |name|..], name, w)
  {
    var s, n, y := p + t, |name|, x - |p|;
    FirstPastPrefix(p, t, name, x);
    PrefixSlices(p, t, x, n);
    var r := Subst(s[x + n..], name, w);
    assert Subst(t, name, w) == t[..y] + w + r by {
      SubstFirst(t, name, w, 0, y);
    }
    PrependJoin(p, t[..y], w, r, s[..x]);
  }

  /** Putting `p` in front of `u + w + r` when `p + u` is `q`. */
  lemma {:induction false} PrependJoin(p: string, u: string, w: string, r: string, q: string)
    requires p + u == q
    ensures p + (u + w + r) == q + w + r
  {
  }

  /** Slices of `p + t` at `x` and `x + n`, past `p`, against slices of `t`. */
  lemma {:induction false} PrefixSlices(p: string, t: string, x: int, n: nat)
    requires |p| <= x && x + n <= |p + t|
    ensures t[0..] == t && t[0..x - |p|] == t[..x - |p|]
    ensures t[x - |p| + n..] == (p + t)[x + n..]
    ensures p + t[..x - |p|] == (p + t)[..x]
  {
  }

  /** The first occurrence in `p + t`, when it lies past `p`, is the first one in `t`. */
  lemma {:induction false} FirstPastPrefix(p: string, t: string, name: string, x: int)
    requires |p| <= x && Find(p + t, name) == x
    ensures OccursAt(t, name, x - |p|)
    ensures forall k | 0 <= k < x - |p| :: !OccursAt(t, name, k)
  {
    var s, n, y := p + t, |name|, x - |p|;
    FindFirst(s, name);
    assert t[y..y + n] == s[x..x + n];
    forall k | 0 <= k < y
      ensures !OccursAt(t, name, k)
    {
      assert s[|p| + k..|p| + k + n] == t[k..k + n];
      assert !OccursAt(s, name, |p| + k);
    }
  }

  /** For a nonempty name without parentheses that does not occur in its own value, the
      replacement loop replaces every occurrence of the name by the wrapped value. */
  lemma {:induction false} ReplaceAllIsSubst(s: string, name: string, v: string)
    requires name != [] && '(' !in name && ')' !in name
    requires forall q :: !OccursAt(v, name, q)
    ensures ReplaceAll(s, name, Wrap(v), Budget(s)) == Some(Subst(s, name, Wrap(v)))
  {
    var none: string := [];
    assert none + s == s;
    ReplaceAllSubst(none, s, name, v, Budget(s));
    assert none + Subst(s, name, Wrap(v)) == Subst(s, name, Wrap(v));
  }

  /** A name that occurs in its own wrapped value (an empty name always does) is found again
      after every replacement, so the source's loop never ends once the name is in the text. */
  lemma {:induction false} NameInValueDiverges(s: string, name: string, w: string, q: nat, b: nat)
    requires OccursAt(w, name, q) && Find(s, name) >= 0
    ensures ReplaceAll(s, name, w, b) == None
    decreases b
  {
    if b > 0 {
      var x := Find(s, name);
      var s' := Replace(s, x, |name|, w);
      assert s'[x..x + |w|] == w;
      assert s'[x + q..x + q + |name|] == w[q..q + |name|];
      assert OccursAt(s', name, x + q);
      FindFirst(s', name);
      NameInValueDiverges(s', name, w, q, b - 1);
    }
  }
}
