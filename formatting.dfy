/** `format`: thousands separators for a printed number. The exponent part from the last `e`
    on is set aside, and commas go every three characters to the left of the last `.` (or of
    the end), never at or before the first character, nor right after a leading `-`. */
module Formatting {
  import opened Text

  /** Commas every three characters from the right of `s`, at positions past `lim`. */
  function Group(s: string, lim: nat): (r: string)
    ensures |r| >= |s|
    decreases |s|
  {
    if |s| > lim + 3 then Group(s[..|s| - 3], lim) + "," + s[|s| - 3..] else s
  }

  /** The position commas must stay clear of: past a leading `-`, past the first character
      otherwise. */
  function Limit(s: string): (lim: nat)
    requires s != ""
    ensures lim <= 1
  {
    if s[0] == '-' then 1 else 0
  }

  /** The printed number without its exponent part, and the exponent part. */
  function Mantissa(input: string): (body: string)
    requires input != ""
    ensures body != "" && body <= input
  {
    var epos := FindLastOf(input, 'e');
    if epos > 0 then input[..epos] else input
  }

  /** Where the grouped integer part ends: the last `.`, or the end when there is none (or
      when it is the first character). */
  function PointAt(body: string): (found: nat)
    ensures found <= |body|
  {
    var dot := FindLastOf(body, '.');
    if dot <= 0 then |body| else dot
  }

  /** `format(input)`. The source reads `input[0]` unconditionally, so it needs a nonempty
      input. */
  function Format(input: string): (r: string)
    requires input != ""
  {
    var body := Mantissa(input);
    var found := PointAt(body);
    Group(body[..found], Limit(body)) + body[found..] + input[|body|..]
  }

  /** The text with its commas removed. */
  function Strip(s: string): string
  {
    if s == [] then [] else (if s[0] == ',' then [] else [s[0]]) + Strip(s[1..])
  }

  lemma {:induction false} StripAppend(a: string, b: string)
    ensures Strip(a + b) == Strip(a) + Strip(b)
  {
    if a == [] {
      assert a + b == b;
    } else {
      assert (a + b)[0] == a[0] && (a + b)[1..] == a[1..] + b;
      StripAppend(a[1..], b);
    }
  }

  lemma {:induction false} StripClean(s: string)
    requires ',' !in s
    ensures Strip(s) == s
  {
    if s != [] {
      assert s == [s[0]] + s[1..];
      StripClean(s[1..]);
    }
  }

  lemma {:induction false} StripJoin(g: string, b: string)
    ensures Strip(g + "," + b) == Strip(g) + Strip(b)
  {
    StripAppend(g + ",", b);
    StripAppend(g, ",");
    StripComma();
  }

  lemma {:induction false} StripComma()
    ensures Strip(",") == []
  {
    assert ","[1..] == [];
  }

  /** Grouping only adds commas. */
  lemma {:induction false} StripGroup(s: string, lim: nat)
    ensures Strip(Group(s, lim)) == Strip(s)
    decreases |s|
  {
    if |s| > lim + 3 {
      var a, b := s[..|s| - 3], s[|s| - 3..];
      var g := Group(a, lim);
      assert Group(s, lim) == g + "," + b;
      StripGroup(a, lim);
      StripJoin(g, b);
      assert s == a + b;
      StripAppend(a, b);
    }
  }

  /** The formatted text is the grouped integer part, then the rest as it was. */
  lemma {:induction false} FormatParts(input: string)
    requires input != ""
    ensures var body := Mantissa(input);
      var found := PointAt(body);
      Format(input) == Group(body[..found], Limit(body)) + body[found..] + input[|body|..]
      && input == body[..found] + body[found..] + input[|body|..]
  {
    Rejoin(input, Mantissa(input), PointAt(Mantissa(input)));
  }

  lemma {:induction false} Rejoin(input: string, body: string, found: nat)
    requires body <= input && found <= |body|
    ensures input == body[..found] + body[found..] + input[|body|..]
  {
    assert body[..found] + body[found..] == body;
    assert body + input[|body|..] == input;
  }

  /** Removing the commas from the formatted text gives back the text it was made from: the
      formatting adds separators and changes nothing else. */
  lemma {:induction false} FormatStrips(input: string)
    requires input != ""
    ensures Strip(Format(input)) == Strip(input)
    ensures ',' !in input ==> Strip(Format(input)) == input
  {
    var body := Mantissa(input);
    var found := PointAt(body);
    var a, b, c := body[..found], body[found..], input[|body|..];
    FormatParts(input);
    StripGroup(a, Limit(body));
    StripThree(Group(a, Limit(body)), b, c);
    StripThree(a, b, c);
    if ',' !in input {
      StripClean(input);
    }
  }

  lemma {:induction false} StripThree(a: string, b: string, c: string)
    ensures Strip(a + b + c) == Strip(a) + Strip(b) + Strip(c)
  {
    StripAppend(a + b, c);
    StripAppend(a, b);
  }

  /** The number of commas grouping adds: one per full group of three past `lim`. */
  lemma {:induction false} GroupCount(s: string, lim: nat)
    ensures Count(Group(s, lim), ',') == Count(s, ',') + (if |s| > lim then (|s| - lim - 1) / 3 else 0)
    decreases |s|
  {
    if |s| > lim + 3 {
      var a, b := s[..|s| - 3], s[|s| - 3..];
      var g := Group(a, lim);
      assert Group(s, lim) == g + "," + b;
      GroupCount(a, lim);
      CountJoin(g, b);
      assert s == a + b;
      CountAppend(a, b, ',');
      assert (|s| - lim - 1) / 3 == (|a| - lim - 1) / 3 + 1;
    }
  }

  lemma {:induction false} CountJoin(g: string, b: string)
    ensures Count(g + "," + b, ',') == Count(g, ',') + 1 + Count(b, ',')
  {
    CountAppend(g + ",", b, ',');
    CountAppend(g, ",", ',');
    CountComma();
  }

  lemma {:induction false} CountComma()
    ensures Count(",", ',') == 1
  {
    assert ","[1..] == [];
  }

  /** In a grouped text without commas of its own, the commas stand exactly at the positions
      past `lim` that are a multiple of four from the end: every comma has three characters to
      its right before the next one or the end. */
  lemma {:induction false} GroupPositions(s: string, lim: nat)
    requires ',' !in s
    ensures forall k | 0 <= k < |Group(s, lim)| ::
      Group(s, lim)[k] == ',' <==> (k > lim && (|Group(s, lim)| - k) % 4 == 0)
    decreases |s|
  {
    var r := Group(s, lim);
    if |s| > lim + 3 {
      var a, b := s[..|s| - 3], s[|s| - 3..];
      assert ',' !in a by {
        forall k | 0 <= k < |a| ensures a[k] != ',' {
          assert a[k] == s[k];
        }
      }
      GroupPositions(a, lim);
      var g := Group(a, lim);
      assert r == g + "," + b;
      assert |b| == 3 && |r| == |g| + 4;
      forall k | 0 <= k < |r|
        ensures r[k] == ',' <==> (k > lim && (|r| - k) % 4 == 0)
      {
        if k < |g| {
          assert r[k] == g[k];
          assert (|r| - k) % 4 == (|g| - k) % 4;
          assert g[k] == ',' <==> (k > lim && (|g| - k) % 4 == 0);
        } else if k == |g| {
          assert r[k] == ',' && |g| >= |a| && |r| - k == 4;
        } else {
          assert r[k] == b[k - |g| - 1] == s[|s| - 3 + k - |g| - 1];
          assert r[k] != ',';
          assert 1 <= |r| - k <= 3;
          assert (|r| - k) % 4 != 0;
        }
      }
    } else {
      assert r == s;
    }
  }

  /** One step of `format`'s loop: a comma inserted at `k - 3` moves one more group of three
      from the front part into the grouped tail. */
  lemma {:induction false} GroupStep(head: string, k: nat, lim: nat, tail: string, rest: string, body: string)
    requires lim + 3 < k <= |head| && body == head[..k] + tail + rest
    requires Group(head, lim) == Group(head[..k], lim) + tail
    ensures body[..k - 3] + "," + body[k - 3..]
      == head[..k - 3] + ("," + head[k - 3..k] + tail) + rest
    ensures Group(head, lim) == Group(head[..k - 3], lim) + ("," + head[k - 3..k] + tail)
  {
    assert head[..k][..k - 3] == head[..k - 3] && head[..k][k - 3..] == head[k - 3..k];
    assert body[..k - 3] == head[..k - 3];
    assert body[k - 3..] == head[k - 3..k] + tail + rest;
  }

  /** A front part too short for a separator is left alone. */
  lemma {:induction false} GroupShort(s: string, lim: nat)
    requires |s| <= lim + 3
    ensures Group(s, lim) == s
  {
  }

  /** The loop of `format` starts with the whole front part and nothing grouped yet. */
  lemma {:induction false} Unsplit(body: string, found: nat, lim: nat)
    requires found <= |body|
    ensures var head := body[..found];
      head[..found] == head && body == head[..found] + "" + body[found..]
      && Group(head, lim) == Group(head[..found], lim) + ""
  {
  }

  /** `format`'s pieces put together: the grouped front part, the rest of the mantissa and the
      exponent part. */
  lemma {:induction false} FormatAssembled(input: string, mantissa: string, found: nat, lim: nat, e: string)
    requires input != ""
    requires var epos := FindLastOf(input, 'e');
      mantissa == (if epos > 0 then input[..epos] else input)
      && e == (if epos > 0 then input[epos..] else "")
    requires mantissa != "" && found == (if FindLastOf(mantissa, '.') <= 0 then |mantissa|
      else FindLastOf(mantissa, '.'))
    requires lim == if mantissa[0] == '-' then 1 else 0
    ensures Format(input) == Group(mantissa[..found], lim) + mantissa[found..] + e
  {
    assert mantissa == Mantissa(input) && found == PointAt(mantissa) && lim == Limit(mantissa);
  }

  /** Without an exponent the mantissa is the whole text. */
  lemma {:induction false} NoExponent(s: string)
    requires s != "" && 'e' !in s
    ensures Mantissa(s) == s
  {
  }

  /** A number with neither a fraction nor an exponent is grouped whole. */
  lemma {:induction false} FormatInteger(s: string)
    requires s != "" && 'e' !in s && '.' !in s
    ensures Format(s) == Group(s, Limit(s))
  {
    NoExponent(s);
    assert PointAt(s) == |s|;
    assert s[..|s|] == s && s[|s|..] == "";
  }

  /** With a fraction and no exponent, the integer part is grouped and the fraction is left
      alone. */
  lemma {:induction false} FormatFractional(a: string, b: string)
    requires a != "" && 'e' !in a && 'e' !in b && '.' !in b
    ensures Format(a + "." + b) == Group(a, Limit(a)) + "." + b
  {
    var s := a + "." + b;
    Pieces(a, b);
    FormatWithoutExponent(s);
    Associative(Group(a, Limit(a)), ".", b);
  }

  lemma {:induction false} Associative(x: string, y: string, z: string)
    ensures x + (y + z) == x + y + z
  {
  }

  /** Without an exponent, the text up to the point is grouped and the rest is kept. */
  lemma {:induction false} FormatWithoutExponent(s: string)
    requires s != "" && 'e' !in s
    ensures Format(s) == Group(s[..PointAt(s)], Limit(s)) + s[PointAt(s)..]
  {
    NoExponent(s);
    assert s[|s|..] == "";
  }

  /** The pieces of a number with a fraction: the last `.` ends the integer part. */
  lemma {:induction false} Pieces(a: string, b: string)
    requires a != "" && '.' !in b
    ensures var s := a + "." + b;
      PointAt(s) == |a| && Limit(s) == Limit(a)
      && s[..|a|] == a && s[|a|..] == "." + b && s[|s|..] == ""
  {
    LastOccurrence(a, '.', b);
    var s := a + "." + b;
    assert s[0] == a[0];
  }

  /** One more group of three digits adds one separator. */
  lemma {:induction false} GroupOnce(a: string, b: string, lim: nat)
    requires |a| > lim && |b| == 3
    ensures Group(a + b, lim) == Group(a, lim) + "," + b
  {
    var s := a + b;
    assert s[..|s| - 3] == a && s[|s| - 3..] == b;
  }

  /** A seven-digit integer gets two separators. */
  lemma {:induction false} FormatMillions()
    ensures Format("1234567") == "1,234,567"
  {
    assert "1234567" == "1234" + "567" && "1234" == "1" + "234";
    assert "1" + "," + "234" + "," + "567" == "1,234,567";
    GroupOnce("1", "234", 0);
    GroupOnce("1234", "567", 0);
    FormatInteger("1234567");
  }

  /** A separator goes after the first digit, not after the sign. */
  lemma {:induction false} FormatNegative()
    ensures Format("-1234.5") == "-1,234.5"
    ensures Format("-123") == "-123"
  {
    assert "-1234" == "-1" + "234" && "-1234.5" == "-1234" + "." + "5";
    assert "-1" + "," + "234" + "." + "5" == "-1,234.5";
    GroupOnce("-1", "234", 1);
    FormatFractional("-1234", "5");
    FormatInteger("-123");
  }

  /** The fraction is left alone. */
  lemma {:induction false} FormatFraction()
    ensures Format("12345.678") == "12,345.678"
  {
    assert "12345" == "12" + "345" && "12345.678" == "12345" + "." + "678";
    assert "12" + "," + "345" + "." + "678" == "12,345.678";
    GroupOnce("12", "345", 0);
    FormatFractional("12345", "678");
  }
}
