/** Character classes by code point and the `std::string` searches the calculator uses.
    A search that finds nothing returns -1, the value `npos` takes once stored in an `int`. */
module Text {

  predicate IsDigit(c: char)
  {
    '0' <= c <= '9'
  }

  predicate IsLower(c: char)
  {
    'a' <= c <= 'z'
  }

  predicate IsUpper(c: char)
  {
    'A' <= c <= 'Z'
  }

  /** `(char)(c + 32)` applied to an upper-case letter; other characters unchanged. */
  function Lower(c: char): (d: char)
    ensures IsUpper(c) ==> IsLower(d)
    ensures !IsUpper(c) ==> d == c
  {
    if IsUpper(c) then (c as int + 32) as char else c
  }

  /** `s.find_last_of(c)`. */
  function FindLastOf(s: string, c: char): (r: int)
    ensures -1 <= r < |s|
    ensures r >= 0 ==> s[r] == c && c !in s[r + 1..]
    ensures r == -1 <==> c !in s
  {
    if s == [] then -1
    else if s[|s| - 1] == c then |s| - 1
    else
      var r := FindLastOf(s[..|s| - 1], c);
      assert s == s[..|s| - 1] + [s[|s| - 1]];
      r
  }

  /** The last occurrence of `x` is the one right before a tail that does not hold `x`. */
  lemma {:induction false} LastOccurrence(a: string, x: char, b: string)
    requires x !in b
    ensures FindLastOf(a + [x] + b, x) == |a|
    decreases |b|
  {
    var s := a + [x] + b;
    if b == [] {
      assert s[|s| - 1] == x;
    } else {
      var b' := b[..|b| - 1];
      assert s[..|s| - 1] == a + [x] + b';
      assert s[|s| - 1] == b[|b| - 1];
      assert x !in b' by {
        assert forall k | 0 <= k < |b'| :: b'[k] == b[k];
      }
      LastOccurrence(a, x, b');
    }
  }

  /** `s.find_first_of(chars, from)`: the first position at or after `from` holding one of `chars`. */
  function FindFirstOf(s: string, chars: set<char>, from: nat): (r: int)
    decreases |s| - from
    ensures r == -1 || (from <= r < |s| && s[r] in chars)
    ensures forall k | from <= k < |s| && (r == -1 || k < r) :: s[k] !in chars
  {
    if from >= |s| then -1
    else if s[from] in chars then from
    else FindFirstOf(s, chars, from + 1)
  }

  /** `s.find(c)` for one character. */
  function FindChar(s: string, c: char): (r: int)
    ensures r == FindFirstOf(s, {c}, 0)
    ensures r == -1 <==> c !in s
    ensures r >= 0 ==> r < |s| && s[r] == c && c !in s[..r]
  {
    var r := FindFirstOf(s, {c}, 0);
    assert r == -1 ==> forall k | 0 <= k < |s| :: s[k] != c;
    r
  }

  /** `t` occurs in `s` at position `k`. */
  predicate OccursAt(s: string, t: string, k: int)
  {
    0 <= k && k + |t| <= |s| && s[k..k + |t|] == t
  }

  /** `s.find(t, from)`: the first position at or after `from` where `t` occurs. */
  function FindFrom(s: string, t: string, from: nat): (r: int)
    decreases |s| - from
    ensures r == -1 || (from <= r && OccursAt(s, t, r))
  {
    if from + |t| > |s| then -1
    else if s[from..from + |t|] == t then from
    else FindFrom(s, t, from + 1)
  }

  /** No occurrence lies between `from` and the one `FindFrom` reports. */
  lemma {:induction false} FindFromFirst(s: string, t: string, from: nat)
    ensures var r := FindFrom(s, t, from);
      forall k | from <= k && (r == -1 || k < r) :: !OccursAt(s, t, k)
    decreases |s| - from
  {
    if from + |t| <= |s| && s[from..from + |t|] != t {
      FindFromFirst(s, t, from + 1);
    }
  }

  /** `s.find(t)`. */
  function Find(s: string, t: string): (r: int)
    ensures r == -1 || OccursAt(s, t, r)
  {
    FindFrom(s, t, 0)
  }

  /** `s.find(t)` reports the first occurrence, and -1 only when there is none. */
  lemma {:induction false} FindFirst(s: string, t: string)
    ensures var r := Find(s, t);
      forall k | 0 <= k && (r == -1 || k < r) :: !OccursAt(s, t, k)
  {
    FindFromFirst(s, t, 0);
  }

  /** `s.replace(x, n, w)`: the `n` characters at `x` give way to `w`. */
  function Replace(s: string, x: nat, n: nat, w: string): (r: string)
    requires x + n <= |s|
    ensures |r| == |s| - n + |w|
    ensures r[..x] == s[..x] && r[x..x + |w|] == w && r[x + |w|..] == s[x + n..]
  {
    s[..x] + w + s[x + n..]
  }

  /** The number of occurrences of `c` in `s`. */
  function Count(s: string, c: char): (n: nat)
    ensures n <= |s|
    ensures n == 0 <==> c !in s
  {
    if s == [] then 0
    else (if s[0] == c then 1 else 0) + Count(s[1..], c)
  }

  lemma {:induction false} CountAppend(a: string, b: string, c: char)
    ensures Count(a + b, c) == Count(a, c) + Count(b, c)
  {
    if a != [] {
      assert (a + b)[0] == a[0] && (a + b)[1..] == a[1..] + b;
      CountAppend(a[1..], b, c);
      assert Count(a + b, c) == (if a[0] == c then 1 else 0) + Count(a[1..] + b, c);
    } else {
      assert a + b == b;
    }
  }
}
