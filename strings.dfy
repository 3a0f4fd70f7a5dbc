/**
 * The few Python `str` operations the statement builders rely on:
 * `sep.join`, `count`, `strip`, `split(sep)`, `upper` and `endswith`.
 */
module Strings {

  /** Python's `sep.join(parts)`. */
  function Join(parts: seq<string>, sep: string): string
    decreases |parts|
  {
    if |parts| == 0 then ""
    else if |parts| == 1 then parts[0]
    else parts[0] + sep + Join(parts[1..], sep)
  }

  /** Python's `s.count(c)` for a single character `c`. */
  function Count(s: string, c: char): nat
  {
    if s == [] then 0 else (if s[0] == c then 1 else 0) + Count(s[1..], c)
  }

  /** The sum of `p.count(c)` over all `p` in `parts`. */
  function CountAll(parts: seq<string>, c: char): nat
  {
    if parts == [] then 0 else Count(parts[0], c) + CountAll(parts[1..], c)
  }

  lemma {:induction false} CountAbsent(s: string, c: char)
    ensures Count(s, c) == 0 <==> c !in s
  {
    if s != [] {
      CountAbsent(s[1..], c);
      assert s == [s[0]] + s[1..];
    }
  }

  lemma {:induction false} CountConcat(a: string, b: string, c: char)
    ensures Count(a + b, c) == Count(a, c) + Count(b, c)
  {
    if a == [] {
      assert a + b == b;
    } else {
      assert (a + b)[1..] == a[1..] + b;
      CountConcat(a[1..], b, c);
    }
  }

  /** Joining with a separator free of `c` adds no occurrence of `c`. */
  lemma {:induction false} CountJoin(parts: seq<string>, sep: string, c: char)
    requires c !in sep
    ensures Count(Join(parts, sep), c) == CountAll(parts, c)
  {
    CountAbsent(sep, c);
    if |parts| == 1 {
      assert parts[1..] == [];
    } else if |parts| >= 2 {
      CountJoin(parts[1..], sep, c);
      CountConcat(parts[0], sep, c);
      CountConcat(parts[0] + sep, Join(parts[1..], sep), c);
    }
  }

  // ---------------------------------------------------------------------
  // str.strip()

  /** The characters `str.isspace()` accepts, which `str.strip()` removes. */
  predicate IsSpace(c: char)
  {
    c == ' ' || ('\t' <= c <= '\r') || ('\U{1c}' <= c <= '\U{1f}') ||
    c == '\U{85}' || c == '\U{a0}' || c == '\U{1680}' ||
    ('\U{2000}' <= c <= '\U{200a}') || c == '\U{2028}' || c == '\U{2029}' ||
    c == '\U{202f}' || c == '\U{205f}' || c == '\U{3000}'
  }

  predicate AllSpace(s: string)
  {
    forall i :: 0 <= i < |s| ==> IsSpace(s[i])
  }

  /** The number of whitespace characters `s` starts with. */
  function Leading(s: string): (n: nat)
    ensures n <= |s|
    ensures forall k :: 0 <= k < n ==> IsSpace(s[k])
    ensures n < |s| ==> !IsSpace(s[n])
  {
    if s != [] && IsSpace(s[0]) then
      var n := Leading(s[1..]);
      assert forall k :: 1 <= k < n + 1 ==> s[k] == s[1..][k - 1];
      1 + n
    else 0
  }

  /** The number of whitespace characters `s` ends with. */
  function Trailing(s: string): (n: nat)
    ensures n <= |s|
    ensures forall k :: |s| - n <= k < |s| ==> IsSpace(s[k])
    ensures n < |s| ==> !IsSpace(s[|s| - n - 1])
  {
    if s != [] && IsSpace(s[|s| - 1]) then
      var n := Trailing(s[..|s| - 1]);
      assert forall k :: |s| - 1 - n <= k < |s| - 1 ==> s[k] == s[..|s| - 1][k];
      1 + n
    else 0
  }

  /** Python's `s.lstrip()`. */
  function TrimStart(s: string): string
  {
    s[Leading(s)..]
  }

  /** Python's `s.rstrip()`. */
  function TrimEnd(s: string): string
  {
    s[..|s| - Trailing(s)]
  }

  /** Python's `s.strip()`. */
  function Strip(s: string): string
  {
    TrimEnd(TrimStart(s))
  }

  /** A string strips to the empty string exactly when it is all whitespace. */
  lemma {:induction false} StripEmpty(s: string)
    ensures Strip(s) == [] <==> AllSpace(s)
  {
    var i := Leading(s);
    if Strip(s) == [] {
      assert s[..i] == s;
    } else {
      assert Strip(s)[0] == s[i];
    }
  }

  /** Stripping twice is stripping once. */
  lemma {:induction false} StripIdempotent(s: string)
    ensures Strip(Strip(s)) == Strip(s)
  {
    var t := TrimStart(s);
    var r := Strip(s);
    if r != [] {
      assert r[0] == t[0];
      assert r[|r| - 1] == t[|t| - Trailing(t) - 1];
      assert Leading(r) == 0 && Trailing(r) == 0;
      assert TrimStart(r) == r;
    }
  }

  // ---------------------------------------------------------------------
  // str.split(sep) for a one-character separator

  /** Python's `s.split(d)`: always at least one part, the parts between the `d`s. */
  function Split(s: string, d: char): (parts: seq<string>)
    ensures |parts| >= 1
  {
    if s == [] then [""]
    else
      var rest := Split(s[1..], d);
      if s[0] == d then [""] + rest else [[s[0]] + rest[0]] + rest[1..]
  }

  /** The parts of a split never contain the separator. */
  lemma {:induction false} SplitParts(s: string, d: char)
    ensures forall p :: p in Split(s, d) ==> d !in p
  {
    if s != [] {
      SplitParts(s[1..], d);
    }
  }

  /** Joining the parts back with the separator gives the original string. */
  lemma {:induction false} SplitJoin(s: string, d: char)
    ensures Join(Split(s, d), [d]) == s
  {
    if s != [] {
      var rest := Split(s[1..], d);
      SplitJoin(s[1..], d);
      if s[0] == d {
        assert ([""] + rest)[1..] == rest;
      } else {
        var parts := [[s[0]] + rest[0]] + rest[1..];
        if |rest| == 1 {
          assert parts == [[s[0]] + rest[0]];
        } else {
          assert parts[1..] == rest[1..];
          assert Join(rest, [d]) == rest[0] + [d] + Join(rest[1..], [d]);
        }
      }
    }
  }

  // ---------------------------------------------------------------------
  // str.upper() and str.endswith()

  /**
   * The one-character cases of `str.upper()` whose result is a capital
   * ASCII letter: `a`-`z`, dotless `\U{131}` and long `\U{17f}`.
   */
  function UpperChar(c: char): char
  {
    if 'a' <= c <= 'z' then (c as int - 32) as char
    else if c == '\U{131}' then 'I'  // dotless i
    else if c == '\U{17f}' then 'S'  // long s
    else c
  }

  function Upper(s: string): string
  {
    seq(|s|, i requires 0 <= i < |s| => UpperChar(s[i]))
  }

  /** Upper-casing twice is upper-casing once. */
  lemma {:induction false} UpperIdempotent(s: string)
    ensures Upper(Upper(s)) == Upper(s)
  {
    assert forall i :: 0 <= i < |s| ==> Upper(Upper(s))[i] == Upper(s)[i];
  }

  /** A word made of capital ASCII letters only, such as a type name. */
  predicate Capitals(name: string)
  {
    forall i :: 0 <= i < |name| ==> 'A' <= name[i] <= 'Z'
  }

  /** `c` is a way of writing the capital letter `u`: itself, its lower case, or `\U{131}`/`\U{17f}` for `I`/`S`. */
  predicate Spells(c: char, u: char)
  {
    c == u || c as int == u as int + 32 || (u == 'I' && c == '\U{131}') || (u == 'S' && c == '\U{17f}')
  }

  /** `t` is the word `name` written in any mix of letter cases. */
  predicate SpelledAs(t: string, name: string)
  {
    |t| == |name| && forall i :: 0 <= i < |t| ==> Spells(t[i], name[i])
  }

  lemma {:induction false} UpperCharSpells(c: char, u: char)
    requires 'A' <= u <= 'Z'
    ensures UpperChar(c) == u <==> Spells(c, u)
  {
  }

  /** `t.upper() == name` for a capital word `name` holds exactly when `t` spells `name`. */
  lemma {:induction false} UpperMatches(t: string, name: string)
    requires Capitals(name)
    ensures Upper(t) == name <==> SpelledAs(t, name)
  {
    if |t| == |name| {
      forall i | 0 <= i < |t|
        ensures Upper(t)[i] == name[i] <==> Spells(t[i], name[i])
      {
        UpperCharSpells(t[i], name[i]);
      }
      if SpelledAs(t, name) {
        assert forall i :: 0 <= i < |t| ==> Upper(t)[i] == name[i];
      }
    }
  }

  /** Python's `s.endswith(suffix)`; every string ends with the empty suffix. */
  predicate EndsWith(s: string, suffix: string)
  {
    |suffix| <= |s| && s[|s| - |suffix|..] == suffix
  }
}
