/**
 * The few Python `str` operations the formatter and the scanner rely on,
 * written out over `seq<char>`.
 */
module Strings {
  import opened Wrappers

  /** Python's `str.isspace()` for one character (also the class `\s` of `re`). */
  predicate IsSpace(c: char) {
    var k := c as int;
    k == 0x20 || (0x09 <= k <= 0x0D) || (0x1C <= k <= 0x1F) || k == 0x85 || k == 0xA0
    || k == 0x1680 || (0x2000 <= k <= 0x200A) || k == 0x2028 || k == 0x2029
    || k == 0x202F || k == 0x205F || k == 0x3000
  }

  predicate AllSpace(s: string) {
    forall i :: 0 <= i < |s| ==> IsSpace(s[i])
  }

  /** `s.lstrip()`: what remains once the leading whitespace is dropped. */
  function LStrip(s: string): (r: string)
    ensures |r| <= |s| && r == s[|s| - |r|..]
    ensures AllSpace(s[..|s| - |r|])
    ensures r == [] || !IsSpace(r[0])
  {
    if s != [] && IsSpace(s[0]) then
      var r := LStrip(s[1..]);
      SpaceThenTail(s, r);
      r
    else s
  }

  /** A tail of `s[1..]` behind whitespace is a tail of `s` behind whitespace when `s[0]` is whitespace. */
  lemma SpaceThenTail(s: string, r: string)
    requires s != [] && IsSpace(s[0])
    requires |r| <= |s| - 1 && r == s[1..][|s| - 1 - |r|..] && AllSpace(s[1..][..|s| - 1 - |r|])
    ensures r == s[|s| - |r|..] && AllSpace(s[..|s| - |r|])
  {
    assert s[..|s| - |r|] == [s[0]] + s[1..][..|s| - 1 - |r|];
  }

  /** `lstrip` of a string that does not start with whitespace leaves it as it is. */
  lemma LStripKeeps(s: string)
    requires s == [] || !IsSpace(s[0])
    ensures LStrip(s) == s
  {
  }

  /** `lstrip` drops a leading whitespace character and goes on. */
  lemma LStripDrops(s: string)
    requires s != [] && IsSpace(s[0])
    ensures LStrip(s) == LStrip(s[1..])
  {
  }

  /** Leading whitespace before a non-space character is what `lstrip` removes. */
  lemma {:induction false} LStripAfterSpace(ws: string, x: string)
    requires AllSpace(ws) && x != [] && !IsSpace(x[0])
    ensures LStrip(ws + x) == x
  {
    if ws == [] {
      assert ws + x == x;
      LStripKeeps(x);
    } else {
      assert (ws + x)[1..] == ws[1..] + x;
      LStripDrops(ws + x);
      LStripAfterSpace(ws[1..], x);
    }
  }

  /** `s.rstrip()`: what remains once the trailing whitespace is dropped. */
  function RStrip(s: string): (r: string)
    ensures |r| <= |s| && r == s[..|r|]
    ensures AllSpace(s[|r|..])
    ensures r == [] || !IsSpace(r[|r| - 1])
  {
    if s != [] && IsSpace(s[|s| - 1]) then
      var r := RStrip(s[..|s| - 1]);
      assert s[|r|..] == s[..|s| - 1][|r|..] + [s[|s| - 1]];
      r
    else s
  }

  /** Trailing whitespace after a non-space character is what `rstrip` removes. */
  lemma {:induction false} RStripBeforeSpace(x: string, ws: string)
    requires AllSpace(ws) && x != [] && !IsSpace(x[|x| - 1])
    ensures RStrip(x + ws) == x
  {
    if ws == [] {
      assert x + ws == x;
    } else {
      var p := ws[..|ws| - 1];
      assert (x + ws)[..|x + ws| - 1] == x + p;
      RStripBeforeSpace(x, p);
    }
  }

  /** `s.strip()`: the middle of `s` between leading and trailing whitespace. */
  function Strip(s: string): (r: string)
    ensures |r| <= |s|
    ensures r == [] || (!IsSpace(r[0]) && !IsSpace(r[|r| - 1]))
  {
    RStrip(LStrip(s))
  }

  /** `strip` removes whitespace from each end and nothing else. */
  lemma StripParts(s: string)
    ensures var l := LStrip(s);
            && AllSpace(s[..|s| - |l|]) && AllSpace(l[|Strip(s)|..])
            && s == s[..|s| - |l|] + Strip(s) + l[|Strip(s)|..]
  {
    StripLeft(s);
    StripRight(s);
    StripAround(s);
  }

  lemma StripLeft(s: string)
    ensures AllSpace(s[..|s| - |LStrip(s)|])
  {
  }

  lemma StripRight(s: string)
    ensures AllSpace(LStrip(s)[|Strip(s)|..])
  {
  }

  lemma StripAround(s: string)
    ensures var l := LStrip(s); s == s[..|s| - |l|] + Strip(s) + l[|Strip(s)|..]
  {
    Around(s, LStrip(s), Strip(s));
  }

  /** A suffix `l` of `s` and a prefix `r` of `l` cut `s` into three parts. */
  lemma Around(s: string, l: string, r: string)
    requires |l| <= |s| && l == s[|s| - |l|..] && |r| <= |l| && r == l[..|r|]
    ensures s == s[..|s| - |l|] + r + l[|r|..]
  {
    assert s == s[..|s| - |l|] + l;
    assert l == r + l[|r|..];
  }

  /** `s.endswith(suffix)`. */
  predicate EndsWith(s: string, suffix: string) {
    |suffix| <= |s| && s[|s| - |suffix|..] == suffix
  }

  /** `n * [c]` as a string; Python yields the empty string for `n <= 0`. */
  function Repeat(c: char, n: int): (r: string)
    ensures |r| == if n > 0 then n else 0
    ensures forall i :: 0 <= i < |r| ==> r[i] == c
    decreases n
  {
    if n <= 0 then "" else [c] + Repeat(c, n - 1)
  }

  /** `s.replace(a, b)` for single characters. */
  function ReplaceChar(s: string, a: char, b: char): (r: string)
    ensures |r| == |s|
    ensures forall i :: 0 <= i < |s| ==> r[i] == if s[i] == a then b else s[i]
  {
    if s == [] then "" else [if s[0] == a then b else s[0]] + ReplaceChar(s[1..], a, b)
  }

  /** `''.join(parts)`. */
  function Concat(parts: seq<string>): string {
    if parts == [] then "" else parts[0] + Concat(parts[1..])
  }

  /** Joining a concatenation of lists joins each list and concatenates the results. */
  lemma {:induction false} ConcatAppend(a: seq<string>, b: seq<string>)
    ensures Concat(a + b) == Concat(a) + Concat(b)
  {
    if a == [] {
      assert a + b == b;
    } else {
      assert (a + b)[0] == a[0] && (a + b)[1..] == a[1..] + b;
      ConcatAppend(a[1..], b);
    }
  }

  /** `sep.join(parts)`. */
  function Join(parts: seq<string>, sep: string): string {
    if parts == [] then ""
    else if |parts| == 1 then parts[0]
    else parts[0] + sep + Join(parts[1..], sep)
  }

  /** Number of occurrences of `c` in `s`. */
  function Count(s: string, c: char): nat {
    if s == [] then 0 else (if s[0] == c then 1 else 0) + Count(s[1..], c)
  }

  /** `s.split(c)` for a one-character separator: never empty, one piece more than separators. */
  function Split(s: string, c: char): (r: seq<string>)
    ensures |r| >= 1
  {
    if s == [] then [""]
    else
      var rest := Split(s[1..], c);
      if s[0] == c then [""] + rest else [[s[0]] + rest[0]] + rest[1..]
  }

  /** `[prefix + l for l in ls]`. */
  function Indent(prefix: string, ls: seq<string>): (r: seq<string>)
    ensures |r| == |ls|
    ensures forall i :: 0 <= i < |ls| ==> r[i] == prefix + ls[i]
  {
    seq(|ls|, i requires 0 <= i < |ls| => prefix + ls[i])
  }

  /** `[l.rstrip() for l in ls]`. */
  function RStripAll(ls: seq<string>): (r: seq<string>)
    ensures |r| == |ls|
    ensures forall i :: 0 <= i < |ls| ==> r[i] == RStrip(ls[i])
  {
    seq(|ls|, i requires 0 <= i < |ls| => RStrip(ls[i]))
  }

  /** Splitting on `c` and joining with `c` gives back the string. */
  lemma {:induction false} SplitJoin(s: string, c: char)
    ensures Join(Split(s, c), [c]) == s
  {
    if s != [] {
      var rest := Split(s[1..], c);
      SplitJoin(s[1..], c);
      if s[0] != c {
        JoinOntoFirst(s[0], rest, [c]);
      } else {
        assert Join([""] + rest, [c]) == "" + [c] + Join(rest, [c]);
      }
      assert s == [s[0]] + s[1..];
    }
  }

  /** Prefixing the first part prefixes the joined string. */
  lemma JoinOntoFirst(x: char, parts: seq<string>, sep: string)
    requires |parts| > 0
    ensures Join([[x] + parts[0]] + parts[1..], sep) == [x] + Join(parts, sep)
  {
    var p := [[x] + parts[0]] + parts[1..];
    if |parts| > 1 {
      assert p[1..] == parts[1..];
    }
  }

  /** `s.split(c)` has exactly one piece more than `s` has occurrences of `c`, and no piece holds `c`. */
  lemma {:induction false} SplitCount(s: string, c: char)
    ensures |Split(s, c)| == Count(s, c) + 1
    ensures forall k :: 0 <= k < |Split(s, c)| ==> c !in Split(s, c)[k]
  {
    if s != [] {
      SplitCount(s[1..], c);
      var rest := Split(s[1..], c);
      if s[0] != c {
        var p := Split(s, c);
        assert p == [[s[0]] + rest[0]] + rest[1..];
        forall k | 0 <= k < |p| ensures c !in p[k] {
          if k > 0 { assert p[k] == rest[k]; }
        }
      }
    }
  }
}
