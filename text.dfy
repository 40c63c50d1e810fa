/**
 * Python string operations the transcript code relies on, on `seq<char>`:
 * `str.strip()`, `str.lower()` (ASCII letters only), `startswith`, `in`,
 * `"".join`, `str.replace`, slicing with a negative stop, and `str(n)`.
 */
module Text {

  /** Python's `str.isspace()`: the characters `str.strip()` removes. */
  predicate IsSpace(c: char) {
    c == ' ' || ('\t' <= c <= '\r') || ('\U{1C}' <= c <= '\U{1F}')
    || c == '\U{85}' || c == '\U{A0}' || c == '\U{1680}'
    || ('\U{2000}' <= c <= '\U{200A}') || c == '\U{2028}' || c == '\U{2029}'
    || c == '\U{202F}' || c == '\U{205F}' || c == '\U{3000}'
  }

  predicate AllSpace(s: string) {
    forall k :: 0 <= k < |s| ==> IsSpace(s[k])
  }

  /** Python's `s.lstrip()`. */
  function StripLeft(s: string): string {
    if |s| > 0 && IsSpace(s[0]) then StripLeft(s[1..]) else s
  }

  /** Python's `s.rstrip()`. */
  function StripRight(s: string): string {
    if |s| > 0 && IsSpace(s[|s| - 1]) then StripRight(s[..|s| - 1]) else s
  }

  /** `lstrip` removes a whitespace prefix and leaves a result that does not start with whitespace. */
  lemma {:induction false} StripLeftSpec(s: string)
    ensures var r := StripLeft(s);
            |r| <= |s| && r == s[|s| - |r|..] && (|r| > 0 ==> !IsSpace(r[0])) && AllSpace(s[..|s| - |r|])
    decreases |s|
  {
    if |s| > 0 && IsSpace(s[0]) {
      var t := s[1..];
      StripLeftSpec(t);
      var r := StripLeft(t);
      assert StripLeft(s) == r;
      assert t[|t| - |r|..] == s[|s| - |r|..];
      var pre := s[..|s| - |r|];
      forall k | 0 <= k < |pre| ensures IsSpace(pre[k]) {
        if 0 < k {
          assert pre[k] == t[..|t| - |r|][k - 1];
        }
      }
    }
  }

  /** `rstrip` removes a whitespace suffix and leaves a result that does not end with whitespace. */
  lemma {:induction false} StripRightSpec(s: string)
    ensures var r := StripRight(s);
            |r| <= |s| && r == s[..|r|] && (|r| > 0 ==> !IsSpace(r[|r| - 1])) && AllSpace(s[|r|..])
    decreases |s|
  {
    if |s| > 0 && IsSpace(s[|s| - 1]) {
      var t := s[..|s| - 1];
      StripRightSpec(t);
      var r := StripRight(t);
      assert StripRight(s) == r;
      assert t[..|r|] == s[..|r|];
      var post := s[|r|..];
      forall k | 0 <= k < |post| ensures IsSpace(post[k]) {
        if k < |t| - |r| {
          assert post[k] == t[|r|..][k];
        }
      }
    }
  }

  /** Python's `s.strip()`. */
  function Strip(s: string): string {
    StripRight(StripLeft(s))
  }

  /** `Strip(s)` is the slice of `s` between its leading and trailing whitespace. */
  lemma {:induction false} StripIsTrimmedSlice(s: string)
    ensures exists i, j :: (0 <= i <= j <= |s| && Strip(s) == s[i..j]
        && AllSpace(s[..i]) && AllSpace(s[j..]))
    ensures |Strip(s)| > 0 ==> !IsSpace(Strip(s)[0]) && !IsSpace(Strip(s)[|Strip(s)| - 1])
  {
    var l := StripLeft(s);
    var r := StripRight(l);
    StripLeftSpec(s);
    StripRightSpec(l);
    var i := |s| - |l|;
    var j := i + |r|;
    assert l == s[i..];
    assert r == l[..|r|];
    assert s[i..j] == r;
    assert s[j..] == l[|r|..];
    assert AllSpace(s[..i]) && AllSpace(s[j..]);
    if |r| > 0 {
      assert r[0] == l[0];
    }
  }

  lemma {:induction false} StripLeftOfSpaces(w: string, s: string)
    requires AllSpace(w)
    ensures StripLeft(w + s) == StripLeft(s)
  {
    if |w| > 0 {
      assert (w + s)[1..] == w[1..] + s;
      StripLeftOfSpaces(w[1..], s);
    } else {
      assert w + s == s;
    }
  }

  lemma {:induction false} StripRightOfSpaces(s: string, w: string)
    requires AllSpace(w)
    ensures StripRight(s + w) == StripRight(s)
  {
    if |w| > 0 {
      assert (s + w)[..|s + w| - 1] == s + w[..|w| - 1];
      StripRightOfSpaces(s, w[..|w| - 1]);
    } else {
      assert s + w == s;
    }
  }

  lemma {:induction false} StripRightIdempotent(s: string)
    ensures StripRight(StripRight(s)) == StripRight(s)
  {
    StripRightSpec(s);
  }

  lemma {:induction false} StripLeftKeepsRightEdge(s: string)
    requires |s| > 0 && !IsSpace(s[|s| - 1])
    ensures |StripLeft(s)| > 0 && StripLeft(s)[|StripLeft(s)| - 1] == s[|s| - 1]
  {
    if IsSpace(s[0]) {
      StripLeftKeepsRightEdge(s[1..]);
    }
  }

  lemma {:induction false} StripLeftOfRightSpaces(s: string, w: string)
    requires AllSpace(w)
    ensures StripRight(StripLeft(s + w)) == StripRight(StripLeft(s))
    decreases |s|
  {
    if |s| == 0 {
      assert s + w == w;
      StripLeftOfSpaces(w, "");
      assert w + "" == w;
    } else if IsSpace(s[0]) {
      assert (s + w)[1..] == s[1..] + w;
      StripLeftOfRightSpaces(s[1..], w);
    } else {
      StripRightOfSpaces(s, w);
    }
  }

  /** Whitespace around a string does not survive `strip()`. */
  lemma {:induction false} StripOfPadded(a: string, s: string, b: string)
    requires AllSpace(a) && AllSpace(b)
    ensures Strip(a + s + b) == Strip(s)
  {
    assert a + s + b == a + (s + b);
    StripLeftOfSpaces(a, s + b);
    StripLeftOfRightSpaces(s, b);
  }

  /** `strip()` is idempotent. */
  lemma {:induction false} StripIdempotent(s: string)
    ensures Strip(Strip(s)) == Strip(s)
  {
    var r := Strip(s);
    if |r| > 0 {
      StripIsTrimmedSlice(s);
      assert StripLeft(r) == r;
    }
  }

  /** ASCII case folding, the part of Python's `str.lower()` the model keeps. */
  function Lower(c: char): (r: char)
    ensures ('A' <= c <= 'Z') ==> 'a' <= r <= 'z'
    ensures !('A' <= c <= 'Z') ==> r == c
  {
    if 'A' <= c <= 'Z' then (c as int + 32) as char else c
  }

  /** Python's `s.lower()`, character by character. */
  function LowerStr(s: string): (r: string)
    ensures |r| == |s|
  {
    if s == [] then [] else [Lower(s[0])] + LowerStr(s[1..])
  }

  lemma {:induction false} LowerStrAt(s: string, k: nat)
    requires k < |s|
    ensures LowerStr(s)[k] == Lower(s[k])
    decreases k
  {
    if k > 0 {
      LowerStrAt(s[1..], k - 1);
    }
  }

  /** The text has no upper-case ASCII letter, as the settings form makes delimiters. */
  predicate LowerCase(s: string) {
    forall k :: 0 <= k < |s| ==> !('A' <= s[k] <= 'Z')
  }

  /** Lower-casing a lower-case text changes nothing. */
  lemma {:induction false} LowerStrOfLowerCase(s: string)
    requires LowerCase(s)
    ensures LowerStr(s) == s
  {
    forall k | 0 <= k < |s| ensures LowerStr(s)[k] == s[k] {
      LowerStrAt(s, k);
    }
  }

  /** Lower-cased text is lower case. */
  lemma {:induction false} LowerStrIsLowerCase(s: string)
    ensures LowerCase(LowerStr(s))
  {
    forall k | 0 <= k < |s| ensures !('A' <= LowerStr(s)[k] <= 'Z') {
      LowerStrAt(s, k);
    }
  }

  /** Lowering never produces a character that is not itself a letter, so punctuation compares exactly. */
  lemma {:induction false} LowerFixesNonLetters(c: char, x: char)
    requires !('A' <= x <= 'Z') && !('a' <= x <= 'z')
    ensures Lower(c) == x <==> c == x
  {
  }

  /** Python's `s.startswith(p)`. */
  predicate StartsWith(s: string, p: string) {
    |p| <= |s| && s[..|p|] == p
  }

  /** Python's `sub in s` on strings. */
  predicate Contains(s: string, sub: string)
    decreases |s|
  {
    StartsWith(s, sub) || (|s| > 0 && Contains(s[1..], sub))
  }

  /** Every string contains itself. */
  lemma {:induction false} ContainsSelf(s: string)
    ensures Contains(s, s)
  {
    assert s[..|s|] == s;
  }

  /** Python's `"".join(ss)`. */
  function Concat(ss: seq<string>): string {
    if ss == [] then "" else ss[0] + Concat(ss[1..])
  }

  /** Regrouping three appended sequences, stated once so that longer proofs need not rediscover it. */
  lemma AppendAssoc<T>(x: seq<T>, y: seq<T>, z: seq<T>)
    ensures (x + y) + z == x + (y + z)
  {
  }

  lemma {:induction false} ConcatAppend(a: seq<string>, b: seq<string>)
    ensures Concat(a + b) == Concat(a) + Concat(b)
  {
    if a == [] {
      assert a + b == b;
    } else {
      assert (a + b)[1..] == a[1..] + b;
      ConcatAppend(a[1..], b);
    }
  }

  lemma {:induction false} ConcatSingle(a: string)
    ensures Concat([a]) == a
  {
    assert [a][1..] == [];
    assert a + "" == a;
  }

  lemma {:induction false} ConcatCons(a: string, rest: seq<string>)
    ensures Concat([a] + rest) == a + Concat(rest)
  {
    assert ([a] + rest)[1..] == rest;
  }

  lemma {:induction false} ConcatPair(a: string, b: string)
    ensures Concat([a, b]) == a + b
  {
    assert [a, b][1..] == [b];
    assert [b][1..] == [];
    assert Concat([b]) == b + Concat([]);
    assert b + "" == b;
  }

  lemma {:induction false} ConcatFirstTwo(ss: seq<string>)
    requires |ss| >= 2
    ensures Concat(ss) == ss[0] + ss[1] + Concat(ss[2..])
  {
    assert ss[1..][1..] == ss[2..];
  }

  /** Python's `s[:-k]` for `k >= 1`: drops up to `k` trailing characters. */
  function DropLast(s: string, k: nat): (r: string)
    ensures |r| == if |s| >= k then |s| - k else 0
    ensures r == s[..|r|]
  {
    if |s| >= k then s[..|s| - k] else ""
  }

  /** Python's `s.strip(ch)` for a single character `ch`. */
  function StripChar(s: string, ch: char): (r: string)
    decreases |s|
  {
    if |s| > 0 && s[0] == ch then StripChar(s[1..], ch)
    else if |s| > 0 && s[|s| - 1] == ch then StripChar(s[..|s| - 1], ch)
    else s
  }

  /**
   * Python's `s.replace(target, repl)`: every non-overlapping occurrence of `target`,
   * scanning left to right, becomes `repl` (an empty `target` inserts `repl` around
   * every character).
   */
  function ReplaceAll(s: string, target: string, repl: string): string
    decreases |s|
  {
    if target == [] then
      (if s == [] then repl else repl + [s[0]] + ReplaceAll(s[1..], target, repl))
    else if |s| < |target| then s
    else if s[..|target|] == target then repl + ReplaceAll(s[|target|..], target, repl)
    else [s[0]] + ReplaceAll(s[1..], target, repl)
  }

  /** Replacing a string that does not occur leaves the text as it was. */
  lemma {:induction false} ReplaceAbsent(s: string, target: string, repl: string)
    requires target != [] && !Contains(s, target)
    ensures ReplaceAll(s, target, repl) == s
    decreases |s|
  {
    if |s| >= |target| {
      assert !StartsWith(s, target);
      ReplaceAbsent(s[1..], target, repl);
      assert [s[0]] + s[1..] == s;
    }
  }

  /** Replacing a non-empty string by itself changes nothing. */
  lemma {:induction false} ReplaceBySelf(s: string, target: string)
    requires target != []
    ensures ReplaceAll(s, target, target) == s
    decreases |s|
  {
    if |s| >= |target| {
      if s[..|target|] == target {
        ReplaceBySelf(s[|target|..], target);
        assert target + s[|target|..] == s;
      } else {
        ReplaceBySelf(s[1..], target);
        assert [s[0]] + s[1..] == s;
      }
    }
  }

  // ---------------------------------------------------------------------
  // Decimal rendering of naturals, Python's str(n)
  // ---------------------------------------------------------------------

  function Digit(n: nat): char
    requires n < 10
  {
    "0123456789"[n]
  }

  function DigitValue(c: char): int {
    c as int - '0' as int
  }

  /** Python's `str(n)` for `n >= 0`. */
  function Dec(n: nat): (r: string)
    ensures |r| >= 1
  {
    if n < 10 then [Digit(n)] else Dec(n / 10) + [Digit(n % 10)]
  }

  /** Reading a decimal string back, the inverse of `Dec`. */
  function ParseDec(s: string): int
    decreases |s|
  {
    if |s| == 0 then 0 else 10 * ParseDec(s[..|s| - 1]) + DigitValue(s[|s| - 1])
  }

  lemma {:induction false} DecRoundTrip(n: nat)
    ensures ParseDec(Dec(n)) == n
  {
    if n < 10 {
      assert Dec(n)[..0] == [];
    } else {
      var s := Dec(n);
      assert s[..|s| - 1] == Dec(n / 10);
      DecRoundTrip(n / 10);
    }
  }

  /** Different numbers never render alike. */
  lemma {:induction false} DecInjective(m: nat, n: nat)
    requires Dec(m) == Dec(n)
    ensures m == n
  {
    DecRoundTrip(m);
    DecRoundTrip(n);
  }

  function Pow10(k: nat): (r: nat)
    ensures r >= 1
  {
    if k == 0 then 1 else 10 * Pow10(k - 1)
  }

  /** A number of at least `10^k` needs more than `k` digits. */
  lemma {:induction false} DecLengthBound(n: nat, k: nat)
    requires n >= Pow10(k)
    ensures |Dec(n)| > k
  {
    if k > 0 {
      assert n >= 10;
      DecLengthBound(n / 10, k - 1);
    }
  }

  /** Two or more digits exactly from 10 on. */
  lemma {:induction false} DecLengthTwo(n: nat)
    ensures |Dec(n)| >= 2 <==> n >= 10
  {
    if n >= 10 {
      assert Pow10(1) == 10;
      DecLengthBound(n, 1);
    }
  }

  /** The length of the longest string of a list. */
  function MaxLen(names: seq<string>): (m: nat)
    ensures forall k :: 0 <= k < |names| ==> |names[k]| <= m
  {
    if names == [] then 0
    else var t := MaxLen(names[1..]); if |names[0]| > t then |names[0]| else t
  }

  lemma {:induction false} LongerIsAbsent(names: seq<string>, s: string)
    requires |s| > MaxLen(names)
    ensures s !in names
  {
  }

  /** Python's `a <= b` on strings: lexicographic by code point, a prefix first. */
  predicate StrLe(a: string, b: string)
    decreases |a|
  {
    a == [] || (b != [] && (a[0] < b[0] || (a[0] == b[0] && StrLe(a[1..], b[1..]))))
  }

  lemma {:induction false} StrLeTotal(a: string, b: string)
    ensures StrLe(a, b) || StrLe(b, a)
    decreases |a|
  {
    if a != [] && b != [] && a[0] == b[0] {
      StrLeTotal(a[1..], b[1..]);
    }
  }

  lemma {:induction false} StrLeTrans(a: string, b: string, c: string)
    requires StrLe(a, b) && StrLe(b, c)
    ensures StrLe(a, c)
    decreases |a|
  {
    if a != [] && a[0] == b[0] && b[0] == c[0] {
      StrLeTrans(a[1..], b[1..], c[1..]);
    }
  }

  /** `sorted(names)[0]`: the least name of a non-empty list. */
  function MinName(names: seq<string>): (r: string)
    requires |names| > 0
    ensures r in names && forall k :: 0 <= k < |names| ==> StrLe(r, names[k])
  {
    if |names| == 1 then StrLeRefl(names[0]); names[0]
    else
      var m := MinName(names[1..]);
      StrLeTotal(names[0], m);
      if StrLe(names[0], m) then
        assert forall k :: 1 <= k < |names| ==> StrLe(m, names[k]) by {
          assert forall k :: 1 <= k < |names| ==> names[k] == names[1..][k - 1];
        }
        assert forall k :: 1 <= k < |names| ==> StrLe(names[0], names[k]) by {
          forall k | 1 <= k < |names| ensures StrLe(names[0], names[k]) {
            StrLeTrans(names[0], m, names[k]);
          }
        }
        StrLeRefl(names[0]);
        names[0]
      else
        assert forall k :: 1 <= k < |names| ==> names[k] == names[1..][k - 1];
        m
  }

  lemma {:induction false} StrLeRefl(a: string)
    ensures StrLe(a, a)
    decreases |a|
  {
    if a != [] {
      StrLeRefl(a[1..]);
    }
  }

  /** The position of the first slice of `s` that is `sub`, when `sub in s`. */
  lemma {:induction false} ContainsPosition(s: string, sub: string) returns (p: nat)
    requires Contains(s, sub)
    ensures p + |sub| <= |s| && s[p..p + |sub|] == sub
    decreases |s|
  {
    if StartsWith(s, sub) {
      p := 0;
    } else {
      var q := ContainsPosition(s[1..], sub);
      p := q + 1;
      assert s[1..][q..q + |sub|] == s[p..p + |sub|];
    }
  }

  /** A slice of `s` equal to `sub` makes `sub in s` hold. */
  lemma {:induction false} ContainsAt(s: string, sub: string, p: nat)
    requires p + |sub| <= |s| && s[p..p + |sub|] == sub
    ensures Contains(s, sub)
    decreases p
  {
    if p == 0 {
      assert s[..|sub|] == sub;
    } else {
      assert s[1..][p - 1..p - 1 + |sub|] == s[p..p + |sub|];
      ContainsAt(s[1..], sub, p - 1);
    }
  }

  /**
   * Replacing a string that occurs leaves the replacement in the result: the
   * first occurrence the scan meets is replaced.
   */
  lemma {:induction false} ReplaceInserts(s: string, target: string, repl: string)
    requires target != [] && Contains(s, target)
    ensures Contains(ReplaceAll(s, target, repl), repl)
    decreases |s|
  {
    var p := ContainsPosition(s, target);
    if s[..|target|] == target {
      var r := ReplaceAll(s, target, repl);
      assert r == repl + ReplaceAll(s[|target|..], target, repl);
      ContainsAt(r, repl, 0);
    } else {
      assert !StartsWith(s, target);
      ReplaceInserts(s[1..], target, repl);
      var rest := ReplaceAll(s[1..], target, repl);
      assert ([s[0]] + rest)[1..] == rest;
    }
  }

  /** A piece that neither starts nor ends with whitespace survives `strip()`. */
  lemma {:induction false} StripKeepsInner(s: string, w: string)
    requires Contains(s, w) && |w| > 0 && !IsSpace(w[0]) && !IsSpace(w[|w| - 1])
    ensures Contains(Strip(s), w)
  {
    var p := ContainsPosition(s, w);
    StripIsTrimmedSlice(s);
    var i, j :| 0 <= i <= j <= |s| && Strip(s) == s[i..j] && AllSpace(s[..i]) && AllSpace(s[j..]);
    InnerWithinTrim(s, w, p, i, j);
    ContainsInSlice(s, w, p, i, j);
  }

  lemma {:induction false} ContainsInSlice(s: string, w: string, p: nat, i: nat, j: nat)
    requires i <= p && p + |w| <= j <= |s| && s[p..p + |w|] == w
    ensures Contains(s[i..j], w)
  {
    var t := s[i..j];
    forall k | 0 <= k < |w| ensures t[p - i..p - i + |w|][k] == w[k] {
      assert s[p..p + |w|][k] == s[p + k];
    }
    assert t[p - i..p - i + |w|] == w;
    ContainsAt(t, w, p - i);
  }

  /** A slice without whitespace at its ends lies between a whitespace prefix and a whitespace suffix. */
  lemma {:induction false} InnerWithinTrim(s: string, w: string, p: nat, i: nat, j: nat)
    requires p + |w| <= |s| && s[p..p + |w|] == w && |w| > 0
    requires i <= j <= |s| && AllSpace(s[..i]) && AllSpace(s[j..])
    requires !IsSpace(w[0]) && !IsSpace(w[|w| - 1])
    ensures i <= p && p + |w| <= j
  {
    assert !IsSpace(s[p]) && !IsSpace(s[p + |w| - 1]);
    assert forall k :: 0 <= k < i ==> IsSpace(s[k]) by {
      forall k | 0 <= k < i ensures IsSpace(s[k]) { assert s[..i][k] == s[k]; }
    }
    assert forall k :: j <= k < |s| ==> IsSpace(s[k]) by {
      forall k | j <= k < |s| ensures IsSpace(s[k]) { assert s[j..][k - j] == s[k]; }
    }
  }

  /** Stripping `ch` from a string that does not start with it keeps its first character. */
  lemma {:induction false} StripCharKeepsHead(s: string, ch: char)
    requires |s| > 0 && s[0] != ch
    ensures |StripChar(s, ch)| > 0 && StripChar(s, ch)[0] == s[0]
    decreases |s|
  {
    if s[|s| - 1] == ch {
      assert |s| >= 2;
      StripCharKeepsHead(s[..|s| - 1], ch);
    }
  }
}
