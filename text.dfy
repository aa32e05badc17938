/**
 * The string operations the backend and the frontend rely on: JavaScript's
 * `trim`, `toLowerCase` (on ASCII letters), `includes`, `split`/`join` on one
 * separator character, number formatting and code-unit ordering of strings
 * (the `<` operator on two strings).
 */
module Text {

  /** The characters `String.prototype.trim` removes: white space and line terminators. */
  predicate IsSpace(c: char) {
    var n := c as int;
    n == 0x09 || n == 0x0A || n == 0x0B || n == 0x0C || n == 0x0D || n == 0x20
    || n == 0xA0 || n == 0x1680 || (0x2000 <= n <= 0x200A) || n == 0x2028
    || n == 0x2029 || n == 0x202F || n == 0x205F || n == 0x3000 || n == 0xFEFF
  }

  predicate IsDigit(c: char) {
    '0' <= c <= '9'
  }

  /** Word characters of a regular expression (`\w`). */
  predicate IsWordChar(c: char) {
    'a' <= c <= 'z' || 'A' <= c <= 'Z' || IsDigit(c) || c == '_'
  }

  /** `s` with its leading white space removed. */
  function TrimStart(s: string): (r: string)
    ensures |r| <= |s|
  {
    if s != [] && IsSpace(s[0]) then TrimStart(s[1..]) else s
  }

  /** `s` with its trailing white space removed. */
  function TrimEnd(s: string): (r: string)
    ensures |r| <= |s|
  {
    if s != [] && IsSpace(s[|s| - 1]) then TrimEnd(s[..|s| - 1]) else s
  }

  /** `s.trim()`. */
  function Trim(s: string): string {
    TrimEnd(TrimStart(s))
  }

  /** Trimming only removes characters. */
  lemma TrimKeepsNoNewChars(s: string)
    ensures forall c | c in Trim(s) :: c in s
  {
    TrimStartChars(s);
    TrimEndChars(TrimStart(s));
  }

  lemma {:induction false} TrimStartChars(s: string)
    ensures forall c | c in TrimStart(s) :: c in s
  {
    if s != [] && IsSpace(s[0]) {
      TrimStartChars(s[1..]);
    }
  }

  lemma {:induction false} TrimEndChars(s: string)
    ensures forall c | c in TrimEnd(s) :: c in s
  {
    if s != [] && IsSpace(s[|s| - 1]) {
      TrimEndChars(s[..|s| - 1]);
    }
  }

  /** Trimming twice is trimming once. */
  lemma TrimIdempotent(s: string)
    ensures Trim(Trim(s)) == Trim(s)
  {
    var x := TrimStart(s);
    TrimStartNoLeadingSpace(s);
    TrimEndIsPrefix(x);
    var y := TrimEnd(x);
    assert y == [] || y[0] == x[0];
    assert TrimStart(y) == y;
    TrimEndNoTrailingSpace(x);
  }

  lemma {:induction false} TrimStartNoLeadingSpace(s: string)
    ensures TrimStart(s) == [] || !IsSpace(TrimStart(s)[0])
  {
    if s != [] && IsSpace(s[0]) {
      TrimStartNoLeadingSpace(s[1..]);
    }
  }

  lemma {:induction false} TrimEndNoTrailingSpace(s: string)
    ensures TrimEnd(s) == [] || !IsSpace(TrimEnd(s)[|TrimEnd(s)| - 1])
  {
    if s != [] && IsSpace(s[|s| - 1]) {
      TrimEndNoTrailingSpace(s[..|s| - 1]);
    }
  }

  lemma {:induction false} TrimEndIsPrefix(s: string)
    ensures TrimEnd(s) == s[..|TrimEnd(s)|]
  {
    if s != [] && IsSpace(s[|s| - 1]) {
      TrimEndIsPrefix(s[..|s| - 1]);
    }
  }

  /** A string with no white space at either end is its own trim. */
  lemma TrimOfUnpadded(s: string)
    requires s == [] || (!IsSpace(s[0]) && !IsSpace(s[|s| - 1]))
    ensures Trim(s) == s
  {
  }

  function LowerChar(c: char): char {
    if 'A' <= c <= 'Z' then (c as int + 32) as char else c
  }

  /** `s.toLowerCase()`, on ASCII letters. */
  function Lower(s: string): (r: string)
    ensures |r| == |s|
    ensures forall i | 0 <= i < |s| :: r[i] == LowerChar(s[i])
  {
    seq(|s|, i requires 0 <= i < |s| => LowerChar(s[i]))
  }

  /** `sub` occurs in `s` at position `i`. */
  predicate OccursAt(s: string, sub: string, i: int) {
    0 <= i <= |s| - |sub| && s[i..i + |sub|] == sub
  }

  /** `s.includes(sub)`. */
  predicate Contains(s: string, sub: string) {
    exists i | 0 <= i <= |s| - |sub| :: OccursAt(s, sub, i)
  }

  /** The index of the first occurrence of `c` in `s`. */
  function IndexOf(s: string, c: char): (r: nat)
    requires c in s
    ensures r < |s| && s[r] == c && c !in s[..r]
  {
    if s[0] == c then 0 else IndexOf(s[1..], c) + 1
  }

  /** `s.split(sep)`: the pieces between the occurrences of `sep`; never empty. */
  function Split(s: string, sep: char): (parts: seq<string>)
    ensures |parts| >= 1
    ensures sep in s ==> |parts| >= 2
    ensures forall k | 0 <= k < |parts| :: sep !in parts[k]
    decreases |s|
  {
    if sep in s then
      var i := IndexOf(s, sep);
      [s[..i]] + Split(s[i + 1..], sep)
    else
      [s]
  }

  /** `parts.join(sep)`. */
  function Join(parts: seq<string>, sep: char): string {
    if |parts| == 0 then ""
    else if |parts| == 1 then parts[0]
    else parts[0] + [sep] + Join(parts[1..], sep)
  }

  /** Splitting on a separator and joining the pieces back with it gives the original string. */
  lemma {:induction false} JoinSplit(s: string, sep: char)
    ensures Join(Split(s, sep), sep) == s
    decreases |s|
  {
    if sep in s {
      var i := IndexOf(s, sep);
      var rest := Split(s[i + 1..], sep);
      JoinSplit(s[i + 1..], sep);
      assert Split(s, sep) == [s[..i]] + rest;
      calc {
        Join(Split(s, sep), sep);
        s[..i] + [sep] + Join(rest, sep);
        s[..i] + [sep] + s[i + 1..];
        { assert s == s[..i] + [s[i]] + s[i + 1..]; }
        s;
      }
    }
  }

  /** The first separator of `p + [sep] + t` is the one after `p`, when `p` has none. */
  lemma {:induction false} FirstSeparatorAfter(p: string, t: string, sep: char)
    requires sep !in p
    ensures sep in p + [sep] + t && IndexOf(p + [sep] + t, sep) == |p|
    decreases |p|
  {
    var s := p + [sep] + t;
    assert s[|p|] == sep;
    if p != [] {
      assert s[1..] == p[1..] + [sep] + t;
      FirstSeparatorAfter(p[1..], t, sep);
    }
  }

  /** Joining pieces free of the separator and splitting the result gives the pieces back. */
  lemma {:induction false} SplitJoin(parts: seq<string>, sep: char)
    requires |parts| >= 1 && forall k | 0 <= k < |parts| :: sep !in parts[k]
    ensures Split(Join(parts, sep), sep) == parts
  {
    if |parts| > 1 {
      var p, rest := parts[0], parts[1..];
      var t := Join(rest, sep);
      var s := p + [sep] + t;
      assert Join(parts, sep) == s;
      FirstSeparatorAfter(p, t, sep);
      assert s[..|p|] == p;
      assert s[|p| + 1..] == t;
      assert Split(s, sep) == [p] + Split(t, sep);
      SplitJoin(rest, sep);
      assert parts == [p] + rest;
    }
  }

  function DigitChar(d: nat): char
    requires d < 10
  {
    ('0' as int + d) as char
  }

  /** The decimal form of `n`, as a template literal prints it. */
  function NatToString(n: nat): (r: string)
    ensures |r| >= 1 && forall k | 0 <= k < |r| :: IsDigit(r[k])
  {
    if n < 10 then [DigitChar(n)] else NatToString(n / 10) + [DigitChar(n % 10)]
  }

  function IntToString(i: int): string {
    if i < 0 then "-" + NatToString(-i) else NatToString(i)
  }

  /** JavaScript's `a < b` on strings: code-unit lexicographic order. */
  predicate LexLess(a: string, b: string) {
    if a == [] then b != []
    else if b == [] then false
    else if a[0] != b[0] then a[0] < b[0]
    else LexLess(a[1..], b[1..])
  }

  lemma {:induction false} LexLessIrreflexive(a: string)
    ensures !LexLess(a, a)
  {
    if a != [] {
      LexLessIrreflexive(a[1..]);
    }
  }

  lemma {:induction false} LexLessTransitive(a: string, b: string, c: string)
    requires LexLess(a, b) && LexLess(b, c)
    ensures LexLess(a, c)
  {
    if a != [] && b != [] && c != [] && a[0] == b[0] && b[0] == c[0] {
      LexLessTransitive(a[1..], b[1..], c[1..]);
    }
  }

  lemma {:induction false} LexLessTotal(a: string, b: string)
    ensures a == b || LexLess(a, b) || LexLess(b, a)
  {
    if a != [] && b != [] && a[0] == b[0] {
      LexLessTotal(a[1..], b[1..]);
      if a[1..] == b[1..] {
        assert a == [a[0]] + a[1..] && b == [b[0]] + b[1..];
      }
    }
  }

  lemma {:induction false} LexLessAsymmetric(a: string, b: string)
    requires LexLess(a, b)
    ensures !LexLess(b, a)
  {
    if a != [] && b != [] && a[0] == b[0] {
      LexLessAsymmetric(a[1..], b[1..]);
    }
  }

  /** Not-later-than is transitive: `a <= b` and `b <= c` give `a <= c`. */
  lemma LexLeqTransitive(a: string, b: string, c: string)
    requires !LexLess(b, a) && !LexLess(c, b)
    ensures !LexLess(c, a)
  {
    if LexLess(c, a) {
      LexLessTotal(a, b);
      if LexLess(a, b) {
        LexLessTransitive(c, a, b);
      }
    }
  }

  /** Lower-casing changes no white space, so trimming and lower-casing commute. */
  lemma TrimLowerCommute(s: string)
    ensures Trim(Lower(s)) == Lower(Trim(s))
  {
    TrimStartLower(s);
    TrimEndLower(TrimStart(s));
  }

  lemma {:induction false} TrimStartLower(s: string)
    ensures TrimStart(Lower(s)) == Lower(TrimStart(s))
  {
    if s != [] {
      assert Lower(s)[1..] == Lower(s[1..]);
      TrimStartLower(s[1..]);
    }
  }

  lemma {:induction false} TrimEndLower(s: string)
    ensures TrimEnd(Lower(s)) == Lower(TrimEnd(s))
  {
    if s != [] {
      assert Lower(s)[..|s| - 1] == Lower(s[..|s| - 1]);
      TrimEndLower(s[..|s| - 1]);
    }
  }

  /** A string joined from two parts around a separator the second part lacks gives its parts back. */
  lemma JoinedPartsUnique(a: string, d: string, a2: string, d2: string, sep: char)
    requires a + [sep] + d == a2 + [sep] + d2
    requires sep !in d && sep !in d2
    ensures a == a2 && d == d2
  {
    var s := a + [sep] + d;
    assert s[|s| - |d| - 1] == sep && s[|s| - |d2| - 1] == sep;
    assert forall k | |s| - |d| <= k < |s| :: s[k] == d[k - (|s| - |d|)];
    assert forall k | |s| - |d2| <= k < |s| :: s[k] == d2[k - (|s| - |d2|)];
    assert |d| == |d2|;
    assert a == s[..|a|] == a2;
    assert d == s[|a| + 1..] == d2;
  }

  /** A sequence of strings without repeats. */
  predicate NoDup(s: seq<string>) {
    forall i, j | 0 <= i < j < |s| :: s[i] != s[j]
  }

  /** Adding values one by one to a set that remembers insertion order. */
  function AddAll(acc: seq<string>, vs: seq<string>): seq<string> {
    if vs == [] then acc
    else
      var rest := AddAll(acc, vs[..|vs| - 1]);
      var v := vs[|vs| - 1];
      if v in rest then rest else rest + [v]
  }

  /** The set holds what it held and the values added, without repeats, and keeps its old order. */
  lemma {:induction false} AddAllFacts(acc: seq<string>, vs: seq<string>)
    ensures forall v :: v in AddAll(acc, vs) <==> v in acc || v in vs
    ensures NoDup(acc) ==> NoDup(AddAll(acc, vs))
    ensures |acc| <= |AddAll(acc, vs)| && AddAll(acc, vs)[..|acc|] == acc
  {
    if vs != [] {
      var v := vs[|vs| - 1];
      AddAllFacts(acc, vs[..|vs| - 1]);
      assert vs == vs[..|vs| - 1] + [v];
    }
  }

  /** Adding one more value. */
  lemma AddAllSnoc(acc: seq<string>, vs: seq<string>, v: string)
    ensures AddAll(acc, vs + [v]) == if v in AddAll(acc, vs) then AddAll(acc, vs) else AddAll(acc, vs) + [v]
  {
    assert (vs + [v])[..|vs|] == vs;
  }
}
