/** The string operations of Python that the list tools rely on:
  * `str.strip()`, `str.lower()`, `s.split(c)[0]`, `s.count(c)`, integer
  * formatting and the code-point order `sorted` uses. */
module Text {

  /** `str.isspace()` for one character: the code points Python treats as whitespace. */
  predicate IsSpace(c: char) {
    var n := c as int;
    (9 <= n <= 13) || (28 <= n <= 32) || n == 0x85 || n == 0xA0 || n == 0x1680
    || (0x2000 <= n <= 0x200A) || n == 0x2028 || n == 0x2029 || n == 0x202F
    || n == 0x205F || n == 0x3000
  }

  /** `s.strip()`: `s` without its leading and trailing whitespace. */
  function Strip(s: string): (r: string)
    ensures IsStripped(r)
    ensures |r| <= |s|
  {
    if s != [] && IsSpace(s[0]) then Strip(s[1..])
    else if s != [] && IsSpace(s[|s| - 1]) then Strip(s[..|s| - 1])
    else s
  }

  /** Stripping removes whitespace only: it keeps every other character and adds none. */
  lemma {:induction false} StripChars(s: string)
    ensures forall c :: c in Strip(s) ==> c in s
    ensures forall c :: c in s && !IsSpace(c) ==> c in Strip(s)
  {
    if s != [] && IsSpace(s[0]) {
      StripChars(s[1..]);
      assert s == [s[0]] + s[1..];
    } else if s != [] && IsSpace(s[|s| - 1]) {
      StripChars(s[..|s| - 1]);
      assert s == s[..|s| - 1] + [s[|s| - 1]];
    }
  }

  /** Everything of `s` before `i` and from `j` on is whitespace. */
  predicate SpaceOutside(s: string, i: int, j: int) {
    && 0 <= i <= j <= |s|
    && (forall k :: 0 <= k < i ==> IsSpace(s[k]))
    && (forall k :: j <= k < |s| ==> IsSpace(s[k]))
  }

  /** Stripping cuts whitespace from the two ends only: the result is a slice `s[i..j]`
    * of the input with nothing but whitespace around it. */
  lemma {:induction false} StripSlice(s: string)
    ensures exists i, j :: SpaceOutside(s, i, j) && Strip(s) == s[i..j]
  {
    if s != [] && IsSpace(s[0]) {
      var t := s[1..];
      StripSlice(t);
      var i, j :| SpaceOutside(t, i, j) && Strip(t) == t[i..j];
      assert t[i..j] == s[i + 1..j + 1];
      assert forall k :: 1 <= k < |s| ==> s[k] == t[k - 1];
      assert SpaceOutside(s, i + 1, j + 1);
    } else if s != [] && IsSpace(s[|s| - 1]) {
      var t := s[..|s| - 1];
      StripSlice(t);
      var i, j :| SpaceOutside(t, i, j) && Strip(t) == t[i..j];
      assert t[i..j] == s[i..j];
      assert forall k :: 0 <= k < |t| ==> s[k] == t[k];
      assert SpaceOutside(s, i, j);
    } else {
      assert Strip(s) == s[0..|s|];
      assert SpaceOutside(s, 0, |s|);
    }
  }

  /** A string already stripped: it neither starts nor ends with whitespace. */
  predicate IsStripped(s: string) {
    s == [] || (!IsSpace(s[0]) && !IsSpace(s[|s| - 1]))
  }

  lemma StripStripped(s: string)
    requires IsStripped(s)
    ensures Strip(s) == s
  {
  }

  lemma StripAbsent(s: string, c: char)
    requires c !in s
    ensures c !in Strip(s)
  {
    StripChars(s);
  }

  /** `s.split(c)[0]`: the text before the first `c`, or the whole of `s`. */
  function Before(s: string, c: char): (r: string)
    ensures c !in r
    ensures |r| <= |s| && r == s[..|r|]
    ensures |r| < |s| ==> s[|r|] == c
  {
    if s == [] then []
    else if s[0] == c then []
    else [s[0]] + Before(s[1..], c)
  }

  /** The first `c` ends the text `Before` returns. */
  lemma {:induction false} BeforeFirst(a: string, c: char, b: string)
    requires c !in a
    ensures Before(a + [c] + b, c) == a
  {
    if a != [] {
      assert (a + [c] + b)[1..] == a[1..] + [c] + b;
      BeforeFirst(a[1..], c, b);
    }
  }

  /** The text after the first `c`; `s.split(c)[1]` is `Before(After(s, c), c)`. */
  function After(s: string, c: char): (r: string)
    requires c in s
    ensures s == Before(s, c) + [c] + r
  {
    var b := Before(s, c);
    s[|b| + 1..]
  }

  /** `c.lower()` on the ASCII letters; every other character is its own lower case here. */
  function LowerChar(c: char): char {
    if 'A' <= c <= 'Z' then (c as int + 32) as char else c
  }

  predicate IsUpper(c: char) { 'A' <= c <= 'Z' }

  /** `s.lower()` (ASCII case mapping). */
  function Lower(s: string): (r: string)
    ensures |r| == |s|
  {
    if s == [] then [] else [LowerChar(s[0])] + Lower(s[1..])
  }

  /** Lowering works character by character. */
  lemma {:induction false} LowerChars(s: string)
    ensures forall i :: 0 <= i < |s| ==> Lower(s)[i] == LowerChar(s[i])
  {
    if s != [] {
      LowerChars(s[1..]);
      var r := Lower(s);
      assert r == [LowerChar(s[0])] + Lower(s[1..]);
      forall i | 1 <= i < |s| ensures r[i] == LowerChar(s[i]) {
        assert r[i] == Lower(s[1..])[i - 1] && s[i] == s[1..][i - 1];
      }
    }
  }

  lemma LowerIdempotent(s: string)
    ensures Lower(Lower(s)) == Lower(s)
  {
    LowerChars(s);
    LowerChars(Lower(s));
  }

  /** A string without upper-case letters is its own lower case. */
  lemma LowerNoUpper(s: string)
    requires forall i :: 0 <= i < |s| ==> !IsUpper(s[i])
    ensures Lower(s) == s
  {
    LowerChars(s);
  }

  /** Lowering changes no character that is not an upper-case letter. */
  lemma LowerKeepsChar(s: string, c: char)
    requires !IsUpper(c) && !('a' <= c <= 'z')
    ensures c in Lower(s) <==> c in s
  {
    LowerChars(s);
    var r := Lower(s);
    if c in s {
      var i :| 0 <= i < |s| && s[i] == c;
      assert r[i] == c;
    }
    if c in r {
      var i :| 0 <= i < |r| && r[i] == c;
      assert s[i] == c;
    }
  }

  /** Lowering keeps whitespace where it was, so a stripped string stays stripped. */
  lemma LowerStripped(s: string)
    requires IsStripped(s)
    ensures IsStripped(Lower(s))
  {
    LowerChars(s);
  }

  /** `s.count(c)`. */
  function Count(s: string, c: char): (n: nat)
    ensures n <= |s|
    ensures n == 0 <==> c !in s
  {
    if s == [] then 0 else (if s[0] == c then 1 else 0) + Count(s[1..], c)
  }

  lemma {:induction false} CountLower(s: string, c: char)
    requires !IsUpper(c) && !('a' <= c <= 'z')
    ensures Count(Lower(s), c) == Count(s, c)
  {
    if s != [] {
      CountLower(s[1..], c);
      assert Lower(s) == [LowerChar(s[0])] + Lower(s[1..]);
      assert Lower(s)[1..] == Lower(s[1..]);
    }
  }

  /** `k in s` for strings: `k` occurs in `s` as a contiguous piece. */
  predicate HasInfix(s: string, k: string)
    decreases |s|
  {
    |k| <= |s| && (s[..|k|] == k || HasInfix(s[1..], k))
  }

  function DigitChar(d: nat): (c: char)
    requires d < 10
    ensures '0' <= c <= '9'
  {
    ('0' as int + d) as char
  }

  /** `str(n)` for a natural number. */
  function Decimal(n: nat): (r: string)
    ensures r != []
    ensures forall c :: c in r ==> '0' <= c <= '9'
    decreases n
  {
    if n < 10 then [DigitChar(n)] else Decimal(n / 10) + [DigitChar(n % 10)]
  }

  /** `int(s)` for a string of decimal digits. */
  function DecimalValue(s: string): nat
    requires forall c :: c in s ==> '0' <= c <= '9'
  {
    if s == [] then 0
    else
      var init, last := s[..|s| - 1], s[|s| - 1];
      assert last in s;
      assert forall c :: c in init ==> c in s;
      DecimalValue(init) * 10 + (last as int - '0' as int)
  }

  /** `int(str(n)) == n`. */
  lemma {:induction false} DecimalRoundTrip(n: nat)
    ensures DecimalValue(Decimal(n)) == n
  {
    if n >= 10 {
      DecimalRoundTrip(n / 10);
      var r := Decimal(n);
      assert r[..|r| - 1] == Decimal(n / 10);
    }
  }

  /** Python's `<` on strings: code-point order, a proper prefix first. */
  predicate LexLess(a: string, b: string) {
    if a == [] then b != []
    else if b == [] then false
    else if a[0] != b[0] then a[0] < b[0]
    else LexLess(a[1..], b[1..])
  }

  lemma {:induction false} LexLessIrreflexive(a: string)
    ensures !LexLess(a, a)
  {
    if a != [] {
      LexLessIrreflexive(a[1..]);
    }
  }

  lemma {:induction false} LexLessTransitive(a: string, b: string, c: string)
    requires LexLess(a, b) && LexLess(b, c)
    ensures LexLess(a, c)
  {
    if a != [] && b != [] && c != [] && a[0] == b[0] && b[0] == c[0] {
      LexLessTransitive(a[1..], b[1..], c[1..]);
    }
  }

  lemma {:induction false} LexLessTotal(a: string, b: string)
    requires a != b
    ensures LexLess(a, b) || LexLess(b, a)
  {
    if a != [] && b != [] && a[0] == b[0] {
      assert a == [a[0]] + a[1..] && b == [b[0]] + b[1..];
      LexLessTotal(a[1..], b[1..]);
    }
  }

  predicate StrictlySorted(s: seq<string>) {
    forall i, j :: 0 <= i < j < |s| ==> LexLess(s[i], s[j])
  }
}
