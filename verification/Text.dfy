/**
 Characters and strings as the worker sees them: Python's whitespace and decimal-digit classes,
 `str.strip`, literal search, and decimal notation.
 */
module Text {
  import opened Wrappers

  // ---------- character classes ----------

  /** `str.isspace` for one character: the Unicode White_Space property and U+001C..U+001F. */
  predicate IsPythonSpace(c: char) {
    IsUnicodeSpace(c) || 0x1C <= c as int <= 0x1F
  }

  /** The Unicode White_Space property, which is what Rust's `str::trim` removes. */
  predicate IsUnicodeSpace(c: char) {
    var n := c as int;
    || 0x09 <= n <= 0x0D || n == 0x20 || n == 0x85 || n == 0xA0 || n == 0x1680
    || 0x2000 <= n <= 0x200A || n == 0x2028 || n == 0x2029 || n == 0x202F || n == 0x205F || n == 0x3000
  }

  /** The characters the output grammar gives a meaning to. */
  predicate IsTagChar(c: char) {
    c == '<' || c == '>' || c == '/' || 'a' <= c <= 'z' || 'A' <= c <= 'Z'
  }

  /** A table of decimal digits: Unicode category Nd with each character's value. */
  ghost predicate IsDigitTable(m: map<char, nat>) {
    && (forall c | c in m :: m[c] <= 9 && !IsTagChar(c) && !IsPythonSpace(c))
    && (forall c | '0' <= c <= '9' :: c in m && m[c] == c as int - '0' as int)
  }

  ghost const ASCII_DIGITS: map<char, nat> := map c: char | '0' <= c <= '9' :: c as int - '0' as int

  /** `\d` and `int()` accept every Unicode decimal digit, so the table is a parameter of the model. */
  type Digits = m: map<char, nat> | IsDigitTable(m) ghost witness ASCII_DIGITS

  // ---------- literals ----------

  /** `lit` occurs in `s` at `i`. */
  predicate At(s: string, i: nat, lit: string) {
    i + |lit| <= |s| && forall k | 0 <= k < |lit| :: s[i + k] == lit[k]
  }

  /** The first occurrence of `lit` at or after `i`. */
  function Find(s: string, lit: string, i: nat): (r: Option<nat>)
    ensures r.Some? ==> i <= r.value && At(s, r.value, lit) && forall k | i <= k < r.value :: !At(s, k, lit)
    ensures r.None? ==> forall k | i <= k :: !At(s, k, lit)
    decreases |s| - i
  {
    if i > |s| then None
    else if At(s, i, lit) then Some(i)
    else Find(s, lit, i + 1)
  }

  predicate StartsWith(s: string, prefix: string) {
    At(s, 0, prefix)
  }

  predicate EndsWith(s: string, suffix: string) {
    |suffix| <= |s| && s[|s| - |suffix|..] == suffix
  }

  lemma EndsWithIff(s: string, suffix: string)
    ensures EndsWith(s, suffix) <==> exists text :: s == text + suffix
  {
    if EndsWith(s, suffix) {
      assert s == s[..|s| - |suffix|] + suffix;
    }
  }

  // ---------- str.strip ----------

  function StripLeft(s: string): (r: string)
    ensures r == [] || !IsPythonSpace(r[0])
  {
    if s != [] && IsPythonSpace(s[0]) then StripLeft(s[1..]) else s
  }

  function StripRight(s: string): (r: string)
    ensures r <= s
    ensures r == [] || !IsPythonSpace(r[|r| - 1])
  {
    if s != [] && IsPythonSpace(s[|s| - 1]) then StripRight(s[..|s| - 1]) else s
  }

  function Strip(s: string): (r: string)
    ensures IsStripped(r)
  {
    StripRight(StripLeft(s))
  }

  predicate IsStripped(s: string) {
    s == [] || (!IsPythonSpace(s[0]) && !IsPythonSpace(s[|s| - 1]))
  }

  ghost predicate AllSpace(s: string) {
    forall c | c in s :: IsPythonSpace(c)
  }

  lemma {:induction false} StripRightSpec(s: string) returns (post: string)
    ensures s == StripRight(s) + post && AllSpace(post)
  {
    if s != [] && IsPythonSpace(s[|s| - 1]) {
      post := StripRightSpec(s[..|s| - 1]);
      post := post + [s[|s| - 1]];
    } else {
      post := "";
    }
  }

  lemma {:induction false} StripLeftSpec(s: string) returns (pre: string)
    ensures s == pre + StripLeft(s) && AllSpace(pre)
  {
    if s != [] && IsPythonSpace(s[0]) {
      pre := StripLeftSpec(s[1..]);
      pre := [s[0]] + pre;
    } else {
      pre := "";
    }
  }

  /** Stripping removes whitespace at the ends, all of it, and nothing else. */
  lemma StripRemovesOnlySpace(s: string)
    ensures IsStripped(Strip(s))
    ensures exists pre, post :: s == pre + Strip(s) + post && AllSpace(pre) && AllSpace(post)
  {
    var pre := StripLeftSpec(s);
    var post := StripRightSpec(StripLeft(s));
    assert s == pre + Strip(s) + post;
  }

  lemma {:induction false} StripLeftPadded(pre: string, s: string)
    requires AllSpace(pre) && s != "" && !IsPythonSpace(s[0])
    ensures StripLeft(pre + s) == s
    decreases |pre|
  {
    if pre == "" {
      assert pre + s == s;
    } else {
      assert pre[0] in pre && (pre + s)[1..] == pre[1..] + s;
      StripLeftPadded(pre[1..], s);
    }
  }

  lemma {:induction false} StripRightPadded(s: string, post: string)
    requires AllSpace(post) && s != "" && !IsPythonSpace(s[|s| - 1])
    ensures StripRight(s + post) == s
    decreases |post|
  {
    if post == "" {
      assert s + post == s;
    } else {
      var k := |post| - 1;
      assert post[k] in post && (s + post)[..|s + post| - 1] == s + post[..k];
      StripRightPadded(s, post[..k]);
    }
  }

  /** Whitespace put around what has none at its ends is what stripping removes. */
  lemma StripPadded(pre: string, s: string, post: string)
    requires AllSpace(pre) && AllSpace(post) && s != "" && IsStripped(s)
    ensures Strip(pre + s + post) == s
  {
    assert pre + s + post == pre + (s + post);
    StripLeftPadded(pre, s + post);
    StripRightPadded(s, post);
  }

  /** The 29 characters that Python strips, and the four of them that Rust does not. */
  lemma WhitespaceIs(c: char)
    ensures IsPythonSpace(c) <==>
      c in "\t\n\U{B}\U{C}\r\U{1C}\U{1D}\U{1E}\U{1F} \U{85}\U{A0}\U{1680}\U{2000}\U{2001}\U{2002}\U{2003}\U{2004}"
         + "\U{2005}\U{2006}\U{2007}\U{2008}\U{2009}\U{200A}\U{2028}\U{2029}\U{202F}\U{205F}\U{3000}"
    ensures IsPythonSpace(c) && !IsUnicodeSpace(c) <==> c in "\U{1C}\U{1D}\U{1E}\U{1F}"
  {
  }

  // ---------- decimal notation ----------

  predicate IsNumeral(nd: Digits, s: string) {
    forall c | c in s :: c in nd
  }

  /** The number a string of digits denotes, most significant digit first: Python's `int`. */
  function DecimalValue(nd: Digits, s: string): nat
    requires IsNumeral(nd, s)
  {
    if s == [] then 0 else 10 * DecimalValue(nd, s[..|s| - 1]) + nd[s[|s| - 1]]
  }

  /** Each digit counts as many tens as digits follow it. */
  lemma {:induction false} PlaceValues(nd: Digits, s: string)
    requires IsNumeral(nd, s) && s != ""
    ensures s[0] in s && IsNumeral(nd, s[1..])
    ensures DecimalValue(nd, s) == nd[s[0]] * PowerOfTen(|s| - 1) + DecimalValue(nd, s[1..])
    decreases |s|
  {
    assert s[0] in s;
    var k := |s| - 1;
    if k > 0 {
      PlaceValues(nd, s[..k]);
      assert s[..k][1..] == s[1..][..k - 1];
      assert s[1..][k - 1] == s[k] && s[..k][0] == s[0];
      TimesTen(nd[s[0]], PowerOfTen(k - 1));
    }
  }

  lemma TimesTen(a: nat, b: nat)
    ensures 10 * (a * b) == a * (10 * b)
  {
  }

  /** The decimal notation of a number, as the coordinate tokens spell it. */
  function Decimal(n: nat): (s: string)
    ensures s != [] && forall c | c in s :: '0' <= c <= '9'
  {
    var last := [('0' as int + n % 10) as char];
    if n < 10 then last else Decimal(n / 10) + last
  }

  /** A number below a power of ten has at most as many digits as the power has zeros. */
  function PowerOfTen(k: nat): nat {
    if k == 0 then 1 else 10 * PowerOfTen(k - 1)
  }

  lemma {:induction false} DecimalIsShort(n: nat, k: nat)
    requires n < PowerOfTen(k) && k > 0
    ensures |Decimal(n)| <= k
    decreases k
  {
    if n >= 10 {
      DecimalIsShort(n / 10, k - 1);
    }
  }

  lemma {:induction false} DecimalReadsBack(nd: Digits, n: nat)
    ensures DecimalValue(nd, Decimal(n)) == n
  {
    var s := Decimal(n);
    if n >= 10 {
      DecimalReadsBack(nd, n / 10);
      assert s[..|s| - 1] == Decimal(n / 10);
    } else {
      assert s[..|s| - 1] == [];
    }
  }
}
