// Shared vocabulary: optional values and results, the string operations of
// Go's `strings` package that the services use, and byte strings.

module Wrappers {
  datatype Option<+T> = None | Some(value: T)

  datatype Result<+T, +E> = Ok(value: T) | Err(error: E)

  /** A Go `error` return with no value beside it: nil or an error. */
  datatype Outcome<+E> = Pass | Fail(error: E)
}

module Bytes {
  newtype byte = b: int | 0 <= b < 256
  type Bytes = seq<byte>
}

module Strings {
  predicate HasPrefix(s: string, p: string) {
    |p| <= |s| && s[..|p|] == p
  }

  predicate HasSuffix(s: string, p: string) {
    |p| <= |s| && s[|s| - |p|..] == p
  }

  /** `sub` occurs in `s` starting at index `i`. */
  predicate OccursAt(s: string, sub: string, i: int) {
    0 <= i <= |s| - |sub| && s[i..i + |sub|] == sub
  }

  /** strings.Contains: `sub` occurs somewhere in `s`. */
  predicate Contains(s: string, sub: string) {
    exists i :: 0 <= i <= |s| && OccursAt(s, sub, i)
  }

  /** A concatenation starts with its first part, ends with its second, and contains both. */
  lemma ConcatHasAffixes(a: string, b: string)
    ensures HasPrefix(a + b, a) && HasSuffix(a + b, b)
    ensures Contains(a + b, a) && Contains(a + b, b)
  {
    assert OccursAt(a + b, a, 0);
    assert OccursAt(a + b, b, |a|);
  }

  /** Both directions: `sub` occurs in `s` exactly when some suffix of `s` starts with it. */
  lemma ContainsAsPrefix(s: string, sub: string)
    ensures Contains(s, sub) <==> exists i :: 0 <= i <= |s| && HasPrefix(s[i..], sub)
  {
    if Contains(s, sub) {
      var i :| 0 <= i <= |s| && OccursAt(s, sub, i);
      assert s[i..][..|sub|] == s[i..i + |sub|];
    }
    if exists i :: 0 <= i <= |s| && HasPrefix(s[i..], sub) {
      var i :| 0 <= i <= |s| && HasPrefix(s[i..], sub);
      assert s[i..][..|sub|] == s[i..i + |sub|];
      assert OccursAt(s, sub, i);
    }
  }

  /** strings.TrimPrefix: removes one copy of `p` from the front, if there. */
  function TrimPrefix(s: string, p: string): (r: string)
    ensures HasPrefix(s, p) ==> p + r == s
    ensures !HasPrefix(s, p) ==> r == s
  {
    if HasPrefix(s, p) then s[|p|..] else s
  }

  /** strings.TrimSuffix: removes one copy of `p` from the end, if there. */
  function TrimSuffix(s: string, p: string): (r: string)
    ensures HasSuffix(s, p) ==> r + p == s
    ensures !HasSuffix(s, p) ==> r == s
  {
    if HasSuffix(s, p) then s[..|s| - |p|] else s
  }

  /** unicode.IsSpace: the White_Space characters Go's strings.TrimSpace strips. */
  predicate IsSpace(c: char) {
    var u := c as int;
    (0x09 <= u <= 0x0D) || u == 0x20 || u == 0x85 || u == 0xA0 || u == 0x1680
    || (0x2000 <= u <= 0x200A) || u == 0x2028 || u == 0x2029 || u == 0x202F
    || u == 0x205F || u == 0x3000
  }

  /** The first index at or after `i` that does not hold white space. */
  function SkipSpace(s: string, i: nat): (j: nat)
    requires i <= |s|
    ensures i <= j <= |s|
    ensures j < |s| ==> !IsSpace(s[j])
    ensures forall k :: i <= k < j ==> IsSpace(s[k])
    decreases |s| - i
  {
    if i < |s| && IsSpace(s[i]) then SkipSpace(s, i + 1) else i
  }

  /** Going down from `j` to no lower than `lo`, the end of the last character that is not white space. */
  function SkipSpaceBack(s: string, lo: nat, j: nat): (r: nat)
    requires lo <= j <= |s|
    ensures lo <= r <= j
    ensures r > lo ==> !IsSpace(s[r - 1])
    ensures forall k :: r <= k < j ==> IsSpace(s[k])
  {
    if j > lo && IsSpace(s[j - 1]) then SkipSpaceBack(s, lo, j - 1) else j
  }

  /** No white space at either end. */
  predicate Trimmed(s: string) {
    s == [] || (!IsSpace(s[0]) && !IsSpace(s[|s| - 1]))
  }

  /** strings.TrimSpace: the slice of `s` between leading and trailing white space. */
  function TrimSpace(s: string): (r: string)
    ensures Trimmed(r)
    ensures exists i :: 0 <= i <= |s| && OccursAt(s, r, i)
  {
    var start := SkipSpace(s, 0);
    var stop := SkipSpaceBack(s, start, |s|);
    assert OccursAt(s, s[start..stop], start);
    s[start..stop]
  }

  /**
   * strings.TrimSpace cuts white space and nothing else: the result is a
   * slice of `s`, and everything before and after it is white space.
   */
  lemma TrimSpaceRemovesOnlySpace(s: string)
    ensures exists i ::
      && 0 <= i <= |s|
      && OccursAt(s, TrimSpace(s), i)
      && (forall k :: 0 <= k < i ==> IsSpace(s[k]))
      && (forall k :: i + |TrimSpace(s)| <= k < |s| ==> IsSpace(s[k]))
  {
    var start := SkipSpace(s, 0);
    var stop := SkipSpaceBack(s, start, |s|);
    assert OccursAt(s, TrimSpace(s), start);
  }

  /** A string without white space at either end is its own TrimSpace. */
  lemma TrimSpaceKeepsTrimmed(s: string)
    requires Trimmed(s)
    ensures TrimSpace(s) == s
  {
    if s != [] {
      assert SkipSpace(s, 0) == 0;
      assert SkipSpaceBack(s, 0, |s|) == |s|;
      assert s[0..|s|] == s;
    }
  }

  /** Number of bytes of the UTF-8 encoding of one character. */
  function Utf8Width(c: char): (w: nat)
    ensures 1 <= w <= 4
  {
    if c as int < 0x80 then 1
    else if c as int < 0x800 then 2
    else if c as int < 0x10000 then 3
    else 4
  }

  /** Go's `len` of a string: its length in UTF-8 bytes. */
  function Utf8Len(s: string): (n: nat)
    ensures |s| <= n <= 4 * |s|
  {
    if s == [] then 0 else Utf8Width(s[0]) + Utf8Len(s[1..])
  }

  /** ASCII lower-casing of one character. */
  function LowerChar(c: char): (d: char)
    ensures 'A' <= c <= 'Z' ==> d as int == c as int + 32
    ensures !('A' <= c <= 'Z') ==> d == c
  {
    if 'A' <= c <= 'Z' then (c as int + 32) as char else c
  }

  function ToLower(s: string): (r: string)
    ensures |r| == |s|
    ensures forall k :: 0 <= k < |s| ==> r[k] == LowerChar(s[k])
  {
    seq(|s|, k requires 0 <= k < |s| => LowerChar(s[k]))
  }

  function DigitChar(d: nat): (c: char)
    requires d < 10
    ensures '0' <= c <= '9'
    ensures c as int - '0' as int == d
  {
    "0123456789"[d]
  }

  /** The number a string of decimal digits denotes, most significant digit first. */
  function DecimalValue(s: string): nat
    requires forall k :: 0 <= k < |s| ==> '0' <= s[k] <= '9'
  {
    if s == [] then 0
    else DecimalValue(s[..|s| - 1]) * 10 + (s[|s| - 1] as int - '0' as int)
  }

  /** Decimal rendering of a natural number, as JavaScript's template strings print an integer. */
  function Decimal(n: nat): (r: string)
    ensures |r| > 0
    ensures forall k :: 0 <= k < |r| ==> '0' <= r[k] <= '9'
    ensures r[0] == '0' ==> n == 0
    ensures r[0] == '0' ==> r == "0"
  {
    if n < 10 then [DigitChar(n)] else Decimal(n / 10) + [DigitChar(n % 10)]
  }

  /** The printed digits denote the number itself. */
  lemma {:induction false} DecimalDenotes(n: nat)
    ensures DecimalValue(Decimal(n)) == n
  {
    var d := Decimal(n);
    if n < 10 {
      assert d[..0] == [];
    } else {
      DecimalDenotes(n / 10);
      assert d[..|d| - 1] == Decimal(n / 10);
      assert d[|d| - 1] == DigitChar(n % 10);
    }
  }
}
