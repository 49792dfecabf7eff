/**
 * The string operations the standings code borrows from Rust's standard
 * library: `str::split` on one character, `str::trim`, `str::parse` for
 * `u8` and `i32`, decimal `Display` of integers and `to_lowercase`.
 * Only ASCII is modelled: whitespace is the ASCII part of Unicode's
 * White_Space class and lower-casing maps `A`..`Z` to `a`..`z`.
 */
module Text {
  import opened Ints
  import opened Wrappers

  // ---------------------------------------------------------------- trim

  /** The characters `str::trim` removes, restricted to ASCII. */
  predicate IsSpace(c: char) {
    c == ' ' || c == '\t' || c == '\n' || c == '\r' || c == '\U{000B}' || c == '\U{000C}'
  }

  /** Neither starts nor ends with whitespace. */
  predicate Trimmed(s: string) {
    s == [] || (!IsSpace(s[0]) && !IsSpace(s[|s| - 1]))
  }

  /** `str::trim`: drops whitespace from both ends. The result has none at
      either end, and a string that already has none is returned as it is. */
  function Trim(s: string): (r: string)
    ensures Trimmed(r)
    ensures |r| <= |s|
    ensures Trimmed(s) ==> r == s
  {
    if s != [] && IsSpace(s[0]) then Trim(s[1..])
    else if s != [] && IsSpace(s[|s| - 1]) then Trim(s[..|s| - 1])
    else s
  }

  /** Trimming removes whitespace from the two ends only: the input is the
      result with a run of whitespace before it and one after it. */
  lemma {:induction false} TrimIsInfix(s: string) returns (pre: string, post: string)
    ensures s == pre + Trim(s) + post
    ensures forall k :: 0 <= k < |pre| ==> IsSpace(pre[k])
    ensures forall k :: 0 <= k < |post| ==> IsSpace(post[k])
  {
    if s != [] && IsSpace(s[0]) {
      var p, q := TrimIsInfix(s[1..]);
      pre, post := [s[0]] + p, q;
      assert Trim(s) == Trim(s[1..]);
      calc {
        s;
        [s[0]] + s[1..];
        [s[0]] + (p + Trim(s) + q);
        pre + Trim(s) + post;
      }
    } else if s != [] && IsSpace(s[|s| - 1]) {
      var p, q := TrimIsInfix(s[..|s| - 1]);
      pre, post := p, q + [s[|s| - 1]];
      assert Trim(s) == Trim(s[..|s| - 1]);
      calc {
        s;
        s[..|s| - 1] + [s[|s| - 1]];
        (p + Trim(s) + q) + [s[|s| - 1]];
        pre + Trim(s) + post;
      }
    } else {
      pre, post := [], [];
    }
  }

  /** Trimming adds no character. */
  lemma TrimLacks(s: string, c: char)
    requires c !in s
    ensures c !in Trim(s)
  {
    var pre, post := TrimIsInfix(s);
    assert forall k :: 0 <= k < |Trim(s)| ==> Trim(s)[k] == s[|pre| + k];
  }

  // --------------------------------------------------------------- split

  /** Number of occurrences of `c` in `s`. */
  function Count(s: string, c: char): nat {
    if s == [] then 0 else (if s[0] == c then 1 else 0) + Count(s[1..], c)
  }

  /** `parts` glued back together with `sep` between neighbours. */
  function Join(parts: seq<string>, sep: char): string
    requires |parts| >= 1
  {
    if |parts| == 1 then parts[0] else parts[0] + [sep] + Join(parts[1..], sep)
  }

  /** `str::split(sep)` collected into a vector: one more piece than there
      are separators, no piece holding the separator, and the pieces glue
      back into the input. */
  function Split(s: string, sep: char): (parts: seq<string>)
    ensures |parts| == Count(s, sep) + 1
    ensures forall i :: 0 <= i < |parts| ==> sep !in parts[i]
    ensures Join(parts, sep) == s
  {
    if s == [] then [[]]
    else
      var rest := Split(s[1..], sep);
      if s[0] == sep then
        assert s == [sep] + s[1..];
        [[]] + rest
      else
        var parts := [[s[0]] + rest[0]] + rest[1..];
        assert parts[1..] == rest[1..];
        assert s == [s[0]] + s[1..];
        parts
  }

  lemma {:induction false} SplitNoSeparator(a: string, sep: char)
    requires sep !in a
    ensures Split(a, sep) == [a]
  {
    if a != [] {
      assert sep !in a[1..] by {
        forall k | 0 <= k < |a[1..]| ensures a[1..][k] != sep {
          assert a[1..][k] == a[k + 1];
        }
      }
      SplitNoSeparator(a[1..], sep);
      assert [a[0]] + a[1..] == a;
    }
  }

  lemma {:induction false} SplitAfterPiece(a: string, sep: char, s: string)
    requires sep !in a
    ensures Split(a + [sep] + s, sep) == [a] + Split(s, sep)
  {
    var t := a + [sep] + s;
    if a == [] {
      assert t[1..] == s;
    } else {
      assert t[1..] == a[1..] + [sep] + s;
      assert sep !in a[1..] by {
        forall k | 0 <= k < |a[1..]| ensures a[1..][k] != sep {
          assert a[1..][k] == a[k + 1];
        }
      }
      SplitAfterPiece(a[1..], sep, s);
      assert [a[0]] + a[1..] == a;
    }
  }

  /** Splitting undoes joining, as long as no piece holds the separator. */
  lemma {:induction false} SplitJoin(parts: seq<string>, sep: char)
    requires |parts| >= 1
    requires forall i :: 0 <= i < |parts| ==> sep !in parts[i]
    ensures Split(Join(parts, sep), sep) == parts
  {
    if |parts| == 1 {
      SplitNoSeparator(parts[0], sep);
    } else {
      SplitJoin(parts[1..], sep);
      SplitAfterPiece(parts[0], sep, Join(parts[1..], sep));
      assert [parts[0]] + parts[1..] == parts;
    }
  }

  // ------------------------------------------------------------- numbers

  predicate IsDigit(c: char) { '0' <= c <= '9' }

  predicate AllDigits(s: string) { forall k :: 0 <= k < |s| ==> IsDigit(s[k]) }

  function DigitValue(c: char): nat
    requires IsDigit(c)
  {
    c as int - '0' as int
  }

  function DigitChar(d: nat): char
    requires d < 10
  {
    (d + '0' as int) as char
  }

  /** The value of a string of decimal digits, most significant first. */
  function DecimalValue(s: string): nat
    requires AllDigits(s)
  {
    if s == [] then 0 else DecimalValue(s[..|s| - 1]) * 10 + DigitValue(s[|s| - 1])
  }

  /** `Display` of a non-negative integer: decimal, no leading zeros. */
  function ShowNat(n: nat): (s: string)
    ensures 1 <= |s| && AllDigits(s)
  {
    if n < 10 then [DigitChar(n)] else ShowNat(n / 10) + [DigitChar(n % 10)]
  }

  /** `Display` of a signed integer: a minus sign before negatives. */
  function ShowInt(x: int): string {
    if x < 0 then "-" + ShowNat(-x) else ShowNat(x)
  }

  lemma {:induction false} DecimalValueOfShowNat(n: nat)
    ensures DecimalValue(ShowNat(n)) == n
  {
    var s := ShowNat(n);
    if n >= 10 {
      DecimalValueOfShowNat(n / 10);
      assert s[..|s| - 1] == ShowNat(n / 10);
    }
  }

  /**
   * Parsing an unsigned byte: an optional `+`, then at least one ASCII digit,
   * with a value below 256. Unsigned parsing does not accept `-`.
   */
  function ParseU8(s: string): (r: Option<u8>)
    ensures r.Some? ==> s != [] && (IsDigit(s[0]) || s[0] == '+')
    ensures r.Some? ==> forall k :: 0 < k < |s| ==> IsDigit(s[k])
  {
    if s == [] then None
    else
      var digits := if s[0] == '+' then s[1..] else s;
      if digits == [] || !AllDigits(digits) then None
      else if DecimalValue(digits) < 0x100 then Some(DecimalValue(digits) as u8)
      else None
  }

  /**
   * Parsing a 32-bit signed integer: an optional `+` or `-`, then at least one ASCII
   * digit, with a value in the `i32` range.
   */
  function ParseI32(s: string): (r: Option<i32>)
    ensures r.Some? ==> s != [] && (IsDigit(s[0]) || s[0] == '+' || s[0] == '-')
    ensures r.Some? ==> forall k :: 0 < k < |s| ==> IsDigit(s[k])
    ensures r.Some? && r.value < 0 ==> s[0] == '-'
  {
    if s == [] then None
    else
      var digits := if s[0] == '+' || s[0] == '-' then s[1..] else s;
      if digits == [] || !AllDigits(digits) then None
      else
        var v: int := if s[0] == '-' then 0 - DecimalValue(digits) else DecimalValue(digits) as int;
        if InI32(v) then Some(v as i32) else None
  }

  /** Parsing a `u8` gives back what `Display` wrote. */
  lemma ParseU8OfShow(x: u8)
    ensures ParseU8(ShowNat(x as nat)) == Some(x)
  {
    DecimalValueOfShowNat(x as nat);
  }

  /** Parsing an `i32` gives back what `Display` wrote. */
  lemma ParseI32OfShow(x: i32)
    ensures ParseI32(ShowInt(x as int)) == Some(x)
  {
    var s := ShowInt(x as int);
    if x < 0 {
      DecimalValueOfShowNat(-(x as int));
      assert s[1..] == ShowNat(-(x as int));
    } else {
      DecimalValueOfShowNat(x as int);
    }
  }

  /** What `Display` writes holds no whitespace and no `sep` that is not a
      digit or a minus sign. */
  lemma ShowIntPlain(x: int, sep: char)
    requires !IsDigit(sep) && sep != '-'
    ensures sep !in ShowInt(x) && Trimmed(ShowInt(x))
  {
    var s := ShowInt(x);
    if x < 0 {
      assert s[1..] == ShowNat(-x);
      assert forall k :: 0 < k < |s| ==> IsDigit(s[k]);
    }
  }

  // ------------------------------------------------------------ lowercase

  function LowerChar(c: char): char {
    if 'A' <= c <= 'Z' then (c as int + 32) as char else c
  }

  /** `str::to_lowercase`, for ASCII letters. */
  function ToLower(s: string): string {
    seq(|s|, k requires 0 <= k < |s| => LowerChar(s[k]))
  }
}
