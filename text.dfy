/**
 * Character classes and string helpers shared by the scraper model:
 * the whitespace that JavaScript's `String.prototype.trim` removes, the
 * ASCII digits that `[0-9]` and `\d` match, and decimal numerals.
 */
module Text {

  /** WhiteSpace and LineTerminator code points of ECMAScript, which `trim` strips. */
  predicate IsWhitespace(c: char) {
    var n := c as int;
    n == 0x09 || n == 0x0A || n == 0x0B || n == 0x0C || n == 0x0D || n == 0x20
    || n == 0xA0 || n == 0x1680 || (0x2000 <= n <= 0x200A)
    || n == 0x2028 || n == 0x2029 || n == 0x202F || n == 0x205F
    || n == 0x3000 || n == 0xFEFF
  }

  predicate AllWhitespace(s: string) {
    forall i :: 0 <= i < |s| ==> IsWhitespace(s[i])
  }

  /** The number of whitespace characters `s` starts with. */
  function LeadingWhitespace(s: string): (n: nat)
    ensures n <= |s| && AllWhitespace(s[..n])
    ensures n == |s| || !IsWhitespace(s[n])
  {
    if |s| > 0 && IsWhitespace(s[0]) then
      var m := LeadingWhitespace(s[1..]);
      assert forall i :: 1 <= i < m + 1 ==> s[i] == s[1..][..m][i - 1];
      m + 1
    else 0
  }

  /** Where the whitespace that `s` ends with begins. */
  function TrailingWhitespaceStart(s: string): (n: nat)
    ensures n <= |s| && AllWhitespace(s[n..])
    ensures n == 0 || !IsWhitespace(s[n - 1])
  {
    if |s| > 0 && IsWhitespace(s[|s| - 1]) then
      var m := TrailingWhitespaceStart(s[..|s| - 1]);
      assert forall i :: m <= i < |s| - 1 ==> s[i] == s[..|s| - 1][m..][i - m];
      m
    else |s|
  }

  function TrimStart(s: string): string {
    s[LeadingWhitespace(s)..]
  }

  function TrimEnd(s: string): string {
    s[..TrailingWhitespaceStart(s)]
  }

  /** `String.prototype.trim`: whitespace on neither end of the result. */
  function Trim(s: string): (r: string)
    ensures r == [] || (!IsWhitespace(r[0]) && !IsWhitespace(r[|r| - 1]))
  {
    TrimEnd(TrimStart(s))
  }

  /** What `trim` returns is a slice of its input with only whitespace cut off either end. */
  lemma TrimIsSlice(s: string)
    ensures exists i, j :: 0 <= i <= j <= |s| && Trim(s) == s[i..j]
                           && AllWhitespace(s[..i]) && AllWhitespace(s[j..])
  {
    var i := LeadingWhitespace(s);
    var t := s[i..];
    var k := TrailingWhitespaceStart(t);
    assert Trim(s) == s[i..i + k];
    assert s[i + k..] == t[k..];
  }

  lemma {:induction false} LeadingSkipsWhitespace(w: string, x: string)
    requires AllWhitespace(w)
    ensures LeadingWhitespace(w + x) == |w| + LeadingWhitespace(x)
  {
    if w == [] {
      assert w + x == x;
    } else {
      assert (w + x)[1..] == w[1..] + x;
      LeadingSkipsWhitespace(w[1..], x);
    }
  }

  lemma {:induction false} LeadingIgnoresSuffix(s: string, w: string)
    requires !AllWhitespace(s)
    ensures LeadingWhitespace(s + w) == LeadingWhitespace(s)
  {
    if IsWhitespace(s[0]) {
      assert (s + w)[1..] == s[1..] + w;
      assert !AllWhitespace(s[1..]) by {
        var k :| 0 <= k < |s| && !IsWhitespace(s[k]);
        assert s[1..][k - 1] == s[k];
      }
      LeadingIgnoresSuffix(s[1..], w);
    }
  }

  lemma {:induction false} TrailingSkipsWhitespace(x: string, w: string)
    requires AllWhitespace(w)
    ensures TrailingWhitespaceStart(x + w) == TrailingWhitespaceStart(x)
  {
    if w == [] {
      assert x + w == x;
    } else {
      assert (x + w)[..|x + w| - 1] == x + w[..|w| - 1];
      TrailingSkipsWhitespace(x, w[..|w| - 1]);
    }
  }

  lemma TrimStartSkipsWhitespace(w: string, x: string)
    requires AllWhitespace(w)
    ensures TrimStart(w + x) == TrimStart(x)
  {
    LeadingSkipsWhitespace(w, x);
    assert (w + x)[|w|..] == x;
  }

  lemma TrimStartOfWhitespace(s: string)
    requires AllWhitespace(s)
    ensures TrimStart(s) == []
  {
    LeadingSkipsWhitespace(s, []);
    assert s + [] == s;
  }

  lemma TrimStartKeepsSuffix(s: string, w: string)
    requires !AllWhitespace(s)
    ensures TrimStart(s + w) == TrimStart(s) + w
  {
    LeadingIgnoresSuffix(s, w);
  }

  /** Whitespace around a string never changes what `trim` returns. */
  lemma TrimIgnoresPadding(w1: string, s: string, w2: string)
    requires AllWhitespace(w1) && AllWhitespace(w2)
    ensures Trim(w1 + s + w2) == Trim(s)
  {
    assert w1 + s + w2 == w1 + (s + w2);
    TrimStartSkipsWhitespace(w1, s + w2);
    if AllWhitespace(s) {
      TrimStartOfWhitespace(s + w2);
      TrimStartOfWhitespace(s);
    } else {
      TrimStartKeepsSuffix(s, w2);
      TrailingSkipsWhitespace(TrimStart(s), w2);
    }
  }

  /** A string with whitespace on neither end is its own trim. */
  lemma TrimOfTrimmed(s: string)
    requires s == [] || (!IsWhitespace(s[0]) && !IsWhitespace(s[|s| - 1]))
    ensures Trim(s) == s
  {
  }

  /** The ASCII digits, the only characters `[0-9]` and `\d` match. */
  predicate IsDigit(c: char) {
    '0' <= c <= '9'
  }

  predicate AllDigits(s: string) {
    forall i :: 0 <= i < |s| ==> IsDigit(s[i])
  }

  function Pow10(n: nat): (r: nat)
    ensures r >= 1
  {
    if n == 0 then 1 else 10 * Pow10(n - 1)
  }

  function DigitChar(d: nat): (c: char)
    requires d < 10
    ensures IsDigit(c) && (c as int) - ('0' as int) == d
  {
    ('0' as int + d) as char
  }

  /** The value of a decimal numeral, most significant digit first. */
  function NumeralValue(s: string): (n: nat)
    requires AllDigits(s)
    ensures n < Pow10(|s|)
  {
    if s == [] then 0
    else NumeralValue(s[..|s| - 1]) * 10 + ((s[|s| - 1] as int) - ('0' as int))
  }

  /** `n` written in exactly `width` digits, zero-filled on the left. */
  function Numeral(n: nat, width: nat): (s: string)
    requires n < Pow10(width)
    ensures |s| == width && AllDigits(s) && NumeralValue(s) == n
  {
    if width == 0 then []
    else
      var s := Numeral(n / 10, width - 1) + [DigitChar(n % 10)];
      assert s[..|s| - 1] == Numeral(n / 10, width - 1);
      s
  }

  lemma LastDigit(v: nat, d: nat)
    requires d < 10
    ensures (v * 10 + d) / 10 == v && (v * 10 + d) % 10 == d
  {
  }

  /** Every numeral is the zero-filled rendering of its own value at its own width. */
  lemma {:induction false} NumeralOfValue(s: string)
    requires AllDigits(s)
    ensures Numeral(NumeralValue(s), |s|) == s
  {
    if s != [] {
      var init := s[..|s| - 1];
      NumeralOfValue(init);
      var d := (s[|s| - 1] as int) - ('0' as int);
      LastDigit(NumeralValue(init), d);
      assert DigitChar(d) == s[|s| - 1];
      assert s == init + [s[|s| - 1]];
    }
  }
}
