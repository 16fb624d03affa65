/**
 * The JavaScript string primitives the create-user form relies on:
 * the `\s` and `\d` character classes, `String.prototype.trim`,
 * `replace(/\D/g, "")` and `slice(0, n)`.
 *
 * Strings are sequences of Unicode scalar values; JavaScript's UTF-16
 * code units are not modelled (a surrogate pair is one `char` here).
 */
module Text {

  /** `\s` and the characters `trim` removes: ECMAScript's WhiteSpace
      (tab, vertical tab, form feed, U+FEFF and the space separators of
      category Zs) together with its LineTerminator code points. */
  predicate IsWhitespace(c: char): (b: bool)
    ensures b ==> !IsDigit(c) && c != '@' && c != '.'
  {
    || ('\t' <= c <= '\r')  // tab, line feed, vertical tab, form feed, carriage return
    || c == ' '
    || ('\U{00A0}' <= c && IsWideWhitespace(c))
  }

  /** The whitespace code points from U+00A0 on. */
  predicate IsWideWhitespace(c: char) {
    || c == '\U{00A0}' || c == '\U{1680}' || ('\U{2000}' <= c <= '\U{200A}')
    || c == '\U{2028}' || c == '\U{2029}' || c == '\U{202F}' || c == '\U{205F}'
    || c == '\U{3000}' || c == '\U{FEFF}'
  }

  /** `\d`: an ASCII decimal digit (JavaScript's `\d` is not Unicode-aware). */
  predicate IsDigit(c: char): (b: bool)
    ensures b <==> c in "0123456789"
  {
    '0' <= c <= '9'
  }

  /** Every character of `s` is whitespace (the empty string included). */
  predicate Blank(s: string) {
    forall k | 0 <= k < |s| :: IsWhitespace(s[k])
  }

  /** Every character of `s` is an ASCII digit. */
  predicate AllDigits(s: string) {
    forall k | 0 <= k < |s| :: IsDigit(s[k])
  }

  /** `trimStart`: drops the longest whitespace prefix (see TrimStartDrops). */
  function TrimStart(s: string): (r: string)
    ensures |r| <= |s|
    ensures r == [] || !IsWhitespace(r[0])
  {
    if s != [] && IsWhitespace(s[0]) then TrimStart(s[1..]) else s
  }

  /** `trimEnd`: drops the longest whitespace suffix (see TrimEndDrops). */
  function TrimEnd(s: string): (r: string)
    ensures |r| <= |s|
    ensures r == [] || !IsWhitespace(r[|r| - 1])
  {
    if s != [] && IsWhitespace(s[|s| - 1]) then TrimEnd(s[..|s| - 1]) else s
  }

  /** What `trimStart` drops is a whitespace prefix; the rest is kept. */
  lemma {:induction false} TrimStartDrops(s: string)
    ensures TrimStart(s) == s[|s| - |TrimStart(s)|..]
    ensures Blank(s[..|s| - |TrimStart(s)|])
  {
    if s != [] && IsWhitespace(s[0]) {
      TrimStartDrops(s[1..]);
      var n := |s| - |TrimStart(s)|;
      assert s[..n] == [s[0]] + s[1..][..n - 1];
    }
  }

  /** What `trimEnd` drops is a whitespace suffix; the rest is kept. */
  lemma {:induction false} TrimEndDrops(s: string)
    ensures TrimEnd(s) == s[..|TrimEnd(s)|]
    ensures Blank(s[|TrimEnd(s)|..])
  {
    if s != [] && IsWhitespace(s[|s| - 1]) {
      var p := s[..|s| - 1];
      TrimEndDrops(p);
      var n := |TrimEnd(s)|;
      assert s[n..] == p[n..] + [s[|s| - 1]];
    }
  }

  /** `trim`: drops the whitespace at both ends. */
  function Trim(s: string): (r: string)
    ensures |r| <= |s|
    ensures r == [] || (!IsWhitespace(r[0]) && !IsWhitespace(r[|r| - 1]))
  {
    TrimEndDrops(TrimStart(s));
    TrimEnd(TrimStart(s))
  }

  /** `s` is a whitespace prefix, then `Trim(s)`, then a whitespace suffix. */
  lemma TrimShape(s: string)
    ensures exists i | 0 <= i <= |s| - |Trim(s)| ::
      s[i..i + |Trim(s)|] == Trim(s) && Blank(s[..i]) && Blank(s[i + |Trim(s)|..])
  {
    var t := TrimStart(s);
    var r := TrimEnd(t);
    TrimStartDrops(s);
    TrimEndDrops(t);
    var i := |s| - |t|;
    assert s[i..i + |r|] == r;
    assert s[i + |r|..] == t[|r|..];
  }

  /** A string trims to "" exactly when it is blank. */
  lemma TrimEmptyIffBlank(s: string)
    ensures Trim(s) == [] <==> Blank(s)
  {
    var t := TrimStart(s);
    TrimStartDrops(s);
    if t == [] {
      assert s[..|s|] == s;
    } else {
      TrimEndDrops(t);
      assert !IsWhitespace(t[0]);
    }
  }

  /** `replace(/\D/g, "")`: keeps the ASCII digits of `s` and nothing else. */
  function StripNonDigits(s: string): (r: string)
    ensures AllDigits(r) && |r| <= |s|
    ensures forall c | IsDigit(c) :: multiset(r)[c] == multiset(s)[c]
    ensures AllDigits(s) ==> r == s
  {
    if s == [] then []
    else
      assert s == [s[0]] + s[1..];
      (if IsDigit(s[0]) then [s[0]] else []) + StripNonDigits(s[1..])
  }

  /** Stripping distributes over concatenation, so the digits keep the
      order they had in the input. */
  lemma {:induction false} StripNonDigitsAppend(a: string, b: string)
    ensures StripNonDigits(a + b) == StripNonDigits(a) + StripNonDigits(b)
  {
    if a == [] {
      assert a + b == b;
    } else {
      assert (a + b)[1..] == a[1..] + b;
      StripNonDigitsAppend(a[1..], b);
    }
  }

  /** `slice(0, n)`: the first `n` characters, or all of `s` when it is shorter. */
  function SliceTo(s: string, n: nat): (r: string)
    ensures |r| == if |s| < n then |s| else n
    ensures r <= s
  {
    if |s| < n then s else s[..n]
  }
}
