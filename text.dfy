/** The two small pieces of JavaScript string behaviour the gallery relies on:
    `String.prototype.trim`, which decides between a search and the default feed
    and whether a term reaches the search history, and the decimal rendering of a
    number inside a template literal, which builds the image address. */
module Text {

  datatype Option<T> = None | Some(value: T)

  /** The characters `trim` removes: ECMAScript WhiteSpace (tab, vertical tab,
      form feed, space, no-break space, byte order mark and the other space
      separators of category Zs) and LineTerminator (LF, CR, LS, PS). */
  predicate IsWhitespace(c: char) {
    c == '\t' || c == '\n' || c == '\U{B}' || c == '\U{C}' || c == '\r' ||
    c == ' ' || c == '\U{A0}' || c == '\U{1680}' ||
    ('\U{2000}' <= c <= '\U{200A}') ||
    c == '\U{2028}' || c == '\U{2029}' || c == '\U{202F}' || c == '\U{205F}' ||
    c == '\U{3000}' || c == '\U{FEFF}'
  }

  /** Drops the leading whitespace. */
  function TrimStart(s: string): string {
    if s != [] && IsWhitespace(s[0]) then TrimStart(s[1..]) else s
  }

  /** Drops the trailing whitespace. */
  function TrimEnd(s: string): string {
    if s != [] && IsWhitespace(s[|s| - 1]) then TrimEnd(s[..|s| - 1]) else s
  }

  /** `s.trim()`. */
  function Trim(s: string): string {
    TrimEnd(TrimStart(s))
  }

  /** `s.trim() === ''`, the test both effects of the component apply to the term. */
  predicate IsBlank(s: string) {
    Trim(s) == ""
  }

  /** `TrimStart` gives the suffix of `s` that starts at its first
      non-whitespace character. */
  lemma {:induction false} TrimStartShape(s: string)
    ensures |TrimStart(s)| <= |s| && TrimStart(s) == s[|s| - |TrimStart(s)|..]
    ensures forall i :: 0 <= i < |s| - |TrimStart(s)| ==> IsWhitespace(s[i])
    ensures TrimStart(s) != [] ==> !IsWhitespace(TrimStart(s)[0])
  {
    if s != [] && IsWhitespace(s[0]) {
      var rest := s[1..];
      TrimStartShape(rest);
      var t := TrimStart(rest);
      assert TrimStart(s) == t;
      assert rest[|rest| - |t|..] == s[|s| - |t|..];
      forall i | 0 <= i < |s| - |t| ensures IsWhitespace(s[i]) {
        if i > 0 {
          assert s[i] == rest[i - 1];
        }
      }
    }
  }

  /** `TrimEnd` gives the prefix of `s` that ends at its last non-whitespace
      character. */
  lemma {:induction false} TrimEndShape(s: string)
    ensures |TrimEnd(s)| <= |s| && TrimEnd(s) == s[..|TrimEnd(s)|]
    ensures forall i :: |TrimEnd(s)| <= i < |s| ==> IsWhitespace(s[i])
    ensures TrimEnd(s) != [] ==> !IsWhitespace(TrimEnd(s)[|TrimEnd(s)| - 1])
  {
    if s != [] && IsWhitespace(s[|s| - 1]) {
      var front := s[..|s| - 1];
      TrimEndShape(front);
      var t := TrimEnd(front);
      assert TrimEnd(s) == t;
      assert front[..|t|] == s[..|t|];
      forall i | |t| <= i < |s| ensures IsWhitespace(s[i]) {
        if i < |s| - 1 {
          assert s[i] == front[i];
        }
      }
    }
  }

  /** A string trims to the empty string exactly when every character of it is
      whitespace. */
  lemma BlankIff(s: string)
    ensures IsBlank(s) <==> forall i :: 0 <= i < |s| ==> IsWhitespace(s[i])
  {
    var t := TrimStart(s);
    TrimStartShape(s);
    TrimEndShape(t);
    if !IsBlank(s) {
      assert Trim(s) != [];
      assert t != [];
      assert !IsWhitespace(s[|s| - |t|]);
    }
  }

  /** Trimming keeps a contiguous piece of the input that neither starts nor
      ends with whitespace, and removes only whitespace around it. */
  lemma TrimIsInfix(s: string)
    ensures exists a, b ::
      (0 <= a <= b <= |s| && Trim(s) == s[a..b] &&
       (forall i :: 0 <= i < a ==> IsWhitespace(s[i])) &&
       (forall i :: b <= i < |s| ==> IsWhitespace(s[i])))
    ensures Trim(s) != [] ==> !IsWhitespace(Trim(s)[0]) && !IsWhitespace(Trim(s)[|Trim(s)| - 1])
  {
    var t := TrimStart(s);
    var r := TrimEnd(t);
    TrimStartShape(s);
    TrimEndShape(t);
    var a := |s| - |t|;
    var b := a + |r|;
    assert r == s[a..b];
    forall i | b <= i < |s| ensures IsWhitespace(s[i]) {
      assert s[i] == t[i - a];
    }
  }

  // ---- decimal rendering of a number, as `${n}` produces it ----

  predicate IsDigit(c: char) {
    '0' <= c <= '9'
  }

  function DigitChar(d: nat): (c: char)
    requires d < 10
    ensures IsDigit(c)
  {
    "0123456789"[d]
  }

  function DigitValue(c: char): (d: nat)
    requires IsDigit(c)
    ensures d < 10 && DigitChar(d) == c
  {
    (c as int - '0' as int) as nat
  }

  /** `${n}` for a non-negative integer below 10^21 (larger numbers are
      rendered by JavaScript in exponent notation): its shortest decimal numeral. */
  function NatToDecimal(n: nat): (r: string)
    ensures r != [] && forall i :: 0 <= i < |r| ==> IsDigit(r[i])
    ensures |r| > 1 ==> r[0] != '0'
  {
    if n < 10 then [DigitChar(n)] else NatToDecimal(n / 10) + [DigitChar(n % 10)]
  }

  /** The value of a numeral, read most significant digit first. */
  function DecimalValue(s: string): nat
    requires forall i :: 0 <= i < |s| ==> IsDigit(s[i])
  {
    if s == [] then 0 else DecimalValue(s[..|s| - 1]) * 10 + DigitValue(s[|s| - 1])
  }

  /** Reads a non-empty numeral; anything else is not a number. */
  function ParseDecimal(s: string): Option<nat> {
    if s != [] && forall i :: 0 <= i < |s| ==> IsDigit(s[i]) then Some(DecimalValue(s)) else None
  }

  lemma {:induction false} DecimalValueOfRendering(n: nat)
    ensures DecimalValue(NatToDecimal(n)) == n
  {
    if n >= 10 {
      var s := NatToDecimal(n);
      var front := NatToDecimal(n / 10);
      assert s[..|s| - 1] == front;
      DecimalValueOfRendering(n / 10);
    }
  }

  /** Reading back the decimal rendering of a number gives the number. */
  lemma DecimalRoundTrip(n: nat)
    ensures ParseDecimal(NatToDecimal(n)) == Some(n)
  {
    DecimalValueOfRendering(n);
  }

  // ---- splitting a string at a separator ----

  /** Splits `s` at the first occurrence of `c`, or gives None when `c` does not
      occur. */
  function SplitAt(s: string, c: char): (r: Option<(string, string)>)
    ensures r.Some? ==> c !in r.value.0 && s == r.value.0 + [c] + r.value.1
    ensures r.None? ==> c !in s
  {
    if s == [] then None
    else if s[0] == c then Some(([], s[1..]))
    else match SplitAt(s[1..], c)
      case None => None
      case Some((a, b)) => Some(([s[0]] + a, b))
  }

  /** A string built as `a`, `c`, `b` with no `c` inside `a` splits back into
      `a` and `b`. */
  lemma {:induction false} SplitAtJoin(a: string, c: char, b: string)
    requires c !in a
    ensures SplitAt(a + [c] + b, c) == Some((a, b))
  {
    if a != [] {
      assert (a + [c] + b)[1..] == a[1..] + [c] + b;
      SplitAtJoin(a[1..], c, b);
      assert [a[0]] + a[1..] == a;
    } else {
      assert (a + [c] + b)[1..] == b;
    }
  }

  /** Removes a fixed prefix, or gives None when `s` does not start with it. */
  function StripPrefix(p: string, s: string): (r: Option<string>)
    ensures r.Some? <==> p <= s
    ensures r.Some? ==> s == p + r.value
  {
    if p <= s then Some(s[|p|..]) else None
  }

  /** Removes a fixed suffix, or gives None when `s` does not end with it. */
  function StripSuffix(s: string, q: string): (r: Option<string>)
    ensures r.Some? <==> |q| <= |s| && s[|s| - |q|..] == q
    ensures r.Some? ==> s == r.value + q
  {
    if |q| <= |s| && s[|s| - |q|..] == q then Some(s[..|s| - |q|]) else None
  }
}
