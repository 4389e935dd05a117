/** String helpers the commands rely on: Rust's ordering of `String`s, the
    `trim`, `to_lowercase` and `contains` of `str`. Strings are `seq<char>`;
    Rust compares the UTF-8 bytes of two strings, and UTF-8 keeps the order
    of code points, so comparing `char`s gives the same answer. */
module Text {

  datatype Ordering = Less | Equal | Greater {
    function Reverse(): Ordering {
      match this
      case Less => Greater
      case Equal => Equal
      case Greater => Less
    }
  }

  /** Lexicographic comparison (Rust's `Ord::cmp` on `String`): the first
      differing character decides, and a proper prefix comes first. */
  function Cmp(a: string, b: string): (r: Ordering)
    ensures r == Equal <==> a == b
  {
    if a == [] && b == [] then Equal
    else if a == [] then Less
    else if b == [] then Greater
    else if a[0] < b[0] then Less
    else if b[0] < a[0] then Greater
    else
      var r := Cmp(a[1..], b[1..]);
      assert r == Equal ==> a == [a[0]] + a[1..] == [b[0]] + b[1..] == b;
      r
  }

  /** Rust's `a < b` on `String`. */
  predicate LexLess(a: string, b: string) {
    Cmp(a, b) == Less
  }

  /** Rust's `a >= b` on `String`. */
  predicate LexGe(a: string, b: string) {
    Cmp(a, b) != Less
  }

  /** Swapping the operands of `Cmp` reverses its answer. */
  lemma {:induction false} CmpAntisymmetric(a: string, b: string)
    ensures Cmp(b, a) == Cmp(a, b).Reverse()
  {
    if a != [] && b != [] && a[0] == b[0] {
      CmpAntisymmetric(a[1..], b[1..]);
    }
  }

  /** `LexLess` is a strict order ... */
  lemma {:induction false} LexLessTransitive(a: string, b: string, c: string)
    requires LexLess(a, b) && LexLess(b, c)
    ensures LexLess(a, c)
  {
    if a != [] && b != [] && c != [] && a[0] == b[0] == c[0] {
      LexLessTransitive(a[1..], b[1..], c[1..]);
    }
  }

  /** ... that is total: of two different strings, exactly one is the smaller. */
  lemma LexLessTotal(a: string, b: string)
    ensures a == b || LexLess(a, b) || LexLess(b, a)
    ensures !(LexLess(a, b) && LexLess(b, a))
    ensures !LexLess(a, a)
  {
    CmpAntisymmetric(a, b);
  }

  /** Rust's `>=` is the complement of `<`, and it holds exactly when the
      strings are equal or the second is the smaller. */
  lemma LexGeIsNotLess(a: string, b: string)
    ensures LexGe(a, b) <==> !LexLess(a, b)
    ensures LexGe(a, b) <==> a == b || LexLess(b, a)
  {
    CmpAntisymmetric(a, b);
  }

  // Dates are stored as `YYYY-MM-DD` strings and compared with `<`. For
  // strings of that fixed, zero-padded shape the string order is the
  // calendar order: year first, then month, then day.

  predicate IsDigit(c: char) {
    '0' <= c <= '9'
  }

  predicate AllDigits(s: string) {
    forall i :: 0 <= i < |s| ==> IsDigit(s[i])
  }

  function Pow10(n: nat): (r: nat)
    ensures r >= 1
  {
    if n == 0 then 1 else 10 * Pow10(n - 1)
  }

  /** The number a string of decimal digits denotes. */
  function Number(s: string): nat
    requires AllDigits(s)
  {
    if s == [] then 0
    else (s[0] as int - '0' as int) * Pow10(|s| - 1) + Number(s[1..])
  }

  lemma {:induction false} NumberBound(s: string)
    requires AllDigits(s)
    ensures Number(s) < Pow10(|s|)
  {
    if s != [] {
      NumberBound(s[1..]);
      var d := s[0] as int - '0' as int;
      var p := Pow10(|s| - 1);
      assert d * p <= 9 * p;
    }
  }

  /** Multiplying by a non-negative number keeps the order of the factors. */
  lemma {:induction false} MulMonotone(x: nat, y: nat, p: nat)
    requires x <= y
    ensures x * p <= y * p
  {
    if x < y {
      MulMonotone(x, y - 1, p);
      assert y * p == (y - 1) * p + p;
    }
  }

  /** A smaller leading digit gives a smaller number, whatever follows it. */
  lemma LeadingDigitDecides(da: nat, db: nat, p: nat, ra: nat, rb: nat)
    requires da < db && ra < p
    ensures da * p + ra < db * p + rb
  {
    MulMonotone(da + 1, db, p);
    assert (da + 1) * p == da * p + p;
  }

  /** Of two digit strings of the same length, the smaller string denotes
      the smaller number. */
  lemma {:induction false} DigitStringOrder(a: string, b: string)
    requires AllDigits(a) && AllDigits(b) && |a| == |b|
    ensures LexLess(a, b) <==> Number(a) < Number(b)
  {
    if a != [] {
      var p := Pow10(|a| - 1);
      var da, db := a[0] as int - '0' as int, b[0] as int - '0' as int;
      assert Number(a) == da * p + Number(a[1..]);
      assert Number(b) == db * p + Number(b[1..]);
      NumberBound(a[1..]);
      NumberBound(b[1..]);
      if da < db {
        LeadingDigitDecides(da, db, p, Number(a[1..]), Number(b[1..]));
      } else if db < da {
        LeadingDigitDecides(db, da, p, Number(b[1..]), Number(a[1..]));
      } else {
        DigitStringOrder(a[1..], b[1..]);
      }
    }
  }

  /** Digit strings of the same length are equal exactly when their numbers are. */
  lemma DigitStringsEqual(a: string, b: string)
    requires AllDigits(a) && AllDigits(b) && |a| == |b|
    ensures a == b <==> Number(a) == Number(b)
  {
    DigitStringOrder(a, b);
    DigitStringOrder(b, a);
    LexLessTotal(a, b);
  }

  /** `s` has the shape `YYYY-MM-DD`. */
  predicate IsDate(s: string) {
    |s| == 10 && s[4] == '-' && s[7] == '-'
    && AllDigits(s[..4]) && AllDigits(s[5..7]) && AllDigits(s[8..])
  }

  function Year(s: string): nat
    requires IsDate(s)
  {
    Number(s[..4])
  }

  function Month(s: string): nat
    requires IsDate(s)
  {
    Number(s[5..7])
  }

  function Day(s: string): nat
    requires IsDate(s)
  {
    Number(s[8..])
  }

  /** The day `a` comes before the day `b` in the calendar. */
  predicate EarlierDate(a: string, b: string)
    requires IsDate(a) && IsDate(b)
  {
    Year(a) < Year(b)
    || (Year(a) == Year(b) && Month(a) < Month(b))
    || (Year(a) == Year(b) && Month(a) == Month(b) && Day(a) < Day(b))
  }

  /** Comparing the first `n` characters decides unless they are equal. */
  lemma {:induction false} CmpSplit(a: string, b: string, n: nat)
    requires n <= |a| && n <= |b|
    ensures a[..n] != b[..n] ==> Cmp(a, b) == Cmp(a[..n], b[..n])
    ensures a[..n] == b[..n] ==> Cmp(a, b) == Cmp(a[n..], b[n..])
  {
    if n > 0 {
      assert a[..n][1..] == a[1..][..n - 1] && b[..n][1..] == b[1..][..n - 1];
      assert a[n..] == a[1..][n - 1..] && b[n..] == b[1..][n - 1..];
      CmpSplit(a[1..], b[1..], n - 1);
      if a[0] == b[0] && a[1..][..n - 1] == b[1..][..n - 1] {
        assert a[..n] == [a[0]] + a[1..][..n - 1];
        assert b[..n] == [b[0]] + b[1..][..n - 1];
      }
    } else {
      assert a[..0] == b[..0];
    }
  }

  /** For dates written `YYYY-MM-DD`, Rust's `<` on the strings is the
      calendar order. */
  lemma DateOrderIsChronological(a: string, b: string)
    requires IsDate(a) && IsDate(b)
    ensures LexLess(a, b) <==> EarlierDate(a, b)
  {
    CmpSplit(a, b, 4);
    DigitStringOrder(a[..4], b[..4]);
    DigitStringsEqual(a[..4], b[..4]);
    if a[..4] == b[..4] {
      var a1, b1 := a[4..], b[4..];
      assert a1[..1] == b1[..1] == "-";
      CmpSplit(a1, b1, 1);
      var a2, b2 := a1[1..], b1[1..];
      assert a2 == a[5..] && b2 == b[5..];
      assert a2[..2] == a[5..7] && b2[..2] == b[5..7];
      CmpSplit(a2, b2, 2);
      DigitStringOrder(a[5..7], b[5..7]);
      DigitStringsEqual(a[5..7], b[5..7]);
      if a[5..7] == b[5..7] {
        var a3, b3 := a2[2..], b2[2..];
        assert a3[..1] == b3[..1] == "-";
        CmpSplit(a3, b3, 1);
        assert a3[1..] == a[8..] && b3[1..] == b[8..];
        DigitStringOrder(a[8..], b[8..]);
      }
    }
  }

  /** The characters with the Unicode White_Space property, which Rust's
      `str::trim` removes. */
  predicate IsWhitespace(c: char) {
    ('\U{0009}' <= c <= '\U{000D}') || c == '\U{0020}' || c == '\U{0085}' || c == '\U{00A0}'
    || c == '\U{1680}' || ('\U{2000}' <= c <= '\U{200A}') || c == '\U{2028}' || c == '\U{2029}'
    || c == '\U{202F}' || c == '\U{205F}' || c == '\U{3000}'
  }

  /** `s` without its leading whitespace. */
  function TrimStart(s: string): (r: string)
    ensures |r| <= |s| && r == s[|s| - |r|..]
    ensures forall k :: 0 <= k < |s| - |r| ==> IsWhitespace(s[k])
    ensures r == [] || !IsWhitespace(r[0])
  {
    if s != [] && IsWhitespace(s[0]) then TrimStart(s[1..]) else s
  }

  /** `s` without its trailing whitespace. */
  function TrimEnd(s: string): (r: string)
    ensures |r| <= |s| && r == s[..|r|]
    ensures forall k :: |r| <= k < |s| ==> IsWhitespace(s[k])
    ensures r == [] || !IsWhitespace(r[|r| - 1])
  {
    if s != [] && IsWhitespace(s[|s| - 1]) then TrimEnd(s[..|s| - 1]) else s
  }

  /** Rust's `str::trim`. */
  function Trim(s: string): string {
    TrimEnd(TrimStart(s))
  }

  /** Lower-casing of one character; only ASCII letters are mapped. */
  function LowerChar(c: char): char {
    if 'A' <= c <= 'Z' then (c as int + 32) as char else c
  }

  /** `to_lowercase`, restricted to ASCII letters. */
  function Lower(s: string): (r: string)
    ensures |r| == |s|
    ensures forall i :: 0 <= i < |s| ==> r[i] == LowerChar(s[i])
  {
    seq(|s|, i requires 0 <= i < |s| => LowerChar(s[i]))
  }

  predicate IsPrefix(q: string, s: string) {
    |q| <= |s| && s[..|q|] == q
  }

  /** Rust's `str::contains` with a string pattern: `q` occurs in `s`. */
  predicate Contains(s: string, q: string)
    decreases |s|
  {
    IsPrefix(q, s) || (s != [] && Contains(s[1..], q))
  }

  /** Every occurrence of `q` at some offset of `s` is found by `Contains`. */
  lemma {:induction false} ContainsOccurrence(s: string, q: string, i: nat)
    requires i + |q| <= |s| && s[i..i + |q|] == q
    ensures Contains(s, q)
  {
    if i > 0 {
      assert s[1..][i - 1..i - 1 + |q|] == s[i..i + |q|];
      ContainsOccurrence(s[1..], q, i - 1);
    }
  }

  /** Conversely, whatever `Contains` accepts has an occurrence in `s`. */
  lemma {:induction false} ContainsHasOffset(s: string, q: string) returns (i: nat)
    requires Contains(s, q)
    ensures i + |q| <= |s| && s[i..i + |q|] == q
  {
    if IsPrefix(q, s) {
      i := 0;
    } else {
      var j := ContainsHasOffset(s[1..], q);
      assert s[1..][j..j + |q|] == s[j + 1..j + 1 + |q|];
      i := j + 1;
    }
  }

  /** The confirmation rule of the archive command: the answer, trimmed and
      lower-cased, must be exactly "y" or "yes". */
  predicate Confirmed(answer: string) {
    var a := Lower(Trim(answer));
    a == "y" || a == "yes"
  }

  /** The same rule stated on the trimmed answer itself: one `y`, or `yes`,
      each letter in either case. */
  lemma ConfirmedIff(answer: string)
    ensures Confirmed(answer) <==>
      var t := Trim(answer);
      (|t| == 1 && t[0] in "yY") ||
      (|t| == 3 && t[0] in "yY" && t[1] in "eE" && t[2] in "sS")
  {
    var t := Trim(answer);
    var a := Lower(t);
    if |t| == 1 {
      assert a == "y" <==> a[0] == 'y';
    } else if |t| == 3 {
      assert a == "yes" <==> a[0] == 'y' && a[1] == 'e' && a[2] == 's';
    }
  }
}
