/** The string operations the signed messages and file names rest on. */
module Text {
  /** strconv.FormatUint(n, 10). */
  function Decimal(n: nat): (s: string)
    ensures s != [] && forall c :: c in s ==> '0' <= c <= '9'
  {
    if n < 10 then [Digit(n)] else Decimal(n / 10) + [Digit(n % 10)]
  }

  function Digit(d: nat): (c: char)
    requires d < 10
    ensures '0' <= c <= '9' && c as int - '0' as int == d
  {
    '0' + d as char
  }

  /** strconv.FormatInt(i, 10), as fmt.Sprint prints a signed integer. */
  function SignedDecimal(i: int): string {
    if i < 0 then ['-'] + Decimal(-i) else Decimal(i)
  }

  lemma {:induction false} DecimalInjective(m: nat, n: nat)
    requires Decimal(m) == Decimal(n)
    ensures m == n
  {
    var s := Decimal(m);
    assert m % 10 == s[|s| - 1] as int - '0' as int == n % 10;
    if m >= 10 && n >= 10 {
      assert s[..|s| - 1] == Decimal(m / 10) == Decimal(n / 10);
      DecimalInjective(m / 10, n / 10);
    }
  }

  lemma SignedDecimalInjective(i: int, j: int)
    requires SignedDecimal(i) == SignedDecimal(j)
    ensures i == j
  {
    SignMarksNegatives(i);
    SignMarksNegatives(j);
    if i < 0 {
      assert SignedDecimal(i)[1..] == Decimal(-i) && SignedDecimal(j)[1..] == Decimal(-j);
      DecimalInjective(-i, -j);
    } else {
      DecimalInjective(i, j);
    }
  }

  lemma SignMarksNegatives(i: int)
    ensures SignedDecimal(i) != [] && (SignedDecimal(i)[0] == '-' <==> i < 0)
  {
    if i >= 0 {
      assert Decimal(i)[0] in Decimal(i);
    }
  }

  /** unicode.IsSpace. */
  predicate IsSpace(c: char) {
    c in {'\t', '\n', '\U{0B}', '\U{0C}', '\r', ' ', '\U{85}', '\U{A0}', '\U{1680}', '\U{2028}', '\U{2029}', '\U{202F}', '\U{205F}', '\U{3000}'}
    || '\U{2000}' <= c <= '\U{200A}'
  }

  /** strings.TrimSpace(s) == "". */
  predicate Blank(s: string) {
    forall c :: c in s ==> IsSpace(c)
  }

  /** Cutting two equal strings at their last c gives equal halves. */
  lemma LastCutUnique(a: string, b: string, a': string, b': string, c: char)
    requires c !in a' && c !in b'
    requires a + [c] + a' == b + [c] + b'
    ensures a == b && a' == b'
  {
    var s, t := a + [c] + a', b + [c] + b';
    assert s[|a|] == c && forall i :: |a| < i < |s| ==> s[i] == a'[i - |a| - 1];
    assert t[|b|] == c && forall i :: |b| < i < |t| ==> t[i] == b'[i - |b| - 1];
    assert a == s[..|a|] && b == t[..|b|];
    assert a' == s[|a| + 1..] && b' == t[|b| + 1..];
  }

  /** Go's string order: byte by byte, a proper prefix first. */
  predicate Before(a: string, b: string) {
    b != [] && (a == [] || a[0] < b[0] || (a[0] == b[0] && Before(a[1..], b[1..])))
  }

  lemma {:induction false} BeforeTrans(a: string, b: string, c: string)
    requires Before(a, b) && Before(b, c)
    ensures Before(a, c)
  {
    if a != [] && a[0] == b[0] == c[0] {
      BeforeTrans(a[1..], b[1..], c[1..]);
    }
  }

  lemma {:induction false} BeforeTotal(a: string, b: string)
    ensures a == b || Before(a, b) || Before(b, a)
    ensures !(Before(a, b) && Before(b, a))
    ensures !Before(a, a)
  {
    if a != [] && b != [] && a[0] == b[0] {
      BeforeTotal(a[1..], b[1..]);
      assert a == [a[0]] + a[1..] && b == [b[0]] + b[1..];
    }
    BeforeIrreflexive(a);
  }

  lemma {:induction false} BeforeIrreflexive(a: string)
    ensures !Before(a, a)
  {
    if a != [] {
      BeforeIrreflexive(a[1..]);
    }
  }

  /** A common prefix does not change the order. */
  lemma {:induction false} BeforeAfterPrefix(p: string, a: string, b: string)
    ensures Before(p + a, p + b) == Before(a, b)
  {
    if p == [] {
      assert p + a == a && p + b == b;
    } else {
      assert (p + a)[1..] == p[1..] + a && (p + b)[1..] == p[1..] + b;
      BeforeAfterPrefix(p[1..], a, b);
    }
  }
}
