/** Shared value types: the JSON scalars that travel between the page, the
    spreadsheet library and the API handlers, and small sequence helpers. */
module Values {

  datatype Option<T> = None | Some(value: T)

  /** The outcome of a store statement: a value, or the message of the error it raised. */
  datatype Result<T> = Ok(value: T) | Err(message: string)

  /** A scalar as a spreadsheet cell or a JSON request body carries it.
      Floating-point numbers are modelled as reals (NaN is not modelled). */
  datatype Value = Text(text: string) | Number(num: real) | Boolean(flag: bool)

  /** A spreadsheet row or a request body: field name to value. A missing key
      stands for JavaScript's `undefined`. */
  type Row = map<string, Value>

  /** JavaScript truthiness of a defined value. */
  predicate Truthy(v: Value)
  {
    match v
    case Text(s) => s != ""
    case Number(x) => x != 0.0
    case Boolean(b) => b
  }

  /** `rel` holds between every element and every later element. */
  ghost predicate Pairwise<T>(s: seq<T>, rel: (T, T) -> bool)
  {
    forall i, j :: 0 <= i < j < |s| ==> rel(s[i], s[j])
  }

  predicate Distinct<T(==)>(s: seq<T>)
  {
    forall i, j :: 0 <= i < j < |s| ==> s[i] != s[j]
  }

  /** The elements of `s` that satisfy `p`, in their original order. */
  function Filter<T(!new)>(s: seq<T>, p: T -> bool): (r: seq<T>)
    ensures |r| <= |s|
    ensures forall x :: x in r <==> x in s && p(x)
  {
    if s == [] then []
    else if p(s[0]) then [s[0]] + Filter(s[1..], p)
    else Filter(s[1..], p)
  }

  /** Filtering keeps every selected element as often as it occurs and drops
      every other one entirely. */
  lemma {:induction false} FilterMultiset<T(!new)>(s: seq<T>, p: T -> bool)
    ensures forall x :: multiset(Filter(s, p))[x] == if p(x) then multiset(s)[x] else 0
  {
    if s != [] {
      FilterMultiset(s[1..], p);
      assert s == [s[0]] + s[1..];
    }
  }

  /** `a` is `b` with some elements left out, the rest in their order. */
  predicate Subsequence<T(==)>(a: seq<T>, b: seq<T>)
    decreases |b|
  {
    a == [] || (b != [] && if a[0] == b[0] then Subsequence(a[1..], b[1..]) else Subsequence(a, b[1..]))
  }

  lemma {:induction false} FilterSubsequence<T(!new)>(s: seq<T>, p: T -> bool)
    ensures Subsequence(Filter(s, p), s)
  {
    if s != [] {
      FilterSubsequence(s[1..], p);
      if p(s[0]) {
        assert ([s[0]] + Filter(s[1..], p))[1..] == Filter(s[1..], p);
      } else if Filter(s[1..], p) != [] {
        var f := Filter(s[1..], p);
        assert f[0] in f;
        if f[0] == s[0] {
          assert false;
        }
      }
    }
  }

  lemma {:induction false} FilterAppend<T(!new)>(a: seq<T>, b: seq<T>, p: T -> bool)
    ensures Filter(a + b, p) == Filter(a, p) + Filter(b, p)
  {
    if a == [] {
      assert a + b == b;
    } else {
      assert (a + b)[1..] == a[1..] + b;
      FilterAppend(a[1..], b, p);
    }
  }

  /** Filtering keeps every pairwise relation the input had: the result is a
      subsequence. */
  lemma {:induction false} FilterPairwise<T(!new)>(s: seq<T>, p: T -> bool, rel: (T, T) -> bool)
    requires Pairwise(s, rel)
    ensures Pairwise(Filter(s, p), rel)
  {
    if s != [] {
      assert Pairwise(s[1..], rel) by {
        forall i, j | 0 <= i < j < |s[1..]| ensures rel(s[1..][i], s[1..][j]) {
          assert s[1..][i] == s[i + 1] && s[1..][j] == s[j + 1];
        }
      }
      FilterPairwise(s[1..], p, rel);
      var rest := Filter(s[1..], p);
      if p(s[0]) {
        var r := [s[0]] + rest;
        forall i, j | 0 <= i < j < |r| ensures rel(r[i], r[j]) {
          if i == 0 {
            assert r[j] in s[1..];
            var k :| 0 <= k < |s[1..]| && s[1..][k] == r[j];
            assert s[k + 1] == r[j];
          } else {
            assert r[i] == rest[i - 1] && r[j] == rest[j - 1];
          }
        }
      }
    }
  }

  lemma DistinctFilter<T(!new)>(s: seq<T>, p: T -> bool)
    requires Distinct(s)
    ensures Distinct(Filter(s, p))
  {
    var neq := (a: T, b: T) => a != b;
    assert Pairwise(s, neq);
    FilterPairwise(s, p, neq);
    var r := Filter(s, p);
    assert forall i, j :: 0 <= i < j < |r| ==> neq(r[i], r[j]);
  }

  /** Filtering with a predicate no element satisfies leaves nothing. */
  lemma {:induction false} FilterNone<T(!new)>(s: seq<T>, p: T -> bool)
    requires forall i :: 0 <= i < |s| ==> !p(s[i])
    ensures Filter(s, p) == []
  {
    if s != [] {
      FilterNone(s[1..], p);
    }
  }

  /** Filtering with a predicate every element satisfies changes nothing. */
  lemma {:induction false} FilterAll<T(!new)>(s: seq<T>, p: T -> bool)
    requires forall i :: 0 <= i < |s| ==> p(s[i])
    ensures Filter(s, p) == s
  {
    if s != [] {
      FilterAll(s[1..], p);
    }
  }

  // ----- JavaScript string comparison -----

  /** `a < b` on JavaScript strings: lexicographic by character, a proper
      prefix sorting first. (Dafny's own `<` on sequences means proper prefix.) */
  predicate LexLess(a: string, b: string)
    ensures |a| < |b| && a == b[..|a|] ==> LexLess(a, b)
    ensures a != [] && b != [] && a[0] != b[0] ==> (LexLess(a, b) <==> a[0] < b[0])
    ensures LexLess(a, b) ==> b != []
    decreases |a|
  {
    assert |a| < |b| && a == b[..|a|] && a != [] ==> a[1..] == b[1..][..|a| - 1];
    |b| > 0 && (|a| == 0 || a[0] < b[0] || (a[0] == b[0] && LexLess(a[1..], b[1..])))
  }

  lemma {:induction false} LexIrreflexive(a: string)
    ensures !LexLess(a, a)
    decreases |a|
  {
    if |a| > 0 {
      LexIrreflexive(a[1..]);
    }
  }

  lemma {:induction false} LexTransitive(a: string, b: string, c: string)
    requires LexLess(a, b) && LexLess(b, c)
    ensures LexLess(a, c)
    decreases |a|
  {
    if |a| > 0 && a[0] == b[0] && b[0] == c[0] {
      LexTransitive(a[1..], b[1..], c[1..]);
    }
  }

  lemma {:induction false} LexTotal(a: string, b: string)
    requires a != b
    ensures LexLess(a, b) || LexLess(b, a)
    decreases |a|
  {
    if |a| > 0 && |b| > 0 && a[0] == b[0] {
      assert a == [a[0]] + a[1..] && b == [b[0]] + b[1..];
      LexTotal(a[1..], b[1..]);
    }
  }

  lemma {:induction false} LexAsymmetric(a: string, b: string)
    requires LexLess(a, b)
    ensures !LexLess(b, a)
  {
    if LexLess(b, a) {
      LexTransitive(a, b, a);
      LexIrreflexive(a);
    }
  }

  /** Comparing two strings that share the length of their first parts decides
      on the first parts, and on the rest only when those are equal. */
  lemma {:induction false} LexConcat(p1: string, q1: string, p2: string, q2: string)
    requires |p1| == |p2|
    ensures LexLess(p1 + q1, p2 + q2) <==> LexLess(p1, p2) || (p1 == p2 && LexLess(q1, q2))
    decreases |p1|
  {
    if |p1| > 0 {
      assert (p1 + q1)[0] == p1[0] && (p1 + q1)[1..] == p1[1..] + q1;
      assert (p2 + q2)[0] == p2[0] && (p2 + q2)[1..] == p2[1..] + q2;
      LexConcat(p1[1..], q1, p2[1..], q2);
      if p1[0] == p2[0] {
        assert p1 == p2 <==> p1[1..] == p2[1..] by {
          assert p1 == [p1[0]] + p1[1..] && p2 == [p2[0]] + p2[1..];
        }
      }
    } else {
      assert p1 == p2 == [];
      assert p1 + q1 == q1 && p2 + q2 == q2;
    }
  }

  function Min(a: int, b: int): int
  {
    if a <= b then a else b
  }

  // ----- decimal digits -----

  predicate IsDigit(c: char)
  {
    '0' <= c <= '9'
  }

  predicate AllDigits(s: string)
  {
    forall i :: 0 <= i < |s| ==> IsDigit(s[i])
  }

  function DigitChar(d: nat): (c: char)
    requires d < 10
    ensures IsDigit(c) && c as int - '0' as int == d
  {
    ('0' as int + d) as char
  }

  /** The number a string of decimal digits denotes (most significant first). */
  function Decimal(s: string): nat
    requires AllDigits(s)
  {
    if s == [] then 0
    else Decimal(s[..|s| - 1]) * 10 + (s[|s| - 1] as int - '0' as int)
  }

  function Pow10(w: nat): (p: nat)
    ensures p >= 1
  {
    if w == 0 then 1 else 10 * Pow10(w - 1)
  }

  // ----- numeric text, as SQLite reads it -----

  /** The white space SQLite skips around a numeral: space, and tab through
      carriage return. */
  predicate IsSpace(c: char)
  {
    c == ' ' || '\t' <= c <= '\r'
  }

  /** `s` without its leading and trailing white space. */
  function Trim(s: string): (t: string)
    ensures |t| <= |s|
    ensures t == [] || (!IsSpace(t[0]) && !IsSpace(t[|t| - 1]))
    decreases |s|
  {
    if s != [] && IsSpace(s[0]) then Trim(s[1..])
    else if s != [] && IsSpace(s[|s| - 1]) then Trim(s[..|s| - 1])
    else s
  }

  /** The length of the run of digits `s` starts with. */
  function DigitRun(s: string): (n: nat)
    ensures n <= |s| && AllDigits(s[..n]) && (n < |s| ==> !IsDigit(s[n]))
  {
    if s != [] && IsDigit(s[0]) then
      var n := 1 + DigitRun(s[1..]);
      assert forall i :: 1 <= i < n ==> s[..n][i] == s[1..][..n - 1][i - 1];
      n
    else 0
  }

  /** `10^e` for a signed exponent. */
  function Scale(e: int): real
  {
    if e >= 0 then Pow10(e) as real else 1.0 / Pow10(-e) as real
  }

  /** An exact decimal number, `mantissa * 10^exp`, as a numeral denotes
      it before it is rounded to a double. */
  datatype Numeral = Numeral(mantissa: int, exp: int)

  function NumeralValue(n: Numeral): real
  {
    n.mantissa as real * Scale(n.exp)
  }

  /** An exponent part: nothing (0), or `e`/`E`, an optional sign and at least
      one digit. */
  function Exponent(s: string): Option<int>
  {
    if s == [] then Some(0)
    else if s[0] != 'e' && s[0] != 'E' then None
    else
      var u := s[1..];
      var v := if u != [] && (u[0] == '+' || u[0] == '-') then u[1..] else u;
      if v != [] && AllDigits(v) then
        var d: int := Decimal(v);
        Some(if u[0] == '-' then -d else d)
      else None
  }

  /** The number a text denotes under SQLite's NUMERIC affinity: around
      optional white space, an optional sign before an unsigned numeral. Any
      other text stays text. */
  function NumericText(s: string): Option<Numeral>
  {
    var t := Trim(s);
    if t != [] && (t[0] == '+' || t[0] == '-') then
      match Unsigned(t[1..])
      case None => None
      case Some(x) => Some(if t[0] == '-' then Numeral(-x.mantissa, x.exp) else x)
    else Unsigned(t)
  }

  /** Digits with an optional `.` fraction (at least one digit in all), then
      an optional exponent. */
  function Unsigned(u: string): Option<Numeral>
  {
    var n := DigitRun(u);
    Mantissa(u[..n], u[n..])
  }

  function Mantissa(whole: string, rest: string): Option<Numeral>
    requires AllDigits(whole)
  {
    if rest != [] && rest[0] == '.' then
      var m := DigitRun(rest[1..]);
      var digits := whole + rest[1..][..m];
      assert forall i :: |whole| <= i < |digits| ==> digits[i] == rest[1..][..m][i - |whole|];
      Scaled(digits, m, rest[1 + m..])
    else Scaled(whole, 0, rest)
  }

  /** The digits, read with `m` of them after the point, times the exponent. */
  function Scaled(digits: string, m: nat, tail: string): Option<Numeral>
    requires AllDigits(digits)
  {
    if digits == [] then None
    else
      match Exponent(tail)
      case None => None
      case Some(e) => Some(Numeral(Decimal(digits), e - m))
  }

  /** The integer a numeral equals, if it is a whole number: the point is
      moved one digit at a time until the exponent is zero. */
  function Whole(n: Numeral): Option<int>
    decreases if n.exp >= 0 then n.exp else -n.exp
  {
    if n.exp > 0 then Whole(Numeral(n.mantissa * 10, n.exp - 1))
    else if n.exp == 0 then Some(n.mantissa)
    else if n.mantissa % 10 == 0 then Whole(Numeral(n.mantissa / 10, n.exp + 1))
    else None
  }

  /** The number a bound value compares as against an INTEGER column: a
      number as it is, a boolean as 1 or 0 (as the driver binds it), a text
      by its NUMERIC reading. */
  function Numeric(v: Value): Option<real>
  {
    match v
    case Number(x) => Some(x)
    case Text(s) => if NumericText(s).Some? then Some(NumeralValue(NumericText(s).value)) else None
    case Boolean(b) => Some(if b then 1.0 else 0.0)
  }

  /** The key a bound value selects in `WHERE id = ?` on an INTEGER PRIMARY
      KEY: the integer it compares equal to, if it has one. Anything else
      matches no row. */
  function IdOf(v: Value): Option<int>
  {
    match v
    case Number(x) => if x == x.Floor as real then Some(x.Floor) else None
    case Text(s) => if NumericText(s).Some? then Whole(NumericText(s).value) else None
    case Boolean(b) => Some(if b then 1 else 0)
  }

  /** A value selects a key exactly when the number it reads as is whole,
      and the key is that number. */
  lemma IdOfExact(v: Value)
    ensures IdOf(v).Some? <==> Numeric(v).Some? && Numeric(v).value == Numeric(v).value.Floor as real
    ensures IdOf(v).Some? ==> IdOf(v).value as real == Numeric(v).value
  {
    if v.Text? && NumericText(v.text).Some? {
      WholeExact(NumericText(v.text).value);
    }
  }

  /** `Whole` decides wholeness of the numeral's exact value. */
  lemma WholeExact(n: Numeral)
    ensures Whole(n).Some? <==> NumeralValue(n) == NumeralValue(n).Floor as real
    ensures Whole(n).Some? ==> Whole(n).value as real == NumeralValue(n)
    decreases if n.exp >= 0 then n.exp else -n.exp, 1
  {
    if n.exp > 0 {
      WholeExactUp(n);
    } else if n.exp < 0 && n.mantissa % 10 == 0 {
      WholeExactDown(n);
    } else if n.exp < 0 {
      FractionNotWhole(n.mantissa, -n.exp);
      WholeFraction(n.mantissa, -n.exp);
    } else {
      assert Whole(n) == Some(n.mantissa) && NumeralValue(n) == n.mantissa as real;
    }
  }

  lemma WholeExactUp(n: Numeral)
    requires n.exp > 0
    ensures Whole(n).Some? <==> NumeralValue(n) == NumeralValue(n).Floor as real
    ensures Whole(n).Some? ==> Whole(n).value as real == NumeralValue(n)
    decreases n.exp, 0
  {
    var next := Numeral(n.mantissa * 10, n.exp - 1);
    ShiftValue(n.mantissa, n.exp);
    WholeExact(next);
    assert Whole(n) == Whole(next) && NumeralValue(n) == NumeralValue(next);
  }

  lemma WholeExactDown(n: Numeral)
    requires n.exp < 0 && n.mantissa % 10 == 0
    ensures Whole(n).Some? <==> NumeralValue(n) == NumeralValue(n).Floor as real
    ensures Whole(n).Some? ==> Whole(n).value as real == NumeralValue(n)
    decreases -n.exp, 0
  {
    var m := n.mantissa;
    var next := Numeral(m / 10, n.exp + 1);
    ShiftValue(m / 10, n.exp + 1);
    assert Numeral(m / 10 * 10, n.exp) == n;
    WholeExact(next);
    assert Whole(n) == Whole(next) && NumeralValue(n) == NumeralValue(next);
  }

  /** Moving the point one place keeps the value. */
  lemma ShiftValue(m: int, e: int)
    ensures NumeralValue(Numeral(m * 10, e - 1)) == NumeralValue(Numeral(m, e))
  {
    if e >= 1 {
      ShiftUp(m, e);
    } else {
      ShiftDown(m, e);
    }
  }

  lemma ShiftUp(m: int, e: int)
    requires e >= 1
    ensures NumeralValue(Numeral(m * 10, e - 1)) == NumeralValue(Numeral(m, e))
  {
    var q := Pow10(e - 1) as real;
    assert Scale(e) == 10.0 * q && Scale(e - 1) == q;
    assert (m * 10) as real == 10.0 * m as real;
  }

  lemma ShiftDown(m: int, e: int)
    requires e <= 0
    ensures NumeralValue(Numeral(m * 10, e - 1)) == NumeralValue(Numeral(m, e))
  {
    var q := Pow10(-e) as real;
    assert Pow10(1 - e) as real == 10.0 * q;
    assert Scale(e) == 1.0 / q && Scale(e - 1) == 1.0 / (10.0 * q);
    assert (m * 10) as real == 10.0 * m as real;
  }

  /** Digits whose last is not zero, with the point `k >= 1` places from
      the right, are not a whole number. */
  lemma FractionNotWhole(m: int, k: nat)
    requires k >= 1 && m % 10 != 0
    ensures NumeralValue(Numeral(m, -(k as int))) != NumeralValue(Numeral(m, -(k as int))).Floor as real
  {
    var p := Pow10(k);
    var x := NumeralValue(Numeral(m, -(k as int)));
    assert x == m as real / p as real;
    if x == x.Floor as real {
      Multiple(m, x.Floor, k);
      assert false;
    }
  }

  /** A whole quotient by `10^k`, `k >= 1`, makes the dividend a multiple
      of ten. */
  lemma Multiple(m: int, z: int, k: nat)
    requires k >= 1 && m as real / Pow10(k) as real == z as real
    ensures m % 10 == 0
  {
    var p := Pow10(k);
    assert m as real == z as real * p as real;
    ProductExact(m, z, p);
    assert p == 10 * Pow10(k - 1);
    assert z * p == 10 * (z * Pow10(k - 1));
  }

  lemma ProductExact(m: int, z: int, p: int)
    requires m as real == z as real * p as real
    ensures m == z * p
  {
    assert (z * p) as real == z as real * p as real;
  }

  /** A plain string of decimal digits reads as the number it spells. */
  lemma NumericDigits(s: string)
    requires s != [] && AllDigits(s)
    ensures NumericText(s) == Some(Numeral(Decimal(s), 0))
  {
    TrimPlain(s);
    UnsignedDigits(s);
  }

  lemma TrimPlain(s: string)
    requires s != [] && !IsSpace(s[0]) && !IsSpace(s[|s| - 1])
    ensures Trim(s) == s
  {
  }

  lemma UnsignedDigits(s: string)
    requires s != [] && AllDigits(s)
    ensures Unsigned(s) == Some(Numeral(Decimal(s), 0))
  {
    DigitRunAll(s);
    assert s[..|s|] == s && s[|s|..] == [];
    assert Mantissa(s, []) == Scaled(s, 0, []);
  }

  /** A text that reads as a numeral selects the numeral's whole value. */
  lemma IdOfText(s: string, n: Numeral)
    requires NumericText(s) == Some(n)
    ensures IdOf(Text(s)) == Whole(n)
  {
  }

  lemma WholeInteger(d: int)
    ensures Whole(Numeral(d, 0)) == Some(d)
  {
  }

  /** A plain string of decimal digits selects the number it spells. */
  lemma IdOfDigits(s: string)
    requires s != [] && AllDigits(s)
    ensures IdOf(Text(s)) == Some(Decimal(s))
  {
    NumericDigits(s);
    WholeInteger(Decimal(s));
  }

  lemma {:induction false} DigitRunAll(s: string)
    requires AllDigits(s)
    ensures DigitRun(s) == |s|
  {
    if s != [] {
      DigitRunAll(s[1..]);
    }
  }

  /** Digits followed by anything but a digit form a run of exactly their
      own length. */
  lemma {:induction false} DigitRunStops(w: string, rest: string)
    requires AllDigits(w) && (rest == [] || !IsDigit(rest[0]))
    ensures DigitRun(w + rest) == |w|
  {
    if w == [] {
      assert w + rest == rest;
    } else {
      assert (w + rest)[1..] == w[1..] + rest;
      DigitRunStops(w[1..], rest);
    }
  }

  /** Text with no white space at its ends and no sign in front reads as
      its unsigned numeral. */
  lemma NumericUnsigned(s: string)
    requires s != [] && IsDigit(s[0]) && !IsSpace(s[|s| - 1])
    ensures NumericText(s) == Unsigned(s)
  {
    TrimPlain(s);
  }

  /** The digits `w` in front of `rest` are the numeral's whole part. */
  lemma UnsignedSplit(w: string, rest: string)
    requires AllDigits(w) && (rest == [] || !IsDigit(rest[0]))
    ensures Unsigned(w + rest) == Mantissa(w, rest)
  {
    DigitRunStops(w, rest);
    assert (w + rest)[..|w|] == w && (w + rest)[|w|..] == rest;
  }

  /** The numeral `w.f` reads as the digits `wf` with `|f|` of them after
      the point. */
  lemma NumericPoint(w: string, f: string)
    requires w != [] && AllDigits(w) && AllDigits(f)
    ensures AllDigits(w + f)
    ensures NumericText(w + ("." + f)) == Some(Numeral(Decimal(w + f), -|f|))
  {
    var rest := "." + f;
    var s := w + rest;
    UnsignedSplit(w, rest);
    MantissaPoint(w, f);
    assert s[0] == w[0] && s[|s| - 1] == rest[|f|];
    NumericUnsigned(s);
  }

  lemma MantissaPoint(w: string, f: string)
    requires w != [] && AllDigits(w) && AllDigits(f)
    ensures AllDigits(w + f)
    ensures Mantissa(w, "." + f) == Some(Numeral(Decimal(w + f), -|f|))
  {
    var rest := "." + f;
    assert rest[1..] == f;
    DigitRunAll(f);
    assert f[..|f|] == f && rest[1 + |f|..] == [];
    assert AllDigits(w + f);
    assert Mantissa(w, rest) == Scaled(w + f, |f|, []);
  }

  /** A fraction of zeros leaves a whole number: "5.0" and "5." select
      id 5. */
  lemma IdOfZeroFraction(w: string, z: string)
    requires w != [] && AllDigits(w)
    requires forall i :: 0 <= i < |z| ==> z[i] == '0'
    ensures IdOf(Text(w + ("." + z))) == Some(Decimal(w))
  {
    NumericPoint(w, z);
    IdOfText(w + ("." + z), Numeral(Decimal(w + z), -|z|));
    WholeZeros(w, z);
  }

  /** Trailing zeros after the point drop out one at a time. */
  lemma {:induction false} WholeZeros(w: string, z: string)
    requires AllDigits(w) && forall i :: 0 <= i < |z| ==> z[i] == '0'
    ensures AllDigits(w + z) && Whole(Numeral(Decimal(w + z), -|z|)) == Some(Decimal(w))
  {
    if z == [] {
      assert w + z == w;
    } else {
      var y := z[..|z| - 1];
      assert (w + z)[..|w + z| - 1] == w + y;
      WholeZeros(w, y);
      assert Decimal(w + z) == Decimal(w + y) * 10;
      WholeDrop(Decimal(w + y), |z|);
    }
  }

  /** A last zero after the point drops out. */
  lemma WholeDrop(m: int, k: nat)
    requires k >= 1
    ensures Whole(Numeral(m * 10, -(k as int))) == Whole(Numeral(m, 1 - k))
  {
    assert (m * 10) % 10 == 0 && (m * 10) / 10 == m;
  }

  /** A fraction that does not end in a zero is a number but not an id:
      "5.5" selects nothing. */
  lemma IdOfFraction(w: string, f: string)
    requires w != [] && AllDigits(w) && f != [] && AllDigits(f) && f[|f| - 1] != '0'
    ensures IdOf(Text(w + ("." + f))).None?
  {
    NumericPoint(w, f);
    IdOfText(w + ("." + f), Numeral(Decimal(w + f), -|f|));
    var digits := w + f;
    assert digits[|digits| - 1] == f[|f| - 1];
    DecimalLastDigit(digits);
    WholeFraction(Decimal(digits), |f|);
  }

  lemma DecimalLastDigit(s: string)
    requires s != [] && AllDigits(s)
    ensures Decimal(s) % 10 == s[|s| - 1] as int - '0' as int
  {
    assert Decimal(s) == Decimal(s[..|s| - 1]) * 10 + (s[|s| - 1] as int - '0' as int);
  }

  lemma WholeFraction(m: int, k: nat)
    requires k >= 1 && m % 10 != 0
    ensures Whole(Numeral(m, -(k as int))).None?
  {
  }

  /** A plus sign in front of the digits: "+5" selects 5. */
  lemma IdOfSigned(w: string)
    requires w != [] && AllDigits(w)
    ensures IdOf(Text("+" + w)) == Some(Decimal(w))
  {
    UnsignedDigits(w);
    TrimPlain("+" + w);
    assert ("+" + w)[1..] == w;
    WholeInteger(Decimal(w));
  }

  /** Trimming strips exactly the white space around a word. */
  lemma {:induction false} TrimAround(pre: string, s: string, post: string)
    requires forall i :: 0 <= i < |pre| ==> IsSpace(pre[i])
    requires forall i :: 0 <= i < |post| ==> IsSpace(post[i])
    requires s != [] && !IsSpace(s[0]) && !IsSpace(s[|s| - 1])
    ensures Trim(pre + s + post) == s
    decreases |pre| + |post|
  {
    var x := pre + s + post;
    if pre != [] {
      assert x[0] == pre[0];
      assert (pre + s)[1..] == pre[1..] + s;
      assert x[1..] == (pre + s)[1..] + post;
      TrimAround(pre[1..], s, post);
    } else if post != [] {
      assert x == s + post;
      assert x[0] == s[0];
      assert x[|x| - 1] == post[|post| - 1];
      assert x[..|x| - 1] == pre + s + post[..|post| - 1];
      TrimAround(pre, s, post[..|post| - 1]);
    } else {
      assert x == s;
      TrimPlain(s);
    }
  }

  /** White space around the digits is dropped: " 5 " selects 5. */
  lemma IdOfPadded(pre: string, w: string, post: string)
    requires forall i :: 0 <= i < |pre| ==> IsSpace(pre[i])
    requires forall i :: 0 <= i < |post| ==> IsSpace(post[i])
    requires w != [] && AllDigits(w)
    ensures IdOf(Text(pre + w + post)) == Some(Decimal(w))
  {
    TrimAround(pre, w, post);
    UnsignedDigits(w);
    WholeInteger(Decimal(w));
  }

  /** An exponent scales the digits: "5e2" selects 500. */
  lemma IdOfExponent(w: string, x: string)
    requires w != [] && AllDigits(w) && x != [] && AllDigits(x)
    ensures IdOf(Text(w + ("e" + x))) == Some(Decimal(w) * Pow10(Decimal(x)))
  {
    var rest := "e" + x;
    var s := w + rest;
    UnsignedSplit(w, rest);
    assert rest[1..] == x;
    assert Exponent(rest) == Some(Decimal(x) as int);
    assert s[0] == w[0] && s[|s| - 1] == x[|x| - 1];
    NumericUnsigned(s);
    WholeShift(Decimal(w), Decimal(x));
  }

  /** A non-negative exponent appends that many zeros. */
  lemma {:induction false} WholeShift(m: int, e: nat)
    ensures Whole(Numeral(m, e)) == Some(m * Pow10(e))
    decreases e
  {
    if e > 0 {
      WholeShift(m * 10, e - 1);
      assert m * 10 * Pow10(e - 1) == m * (10 * Pow10(e - 1));
    }
  }

  /** An exponent marker without digits leaves the text a word: "5e"
      selects nothing. */
  lemma IdOfDanglingExponent(w: string)
    requires w != [] && AllDigits(w)
    ensures IdOf(Text(w + "e")).None?
  {
    var s := w + "e";
    UnsignedSplit(w, "e");
    assert "e"[1..] == [];
    assert s[0] == w[0] && s[|s| - 1] == 'e';
    NumericUnsigned(s);
  }

  /** The empty text, and any word that starts with a letter, select
      nothing. */
  lemma IdOfWord(s: string)
    requires s != [] && ('a' <= s[0] <= 'z' || 'A' <= s[0] <= 'Z') && !IsSpace(s[|s| - 1])
    ensures IdOf(Text([])).None?
    ensures IdOf(Text(s)).None?
  {
    TrimPlain(s);
    assert DigitRun(s) == 0;
    assert s[..0] == [] && s[0..] == s;
  }
}
