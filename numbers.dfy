/**
 * Numbers as the scripts read and write them: Python's `int(...)` on a token,
 * `int(float(...))` on a salary text after removing "$" and ",", `str(n)` and
 * the `"{:,}"` thousands-separated rendering of a salary in a table row.
 */
module Numbers {
  import opened Wrappers
  import opened Text

  function Pow10(k: nat): nat
  {
    if k == 0 then 1 else 10 * Pow10(k - 1)
  }

  function DigitValue(c: char): nat
    requires IsAsciiDigit(c)
  {
    c as int - '0' as int
  }

  /** The value of an ASCII digit string read in base ten (the empty string reads as 0). */
  function Val(ds: string): nat
    requires AllDigits(ds)
    decreases |ds|
  {
    if ds == [] then 0 else 10 * Val(ds[..|ds| - 1]) + DigitValue(ds[|ds| - 1])
  }

  function DigitChar(d: nat): (c: char)
    requires d < 10
    ensures IsAsciiDigit(c) && DigitValue(c) == d
  {
    ('0' as int + d) as char
  }

  /** `str(n)` for a non-negative `n`. */
  function Digits(n: nat): (r: string)
    ensures |r| > 0 && AllDigits(r)
  {
    if n < 10 then [DigitChar(n)] else Digits(n / 10) + [DigitChar(n % 10)]
  }

  /** `str(n)` starts with '0' only for zero. */
  lemma {:induction false} DigitsLeading(n: nat)
    ensures Digits(n)[0] == '0' <==> n == 0
    decreases n
  {
    if n >= 10 {
      DigitsLeading(n / 10);
      assert Digits(n)[0] == Digits(n / 10)[0];
    }
  }

  /** Below a thousand, `str(n)` has at most three digits. */
  lemma {:induction false} DigitsShort(n: nat)
    requires n < 1000
    ensures |Digits(n)| <= 3
  {
    if n >= 10 {
      assert |Digits(n)| == |Digits(n / 10)| + 1;
      if n / 10 >= 10 {
        assert |Digits(n / 10)| == |Digits(n / 100)| + 1;
      }
    }
  }

  /** `str(n)`. */
  function Decimal(n: int): string
  {
    if n < 0 then "-" + Digits(-n) else Digits(n)
  }

  lemma {:induction false} ValDigits(n: nat)
    ensures Val(Digits(n)) == n
  {
    var d := Digits(n);
    if n >= 10 {
      ValDigits(n / 10);
      assert d[..|d| - 1] == Digits(n / 10);
    }
  }

  /** Reading two digit strings written one after the other. */
  lemma {:induction false} ValAppend(a: string, b: string)
    requires AllDigits(a) && AllDigits(b)
    ensures AllDigits(a + b)
    ensures Val(a + b) == Val(a) * Pow10(|b|) + Val(b)
    decreases |b|
  {
    if b == [] {
      assert a + b == a;
    } else {
      var b' := b[..|b| - 1];
      var d := DigitValue(b[|b| - 1]);
      assert (a + b)[..|a + b| - 1] == a + b';
      assert (a + b)[|a + b| - 1] == b[|b| - 1];
      ValAppend(a, b');
      var x, p, v := Val(a), Pow10(|b'|), Val(b');
      assert Val(a + b) == 10 * (x * p + v) + d;
      assert Val(b) == 10 * v + d;
      assert Pow10(|b|) == 10 * p;
      Distribute(x, p, v, d);
    }
  }

  /** The arithmetic step of `ValAppend`. */
  lemma {:induction false} Distribute(x: nat, p: nat, v: nat, d: nat)
    ensures 10 * (x * p + v) + d == x * (10 * p) + (10 * v + d)
  {
    MulShift(x, p);
  }

  lemma {:induction false} MulShift(x: nat, p: nat)
    ensures 10 * (x * p) == x * (10 * p)
  {
  }

  // ---------------------------------------------------------------- int(...)

  /** Python's `int(s)` on a string: surrounding white space, an optional sign, then ASCII digits. */
  function ParseInt(s: string): Option<int>
  {
    var t := Strip(s);
    if |t| > 0 && (t[0] == '-' || t[0] == '+') then
      if |t| > 1 && AllDigits(t[1..]) then Some(if t[0] == '-' then -(Val(t[1..]) as int) else Val(t[1..])) else None
    else if |t| > 0 && AllDigits(t) then Some(Val(t))
    else None
  }

  /** `int(str(n)) == n`. */
  lemma {:induction false} ParseIntDecimal(n: int)
    ensures ParseInt(Decimal(n)) == Some(n)
  {
    var s := Decimal(n);
    var d := Digits(if n < 0 then -n else n);
    ValDigits(if n < 0 then -n else n);
    StripNoOp(s);
    if n < 0 {
      assert s[1..] == d;
    }
  }

  /** A character that is neither a space nor a sign nor a digit makes `int(...)` fail. */
  lemma {:induction false} ParseIntRejects(s: string, i: int)
    requires 0 <= i < |s|
    requires !IsSpace(s[i]) && !IsAsciiDigit(s[i]) && s[i] != '-' && s[i] != '+'
    ensures ParseInt(s) == None
  {
    KeptByStrip(s, i);
  }

  /** `strip()` keeps every character that is not white space. */
  lemma {:induction false} KeptByStrip(s: string, i: int)
    requires 0 <= i < |s| && !IsSpace(s[i])
    ensures s[i] in Strip(s)
  {
    KeptByStripLeft(s, i);
    var j :| 0 <= j < |StripLeft(s)| && StripLeft(s)[j] == s[i];
    KeptByStripRight(StripLeft(s), j);
  }

  lemma {:induction false} KeptByStripLeft(s: string, i: int)
    requires 0 <= i < |s| && !IsSpace(s[i])
    ensures s[i] in StripLeft(s)
    decreases |s|
  {
    if IsSpace(s[0]) {
      assert s[1..][i - 1] == s[i];
      KeptByStripLeft(s[1..], i - 1);
    } else {
      assert StripLeft(s)[i] == s[i];
    }
  }

  lemma {:induction false} KeptByStripRight(s: string, i: int)
    requires 0 <= i < |s| && !IsSpace(s[i])
    ensures s[i] in StripRight(s)
    decreases |s|
  {
    if IsSpace(s[|s| - 1]) {
      KeptByStripRight(s[..|s| - 1], i);
    } else {
      assert StripRight(s)[i] == s[i];
    }
  }

  // ---------------------------------------------------------------- int(float(...))

  /**
   * `int(float(s))`: an optional sign, digits, optionally a '.' and more digits
   * (at least one digit in all), surrounded by white space; the fraction is
   * dropped, so the value is truncated toward zero.
   */
  function TruncatedDecimal(s: string): Option<int>
  {
    SignedIntegerPart(Strip(s))
  }

  /** The integer part of a float literal without surrounding white space. */
  function SignedIntegerPart(t: string): Option<int>
  {
    var negative := |t| > 0 && t[0] == '-';
    var body := if |t| > 0 && (t[0] == '-' || t[0] == '+') then t[1..] else t;
    match IntegerPart(body)
    case Some(v) => Some(if negative then -(v as int) else v as int)
    case None => None
  }

  /** The unsigned part of a float literal: digits, optionally '.' and digits, at least one digit in all. */
  function IntegerPart(body: string): Option<nat>
  {
    var parts := Split(body, '.');
    if |parts| <= 2 && AllDigits(parts[0]) && (|parts| == 1 || AllDigits(parts[1]))
       && (|parts[0]| > 0 || (|parts| == 2 && |parts[1]| > 0))
    then Some(Val(parts[0]))
    else None
  }

  /** The salary cleaning of every parser: remove each "$" and each ",", then `int(float(...))`. */
  function CleanSalary(text: string): Option<int>
  {
    TruncatedDecimal(RemoveChar(RemoveChar(text, '$'), ','))
  }

  // ---------------------------------------------------------------- "{:,}".format(n)

  function Pad3(m: nat): (r: string)
    requires m < 1000
    ensures |r| == 3 && AllDigits(r)
  {
    [DigitChar(m / 100), DigitChar(m / 10 % 10), DigitChar(m % 10)]
  }

  /**
   * `"{:,}".format(n)` for a non-negative `n`: digits in groups of three
   * separated by ','. Counting from the end, every fourth character is the
   * separator, and there is no leading zero.
   */
  function Grouped(n: nat): (r: string)
    ensures |r| > 0 && IsAsciiDigit(r[0]) && IsAsciiDigit(r[|r| - 1])
    ensures forall i :: 0 <= i < |r| ==> IsAsciiDigit(r[i]) || r[i] == ','
    ensures forall i :: 0 <= i < |r| ==> (r[i] == ',' <==> (|r| - i) % 4 == 0)
    ensures r[0] == '0' ==> r == "0"
  {
    if n < 1000 then
      var d := Digits(n);
      DigitsLeading(n);
      DigitsShort(n);
      assert n == 0 ==> d == "0";
      d
    else
      var g := Grouped(n / 1000);
      GroupedStep(g, Pad3(n % 1000));
      g + "," + Pad3(n % 1000)
  }

  /** One more group of three digits after a separator keeps every fourth character, from the end, a separator. */
  lemma {:induction false} GroupedStep(g: string, pad: string)
    requires |pad| == 3 && AllDigits(pad)
    requires forall i :: 0 <= i < |g| ==> (g[i] == ',' <==> (|g| - i) % 4 == 0)
    ensures var r := g + "," + pad;
      forall i :: 0 <= i < |r| ==> (r[i] == ',' <==> (|r| - i) % 4 == 0)
  {
    var r := g + "," + pad;
    forall i | 0 <= i < |r| ensures r[i] == ',' <==> (|r| - i) % 4 == 0 {
      if i < |g| {
        assert r[i] == g[i];
        assert |r| - i == (|g| - i) + 4;
      } else if i > |g| {
        assert r[i] == pad[i - |g| - 1];
        assert IsAsciiDigit(pad[i - |g| - 1]);
      }
    }
  }

  /** `"{:,}".format(n)`. */
  function Thousands(n: int): string
  {
    if n < 0 then "-" + Grouped(-n) else Grouped(n)
  }

  lemma {:induction false} ValPad3(m: nat)
    requires m < 1000
    ensures Val(Pad3(m)) == m
  {
    var p := Pad3(m);
    var a, b, c := m / 100, m / 10 % 10, m % 10;
    assert p[..2][..1] == [p[0]];
    assert p[..2] == [p[0], p[1]];
    assert Val([p[0]]) == a;
    assert Val(p[..2]) == 10 * a + b;
    assert Val(p) == 10 * (10 * a + b) + c;
    var q := m / 10;
    assert q / 10 == a;
    assert q % 10 == b;
    assert q == 10 * a + b;
    assert m == 10 * q + c;
  }

  /** Removing the separators from a grouped number gives back its digits. */
  lemma {:induction false} Ungrouped(n: nat)
    ensures |RemoveChar(Grouped(n), ',')| > 0
    ensures AllDigits(RemoveChar(Grouped(n), ','))
    ensures Val(RemoveChar(Grouped(n), ',')) == n
  {
    if n < 1000 {
      RemoveCharAbsent(Digits(n), ',');
      ValDigits(n);
    } else {
      var q, m := n / 1000, n % 1000;
      Ungrouped(q);
      var u := RemoveChar(Grouped(q), ',');
      var pad := Pad3(m);
      UngroupedStep(Grouped(q), pad);
      assert RemoveChar(Grouped(n), ',') == u + pad;
      ValAppend(u, pad);
      ValPad3(m);
      assert Pow10(3) == 1000;
      assert Val(u + pad) == q * 1000 + m;
    }
  }

  lemma {:induction false} UngroupedStep(g: string, pad: string)
    requires AllDigits(pad)
    ensures RemoveChar(g + "," + pad, ',') == RemoveChar(g, ',') + pad
  {
    DigitsLack(pad, ',');
    RemoveCharAbsent(pad, ',');
    RemoveCharAppend(g + [','], pad, ',');
    RemoveCharAppend(g, [','], ',');
    RemoveCharSingle(',', ',');
  }

  lemma {:induction false} RemoveCharSingle(x: char, c: char)
    ensures RemoveChar([x], c) == if x == c then [] else [x]
  {
    assert [x][1..] == [];
  }

  /** The text a row shows for a salary, "$" then the grouped amount, without the "$" and the ','. */
  lemma {:induction false} ShownSalaryDigits(n: int)
    ensures RemoveChar(RemoveChar("$" + Thousands(n), '$'), ',')
         == (if n < 0 then "-" else "") + RemoveChar(Grouped(if n < 0 then -n else n), ',')
  {
    var g := Grouped(if n < 0 then -n else n);
    assert '$' !in g by {
      forall i | 0 <= i < |g| ensures g[i] != '$' {
        assert IsAsciiDigit(g[i]) || g[i] == ',';
      }
    }
    var sign := if n < 0 then "-" else "";
    assert Thousands(n) == sign + g;
    ShownText(sign, g);
  }

  /** Removing "$" and then ',' from "$", a sign and a text without "$". */
  lemma {:induction false} ShownText(sign: string, g: string)
    requires sign == "" || sign == "-"
    requires '$' !in g
    ensures RemoveChar(RemoveChar("$" + (sign + g), '$'), ',') == sign + RemoveChar(g, ',')
  {
    var x := sign + g;
    RemoveCharAppend("$", x, '$');
    RemoveCharSingle('$', '$');
    assert '$' !in x;
    RemoveCharAbsent(x, '$');
    assert RemoveChar("$" + x, '$') == x;
    RemoveCharAppend(sign, g, ',');
    assert ',' !in sign;
    RemoveCharAbsent(sign, ',');
  }

  lemma {:induction false} DigitsLack(s: string, c: char)
    requires AllDigits(s) && !IsAsciiDigit(c)
    ensures c !in s
  {
    forall i | 0 <= i < |s| ensures s[i] != c {
      assert IsAsciiDigit(s[i]);
    }
  }

  /** `int(float(...))` of a signed digit string is its value. */
  lemma {:induction false} TruncatedSigned(negative: bool, u: string)
    requires |u| > 0 && AllDigits(u)
    ensures TruncatedDecimal((if negative then "-" else "") + u) == Some(if negative then -(Val(u) as int) else Val(u))
  {
    assert IntegerPart(u) == Some(Val(u)) by {
      DigitsLack(u, '.');
      SplitWithoutSeparator(u, '.');
    }
    TruncatedOf((if negative then "-" else "") + u, negative, u);
  }

  /** `int(float(...))` of a signed digit string with a fraction drops the fraction. */
  lemma {:induction false} TruncatedSignedFraction(negative: bool, u: string, fraction: string)
    requires |u| > 0 && AllDigits(u) && AllDigits(fraction)
    ensures TruncatedDecimal((if negative then "-" else "") + u + "." + fraction)
         == Some(if negative then -(Val(u) as int) else Val(u))
  {
    var body := u + ['.'] + fraction;
    IntegerPartFraction(u, fraction);
    assert (if negative then "-" else "") + u + "." + fraction == (if negative then "-" else "") + body;
    TruncatedOf((if negative then "-" else "") + body, negative, body);
  }

  lemma {:induction false} IntegerPartFraction(u: string, fraction: string)
    requires |u| > 0 && AllDigits(u) && AllDigits(fraction)
    ensures IntegerPart(u + ['.'] + fraction) == Some(Val(u))
  {
    DigitsLack(u, '.');
    DigitsLack(fraction, '.');
    SplitAround(u, fraction, '.');
    SplitWithoutSeparator(u, '.');
    SplitWithoutSeparator(fraction, '.');
  }

  /** `int(float(t))` for a sign followed by a body that starts with a digit and ends with a digit or '.'. */
  lemma {:induction false} TruncatedOf(t: string, negative: bool, body: string)
    requires |body| > 0 && IsAsciiDigit(body[0]) && (IsAsciiDigit(body[|body| - 1]) || body[|body| - 1] == '.')
    requires t == (if negative then "-" else "") + body
    ensures TruncatedDecimal(t) == match IntegerPart(body)
                                    case Some(v) => Some(if negative then -(v as int) else v as int)
                                    case None => None
  {
    assert t[|t| - 1] == body[|body| - 1];
    StripNoOp(t);
    assert TruncatedDecimal(t) == SignedIntegerPart(t);
    if negative {
      assert t[1..] == body;
    } else {
      assert t == body;
    }
  }

  /** Cleaning the salary a table row shows gives back the salary. */
  lemma {:induction false} SalaryRoundTrip(n: int)
    ensures CleanSalary("$" + Thousands(n)) == Some(n)
  {
    var a := if n < 0 then -n else n;
    ShownSalaryDigits(n);
    Ungrouped(a);
    TruncatedSigned(n < 0, RemoveChar(Grouped(a), ','));
  }

  /** A fraction after the amount is dropped: the integer part is kept, truncated toward zero. */
  lemma {:induction false} SalaryTruncates(n: int, fraction: string)
    requires AllDigits(fraction)
    ensures CleanSalary("$" + Thousands(n) + "." + fraction) == Some(n)
  {
    var a := if n < 0 then -n else n;
    var u := RemoveChar(Grouped(a), ',');
    ShownFractionDigits(n, fraction);
    Ungrouped(a);
    TruncatedSignedFraction(n < 0, u, fraction);
  }

  /** Removing "$" and "," from a shown salary followed by a fraction leaves the sign, the digits and the fraction. */
  lemma {:induction false} ShownFractionDigits(n: int, fraction: string)
    requires AllDigits(fraction)
    ensures RemoveChar(RemoveChar("$" + Thousands(n) + "." + fraction, '$'), ',')
         == (if n < 0 then "-" else "") + RemoveChar(Grouped(if n < 0 then -n else n), ',') + "." + fraction
  {
    var shown := "$" + Thousands(n);
    var tail := "." + fraction;
    assert "$" + Thousands(n) + "." + fraction == shown + tail;
    TailKept(fraction);
    RemoveCharAppend(shown, tail, '$');
    RemoveCharAppend(RemoveChar(shown, '$'), tail, ',');
    ShownSalaryDigits(n);
  }

  lemma {:induction false} TailKept(fraction: string)
    requires AllDigits(fraction)
    ensures RemoveChar("." + fraction, '$') == "." + fraction
    ensures RemoveChar("." + fraction, ',') == "." + fraction
  {
    DigitsLack(fraction, '$');
    DigitsLack(fraction, ',');
    assert "." + fraction == ['.'] + fraction;
    RemoveCharAppend(['.'], fraction, '$');
    RemoveCharAppend(['.'], fraction, ',');
    RemoveCharSingle('.', '$');
    RemoveCharSingle('.', ',');
    RemoveCharAbsent(fraction, '$');
    RemoveCharAbsent(fraction, ',');
  }

  /** Cleaning `str(n)` gives `n`: salary cleaning is idempotent on its own output. */
  lemma {:induction false} CleanSalaryDecimal(n: int)
    ensures CleanSalary(Decimal(n)) == Some(n)
  {
    var a := if n < 0 then -n else n;
    var d := Digits(a);
    var sign := if n < 0 then "-" else "";
    assert Decimal(n) == sign + d;
    ValDigits(a);
    DigitsLack(d, '$');
    DigitsLack(d, ',');
    RemoveCharAbsent(d, '$');
    RemoveCharAbsent(d, ',');
    RemoveCharAppend(sign, d, '$');
    RemoveCharAppend(sign, d, ',');
    if n < 0 {
      RemoveCharSingle('-', '$');
      RemoveCharSingle('-', ',');
    }
    assert RemoveChar(RemoveChar(Decimal(n), '$'), ',') == sign + d;
    TruncatedSigned(n < 0, d);
  }
}
