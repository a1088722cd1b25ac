/** Numbers and white space in text. */
module Text {
  function DigitChar(d: int): char
    requires 0 <= d < 10
  {
    ('0' as int + d) as char
  }

  function Decimal(n: nat): string {
    if n < 10 then [DigitChar(n)] else Decimal(n / 10) + [DigitChar(n % 10)]
  }

  predicate Digits(s: string) {
    forall i | 0 <= i < |s| :: '0' <= s[i] <= '9'
  }

  /** What a run of digits stands for. */
  function ValueOf(s: string): nat
    requires Digits(s)
  {
    if s == "" then 0
    else ValueOf(s[..|s| - 1]) * 10 + (s[|s| - 1] as int - '0' as int)
  }

  function Power10(k: nat): (p: nat)
    ensures p > 0
  {
    if k == 0 then 1 else 10 * Power10(k - 1)
  }

  lemma {:induction false} DecimalIs(n: nat)
    ensures Digits(Decimal(n)) && Decimal(n) != "" && ValueOf(Decimal(n)) == n
  {
    if n >= 10 { DecimalIs(n / 10); }
  }

  lemma {:induction false} DecimalFits(n: nat, k: nat)
    requires n < Power10(k) && k > 0
    ensures |Decimal(n)| <= k
  {
    if n >= 10 { DecimalFits(n / 10, k - 1); }
  }

  /** Zeros in front, up to a width: `%0*d`. */
  function ZeroPadded(n: nat, width: nat): string {
    Zeros(width - |Decimal(n)|) + Decimal(n)
  }

  function Zeros(k: int): string {
    if k <= 0 then "" else "0" + Zeros(k - 1)
  }

  lemma {:induction false} ZerosInFront(k: int, s: string)
    requires Digits(s)
    ensures Digits(Zeros(k) + s) && ValueOf(Zeros(k) + s) == ValueOf(s)
    ensures |Zeros(k)| == if k <= 0 then 0 else k
  {
    if k <= 0 {
      assert Zeros(k) + s == s;
    } else {
      ZerosInFront(k - 1, s);
      ZeroInFront(Zeros(k - 1) + s);
      assert Zeros(k) + s == "0" + (Zeros(k - 1) + s);
    }
  }

  lemma {:induction false} ZeroInFront(s: string)
    requires Digits(s)
    ensures Digits("0" + s) && ValueOf("0" + s) == ValueOf(s)
  {
    if s != "" {
      assert ("0" + s)[..|s|] == "0" + s[..|s| - 1];
      ZeroInFront(s[..|s| - 1]);
    }
  }

  /** A number below the width's power of ten gets exactly that many digits, and they tell it. */
  lemma ZeroPaddedIs(n: nat, width: nat)
    requires n < Power10(width) && width > 0
    ensures |ZeroPadded(n, width)| == width && Digits(ZeroPadded(n, width)) && ValueOf(ZeroPadded(n, width)) == n
  {
    DecimalIs(n);
    DecimalFits(n, width);
    ZerosInFront(width - |Decimal(n)|, Decimal(n));
    hide Decimal, Digits, ValueOf, Zeros;
  }

  /** Of one length, digits tell their number. */
  lemma {:induction false} DigitsTell(a: string, b: string)
    requires Digits(a) && Digits(b) && |a| == |b| && ValueOf(a) == ValueOf(b)
    ensures a == b
  {
    if a != "" {
      var n := |a| - 1;
      assert ValueOf(a[..n]) == ValueOf(a) / 10 && ValueOf(b[..n]) == ValueOf(b) / 10;
      DigitsTell(a[..n], b[..n]);
      assert a == a[..n] + [a[n]] && b == b[..n] + [b[n]];
    }
  }

  function TrimStart(s: string, blank: char -> bool): string {
    if s != "" && blank(s[0]) then TrimStart(s[1..], blank) else s
  }

  function TrimEnd(s: string, blank: char -> bool): string {
    if s != "" && blank(s[|s| - 1]) then TrimEnd(s[..|s| - 1], blank) else s
  }

  function Trim(s: string, blank: char -> bool): string {
    TrimEnd(TrimStart(s, blank), blank)
  }

  /** Text after the last separator, when neither part behind one has it. */
  lemma LastCut(c: char, x: string, a: string, y: string, b: string)
    requires c !in a && c !in b && x + [c] + a == y + [c] + b
    ensures a == b && x == y
  {
    var l, r := x + [c] + a, y + [c] + b;
    assert l[|x|] == c && r[|y|] == c;
    assert forall i | |x| < i < |l| :: l[i] == a[i - |x| - 1] && l[i] != c;
    assert forall i | |y| < i < |r| :: r[i] == b[i - |y| - 1] && r[i] != c;
    assert |x| == |y|;
    assert x == l[..|x|] && y == r[..|y|];
    assert a == l[|x| + 1..] && b == r[|y| + 1..];
  }

  ghost predicate AllBlank(s: string, blank: char -> bool) {
    forall i | 0 <= i < |s| :: blank(s[i])
  }

  /** What is blank on either side comes off, and nothing else does. */
  lemma TrimTakesOff(left: string, s: string, right: string, blank: char -> bool)
    requires AllBlank(left, blank) && AllBlank(right, blank)
    requires s != "" ==> !blank(s[0]) && !blank(s[|s| - 1])
    ensures Trim(left + s + right, blank) == s
  {
    if s == "" {
      StartComesOff(left + right, "", blank);
      assert left + s + right == left + right && (left + right) + "" == left + right;
      assert TrimStart(left + s + right, blank) == "" && TrimEnd("", blank) == "";
    } else {
      StartComesOff(left, s + right, blank);
      assert left + s + right == left + (s + right);
      EndComesOff(s, right, blank);
      hide TrimStart, TrimEnd;
    }
  }

  lemma {:induction false} StartComesOff(left: string, s: string, blank: char -> bool)
    requires AllBlank(left, blank) && (s != "" ==> !blank(s[0]))
    ensures TrimStart(left + s, blank) == s
  {
    if left == "" {
      assert left + s == s;
    } else {
      StartComesOff(left[1..], s, blank);
      assert (left + s)[1..] == left[1..] + s;
    }
  }

  lemma {:induction false} EndComesOff(s: string, right: string, blank: char -> bool)
    requires AllBlank(right, blank) && (s != "" ==> !blank(s[|s| - 1]))
    ensures TrimEnd(s + right, blank) == s
  {
    if right == "" {
      assert s + right == s;
    } else {
      EndComesOff(s, right[..|right| - 1], blank);
      assert (s + right)[..|s + right| - 1] == s + right[..|right| - 1];
    }
  }

  lemma TrimKeeps(s: string, blank: char -> bool)
    requires s != "" ==> !blank(s[0]) && !blank(s[|s| - 1])
    ensures Trim(s, blank) == s
  {
  }
}
