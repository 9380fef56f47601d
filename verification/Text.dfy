/** The strings of row keys: decimal text, reversal and byte order. */
module Text {
  import opened Outcomes

  // ---------- reversal: value[::-1] ----------

  function Rev<T>(s: seq<T>): (r: seq<T>)
    ensures |r| == |s|
    ensures forall i :: 0 <= i < |s| ==> r[i] == s[|s| - 1 - i]
  {
    seq(|s|, i requires 0 <= i < |s| => s[|s| - 1 - i])
  }

  lemma RevRev<T>(s: seq<T>)
    ensures Rev(Rev(s)) == s
  {
  }

  lemma InRev<T>(s: seq<T>, x: T)
    ensures x in Rev(s) <==> x in s
  {
    if x in s {
      var i :| 0 <= i < |s| && s[i] == x;
      assert Rev(s)[|s| - 1 - i] == x;
    }
  }

  // ---------- decimal text: str(n) and int(s) ----------

  predicate IsDigit(c: char) {
    '0' <= c <= '9'
  }

  predicate AllDigits(s: string) {
    forall i :: 0 <= i < |s| ==> IsDigit(s[i])
  }

  function Str(n: nat): (s: string)
    ensures s != [] && AllDigits(s)
  {
    if n < 10 then [n as char + '0'] else Str(n / 10) + [(n % 10) as char + '0']
  }

  function StrInt(n: int): string {
    if n < 0 then "-" + Str(-n) else Str(n)
  }

  function Digits(s: string): nat
    requires AllDigits(s)
  {
    if s == [] then 0 else 10 * Digits(s[..|s| - 1]) + (s[|s| - 1] - '0') as nat
  }

  /** int(s) on the text that serialization can produce: an optional minus sign and digits. */
  function ParseInt(s: string): Option<int> {
    if s != [] && AllDigits(s) then Some(Digits(s))
    else if |s| > 1 && s[0] == '-' && AllDigits(s[1..]) then
      var d: int := 0 - Digits(s[1..]);
      Some(d)
    else None
  }

  function Zeros(k: nat): (s: string)
    ensures |s| == k && AllDigits(s)
  {
    seq(k, _ => '0')
  }

  lemma OneMoreZero(k: nat, s: string)
    ensures ['0'] + (Zeros(k) + s) == Zeros(k + 1) + s
  {
    assert ['0'] + Zeros(k) == Zeros(k + 1);
    assert ['0'] + (Zeros(k) + s) == (['0'] + Zeros(k)) + s;
  }

  /** Left padding to 16 characters; longer text is unchanged. */
  function Pad16(s: string): (r: string)
    ensures |r| == if |s| < 16 then 16 else |s|
    ensures AllDigits(s) ==> AllDigits(r)
  {
    if |s| < 16 then Zeros(16 - |s|) + s else s
  }

  lemma EnoughZeros(k: nat, s: string, r: string)
    requires r == Zeros(k) + s && |r| >= 16 && (k > 0 ==> |r| <= 16)
    ensures r == Pad16(s)
  {
    if k == 0 {
      assert Zeros(0) + s == s;
    }
  }

  function Pow10(k: nat): (p: nat)
    ensures p > 0
  {
    if k == 0 then 1 else 10 * Pow10(k - 1)
  }

  lemma {:induction false} DigitsOfStr(n: nat)
    ensures Digits(Str(n)) == n
  {
    if n >= 10 {
      DigitsOfStr(n / 10);
      assert Str(n)[..|Str(n)| - 1] == Str(n / 10);
    }
  }

  lemma {:induction false} DigitsAppend(a: string, b: string)
    requires AllDigits(a) && AllDigits(b)
    ensures AllDigits(a + b)
    ensures Digits(a + b) == Digits(a) * Pow10(|b|) + Digits(b)
  {
    if b == [] {
      assert a + b == a;
    } else {
      var m := b[..|b| - 1];
      DigitsAppend(a, m);
      assert (a + b)[..|a + b| - 1] == a + m;
      Shift(Digits(a), Pow10(|m|));
    }
  }

  lemma Shift(d: nat, p: nat)
    ensures 10 * (d * p) == d * (10 * p)
  {
  }

  lemma {:induction false} DigitsOfZeros(k: nat)
    ensures Digits(Zeros(k)) == 0
  {
    if k > 0 {
      DigitsOfZeros(k - 1);
      assert Zeros(k)[..k - 1] == Zeros(k - 1);
    }
  }

  lemma LeadingZeros(k: nat, s: string)
    requires AllDigits(s)
    ensures Digits(Zeros(k) + s) == Digits(s)
  {
    DigitsOfZeros(k);
    DigitsAppend(Zeros(k), s);
  }

  lemma PadKeepsNumber(s: string)
    requires AllDigits(s)
    ensures Digits(Pad16(s)) == Digits(s)
  {
    if |s| < 16 {
      LeadingZeros(16 - |s|, s);
    }
  }

  lemma {:induction false} DigitsBelow(s: string)
    requires AllDigits(s)
    ensures Digits(s) < Pow10(|s|)
  {
    if s != [] {
      DigitsBelow(s[..|s| - 1]);
    }
  }

  lemma {:induction false} DigitsInjective(a: string, b: string)
    requires AllDigits(a) && AllDigits(b) && |a| == |b|
    requires Digits(a) == Digits(b)
    ensures a == b
  {
    if a != [] {
      var x, y := a[..|a| - 1], b[..|b| - 1];
      assert Digits(x) == Digits(y);
      DigitsInjective(x, y);
      assert a == x + [a[|a| - 1]] && b == y + [b[|b| - 1]];
    }
  }

  /** The text of n has exactly as many digits as n. */
  lemma {:induction false} StrLength(n: nat, k: nat)
    requires k > 0
    ensures |Str(n)| <= k <==> n < Pow10(k)
  {
    if n < 10 {
      assert Pow10(k) == 10 * Pow10(k - 1);
    } else if k > 1 {
      StrLength(n / 10, k - 1);
    } else {
      assert Pow10(1) == 10;
    }
  }

  lemma StrInjective(m: nat, n: nat)
    requires Str(m) == Str(n)
    ensures m == n
  {
    DigitsOfStr(m);
    DigitsOfStr(n);
  }

  // ---------- byte order ----------

  predicate Less(a: string, b: string) {
    if b == [] then false
    else if a == [] then true
    else a[0] < b[0] || (a[0] == b[0] && Less(a[1..], b[1..]))
  }

  predicate Prefix(p: string, s: string) {
    |p| <= |s| && s[..|p|] == p
  }

  lemma {:induction false} LessIrreflexive(a: string)
    ensures !Less(a, a)
  {
    if a != [] {
      LessIrreflexive(a[1..]);
    }
  }

  lemma {:induction false} LessTransitive(a: string, b: string, c: string)
    requires Less(a, b) && Less(b, c)
    ensures Less(a, c)
  {
    if a != [] && a[0] == b[0] == c[0] {
      LessTransitive(a[1..], b[1..], c[1..]);
    }
  }

  lemma {:induction false} LessTotal(a: string, b: string)
    ensures Less(a, b) || Less(b, a) || a == b
  {
    if a != [] && b != [] && a[0] == b[0] {
      LessTotal(a[1..], b[1..]);
      assert a == [a[0]] + a[1..] && b == [b[0]] + b[1..];
    }
  }

  /** After a common prefix, the rest decides. */
  lemma {:induction false} LessAfterPrefix(p: string, x: string, y: string)
    ensures Less(p + x, p + y) <==> Less(x, y)
  {
    if p == [] {
      assert p + x == x && p + y == y;
    } else {
      LessAfterPrefix(p[1..], x, y);
      assert (p + x)[1..] == p[1..] + x && (p + y)[1..] == p[1..] + y;
    }
  }

  /** Different heads of equal length decide, whatever follows. */
  lemma {:induction false} LessByHead(p: string, q: string, x: string, y: string)
    requires |p| == |q| && p != q
    ensures Less(p + x, q + y) <==> Less(p, q)
  {
    assert p == [p[0]] + p[1..] && q == [q[0]] + q[1..];
    assert (p + x)[1..] == p[1..] + x && (q + y)[1..] == q[1..] + y;
    if p[0] == q[0] {
      LessByHead(p[1..], q[1..], x, y);
    }
  }

  /** Digit strings of one length are in byte order exactly when they are in numeric order. */
  lemma {:induction false} LessIsNumeric(a: string, b: string)
    requires AllDigits(a) && AllDigits(b) && |a| == |b|
    ensures Less(a, b) <==> Digits(a) < Digits(b)
  {
    if a != [] {
      var p, q := a[..|a| - 1], b[..|b| - 1];
      var x, y := [a[|a| - 1]], [b[|b| - 1]];
      assert a == p + x && b == q + y;
      LessIsNumeric(p, q);
      if p == q {
        LessAfterPrefix(p, x, y);
      } else {
        LessByHead(p, q, x, y);
        if Digits(p) == Digits(q) {
          DigitsInjective(p, q);
        }
      }
    }
  }
}
