/** UTF-8, section 3 of RFC 3629: the bytes of a string, one character each for a byte. */
module Utf8 {
  import opened UrlText

  /** The bytes of one character. */
  function CharBytes(c: char): string {
    var n := c as int;
    if n < 0x80 then [c]
    else if n < 0x800 then [(0xC0 + n / 64) as char, Tail(n)]
    else if n < 0x1_0000 then [(0xE0 + n / 4096) as char, Tail(n / 64), Tail(n)]
    else [(0xF0 + n / 262144) as char, Tail(n / 4096), Tail(n / 64), Tail(n)]
  }

  function Tail(n: nat): char {
    (0x80 + n % 64) as char
  }

  function Bytes(s: string): string {
    if s == "" then "" else CharBytes(s[0]) + Bytes(s[1..])
  }

  /** The first byte tells how many follow. */
  lemma {:induction false} CharBytesDetermine(c: char, s: string, d: char, t: string)
    requires CharBytes(c) + s == CharBytes(d) + t
    ensures c == d && s == t
  {
    var x, y := CharBytes(c) + s, CharBytes(d) + t;
    assert x[0] == CharBytes(c)[0] && y[0] == CharBytes(d)[0];
    assert |CharBytes(c)| == |CharBytes(d)|;
    var n := |CharBytes(c)|;
    assert x[..n] == CharBytes(c) && y[..n] == CharBytes(d) && x[n..] == s && y[n..] == t;
    SameBytes(c, d);
  }

  lemma {:induction false} SameDigits(m: nat, n: nat)
    requires m / 64 == n / 64 && Tail(m) == Tail(n)
    ensures m == n
  {
    assert Tail(m) as int == 0x80 + m % 64 && Tail(n) as int == 0x80 + n % 64;
  }

  lemma {:induction false} DigitsOf(n: nat)
    ensures n / 64 / 64 == n / 4096 && n / 4096 / 64 == n / 262144
  {}

  lemma {:induction false} SameBytes(c: char, d: char)
    requires CharBytes(c) == CharBytes(d)
    ensures c == d
  {
    var m, n, x, y := c as int, d as int, CharBytes(c), CharBytes(d);
    assert x[0] as int == y[0] as int;
    DigitsOf(m);
    DigitsOf(n);
    if |x| == 2 {
      assert x[1] == Tail(m) && y[1] == Tail(n);
      SameDigits(m, n);
    } else if |x| == 3 {
      assert x[1] == Tail(m / 64) && y[1] == Tail(n / 64) && x[2] == Tail(m) && y[2] == Tail(n);
      SameDigits(m / 64, n / 64);
      SameDigits(m, n);
    } else if |x| == 4 {
      assert x[1] == Tail(m / 4096) && y[1] == Tail(n / 4096) && x[2] == Tail(m / 64) && y[2] == Tail(n / 64);
      assert x[3] == Tail(m) && y[3] == Tail(n);
      SameDigits(m / 4096, n / 4096);
      SameDigits(m / 64, n / 64);
      SameDigits(m, n);
    }
  }

  lemma {:induction false} BytesDetermine(s: string, t: string)
    requires Bytes(s) == Bytes(t)
    ensures s == t
  {
    if s != "" && t != "" {
      CharBytesDetermine(s[0], Bytes(s[1..]), t[0], Bytes(t[1..]));
      BytesDetermine(s[1..], t[1..]);
      assert s == [s[0]] + s[1..] && t == [t[0]] + t[1..];
    }
  }

  lemma {:induction false} CharBytesAreBytes(c: char)
    ensures forall b :: b in CharBytes(c) ==> IsByte(b)
  {
    var n := c as int;
    assert n < 0x11_0000;
    forall k: nat ensures IsByte(Tail(k)) {
      assert Tail(k) as int == 0x80 + k % 64;
    }
  }

  lemma {:induction false} BytesAreBytes(s: string)
    ensures forall c :: c in Bytes(s) ==> IsByte(c)
    ensures (forall c :: c in s ==> c as int < 128) ==> Bytes(s) == s
  {
    if s != "" {
      CharBytesAreBytes(s[0]);
      BytesAreBytes(s[1..]);
      assert s == [s[0]] + s[1..] && s[0] in s && forall c :: c in s[1..] ==> c in s;
    }
  }
}
