/** Git's C-quoting of a path that is not plain ASCII: what stands between the quotes of a diff's header line. */
module QuotedPath {
  import opened Utf8

  function Octal(n: nat): char
    requires n < 8
  {
    '0' + n as char
  }

  /** The letter of a byte that has an escape of its own. */
  function Letter(b: Byte): (c: char)
    ensures (c as int) < 0x80 && c != '\n'
  {
    match b
    case 7 => 'a'
    case 8 => 'b'
    case 9 => 't'
    case 10 => 'n'
    case 11 => 'v'
    case 12 => 'f'
    case 13 => 'r'
    case 34 => '"'
    case 92 => '\\'
    case _ => '0'
  }

  /** A byte as it is, as a one-letter escape, or as three octal digits. */
  function QuoteByte(b: Byte): (s: string)
    ensures s != "" && IsAsciiText(s) && '\n' !in s
  {
    if Letter(b) != '0' then ['\\', Letter(b)]
    else if b < 0x20 || b >= 0x7F then ['\\', Octal(b / 8 / 8), Octal(b / 8 % 8), Octal(b % 8)]
    else [b as char]
  }

  function CQuote(path: seq<Byte>): (s: string)
    ensures IsAsciiText(s) && '\n' !in s && |path| <= |s|
  {
    if path == [] then "" else QuoteByte(path[0]) + CQuote(path[1..])
  }

  lemma LastOctal(n: nat, m: nat)
    requires n / 8 == m / 8 && Octal(n % 8) == Octal(m % 8)
    ensures n == m
  {
  }

  /** No quoted byte is the start of another's. */
  lemma QuoteByteApart(b: Byte, c: Byte, s: string, t: string)
    requires QuoteByte(b) + s == QuoteByte(c) + t
    ensures b == c && s == t
  {
    var x, y := QuoteByte(b) + s, QuoteByte(c) + t;
    assert x[0] == QuoteByte(b)[0] && y[0] == QuoteByte(c)[0];
    if Letter(b) != '0' || Letter(c) != '0' {
      assert x[1] == y[1];
    } else if x[0] == '\\' {
      assert x[1] == y[1] && x[2] == y[2] && x[3] == y[3];
      LastOctal(b / 8, c / 8);
      LastOctal(b, c);
    }
    assert b == c;
    assert x[|QuoteByte(b)|..] == s && y[|QuoteByte(c)|..] == t;
  }

  /** Two paths quoted alike are one path. */
  lemma {:induction false} CQuoteApart(p: seq<Byte>, q: seq<Byte>)
    requires CQuote(p) == CQuote(q)
    ensures p == q
  {
    hide QuoteByte;
    if p != [] && q != [] {
      QuoteByteApart(p[0], q[0], CQuote(p[1..]), CQuote(q[1..]));
      CQuoteApart(p[1..], q[1..]);
      assert p == [p[0]] + p[1..] && q == [q[0]] + q[1..];
    }
  }
}
