/** The byte-level vocabulary of the histedit state file: hex, decimal, and lines. */
module StateText {
  import opened Lists

  newtype byte = x: int | 0 <= x < 256

  type Bytes = seq<byte>

  // ---------------------------------------------------------------------------------------
  // hex and bin

  const HEX_DIGITS: string := "0123456789abcdef"

  function Nibble(d: int): char
    requires 0 <= d < 16
  {
    HEX_DIGITS[d]
  }

  /** The value of a hexadecimal digit of either case, or -1. */
  function NibbleValue(c: char): (d: int)
    ensures -1 <= d < 16
  {
    if '0' <= c <= '9' then c as int - '0' as int
    else if 'a' <= c <= 'f' then c as int - 'a' as int + 10
    else if 'A' <= c <= 'F' then c as int - 'A' as int + 10
    else -1
  }

  function Hex(b: Bytes): string {
    if b == [] then "" else [Nibble(b[0] as int / 16), Nibble(b[0] as int % 16)] + Hex(b[1..])
  }

  /** `bin`; it refuses an odd number of digits and anything that is no digit. */
  function Bin(s: string): Option<Bytes> {
    if s == "" then Some([])
    else if |s| == 1 then None
    else
      var hi, lo := NibbleValue(s[0]), NibbleValue(s[1]);
      var rest := Bin(s[2..]);
      if hi < 0 || lo < 0 || rest == None then None
      else Some([(hi * 16 + lo) as byte] + rest.value)
  }

  lemma NibbleRoundTrip(d: int)
    requires 0 <= d < 16
    ensures NibbleValue(Nibble(d)) == d
  {
  }

  lemma {:induction false} BinOfHex(b: Bytes)
    ensures Bin(Hex(b)) == Some(b)
  {
    if b != [] {
      BinOfHex(b[1..]);
      BinOfTwoMore(b[0], Hex(b[1..]), b[1..]);
      assert [b[0]] + b[1..] == b;
    }
  }

  lemma BinOfTwoMore(x: byte, s: string, rest: Bytes)
    requires Bin(s) == Some(rest)
    ensures Bin([Nibble(x as int / 16), Nibble(x as int % 16)] + s) == Some([x] + rest)
  {
    NibbleRoundTrip(x as int / 16);
    NibbleRoundTrip(x as int % 16);
    assert ([Nibble(x as int / 16), Nibble(x as int % 16)] + s)[2..] == s;
  }

  ghost predicate HexText(s: string) {
    forall c :: c in s ==> NibbleValue(c) >= 0
  }

  ghost predicate HexDigit(c: char) {
    '0' <= c <= '9' || 'a' <= c <= 'f' || 'A' <= c <= 'F'
  }

  lemma HexDigitIff(c: char)
    ensures NibbleValue(c) >= 0 <==> HexDigit(c)
  {
  }

  ghost predicate HexDigits(s: string) {
    forall i :: 0 <= i < |s| ==> HexDigit(s[i])
  }

  lemma TwoDigitsRead(s: string)
    requires |s| > 1
    ensures Bin(s).Some? <==> HexDigit(s[0]) && HexDigit(s[1]) && Bin(s[2..]).Some?
    ensures Bin(s).Some? ==> |Bin(s).value| == 1 + |Bin(s[2..]).value|
  {
    HexDigitIff(s[0]);
    HexDigitIff(s[1]);
  }

  lemma TwoMoreHexDigits(s: string)
    requires |s| > 1
    ensures HexDigits(s) <==> HexDigit(s[0]) && HexDigit(s[1]) && HexDigits(s[2..])
  {
    if HexDigit(s[0]) && HexDigit(s[1]) && HexDigits(s[2..]) {
      assert forall i :: 2 <= i < |s| ==> s[i] == s[2..][i - 2];
    }
    assert forall i :: 0 <= i < |s| - 2 ==> s[2..][i] == s[i + 2];
  }

  /** Exactly the even numbers of hexadecimal digits are read, as half as many bytes. */
  lemma {:induction false} BinReadsIff(s: string)
    ensures Bin(s).Some? <==> |s| % 2 == 0 && HexDigits(s)
    ensures Bin(s).Some? ==> 2 * |Bin(s).value| == |s|
  {
    if |s| > 1 {
      TwoDigitsRead(s);
      TwoMoreHexDigits(s);
      BinReadsIff(s[2..]);
    }
  }

  lemma {:induction false} HexShape(b: Bytes)
    ensures |Hex(b)| == 2 * |b| && HexText(Hex(b))
  {
    if b != [] {
      HexShape(b[1..]);
      NibbleRoundTrip(b[0] as int / 16);
      NibbleRoundTrip(b[0] as int % 16);
    }
  }

  // ---------------------------------------------------------------------------------------
  // Decimal numbers

  function Decimal(n: nat): string {
    if n < 10 then [Nibble(n)] else Decimal(n / 10) + [Nibble(n % 10)]
  }

  predicate Blank(c: char) {
    c == ' ' || '\t' <= c <= '\r'
  }

  function Stripped(s: string): string {
    if s == "" then ""
    else if Blank(s[0]) then Stripped(s[1..])
    else if Blank(s[|s| - 1]) then Stripped(s[..|s| - 1])
    else s
  }

  /** What precedes the last digit, and an underscore before it. */
  function BeforeDigit(s: string): (r: string)
    requires |s| > 1
    ensures |r| < |s|
  {
    if s[|s| - 2] == '_' then s[..|s| - 2] else s[..|s| - 1]
  }

  function AddDigit(n: Option<nat>, d: nat): Option<nat> {
    if n == None then None else Some(10 * n.value + d)
  }

  /** Decimal digits, with single underscores between them at will. */
  function Digits(s: string): Option<nat> {
    if s == "" then None
    else
      var d := NibbleValue(s[|s| - 1]);
      if d < 0 || d > 9 then None
      else if |s| == 1 then Some(d)
      else AddDigit(Digits(BeforeDigit(s)), d)
  }

  function Signed(negative: bool, n: Option<nat>): Option<int> {
    if n == None then None else Some((if negative then -1 else 1) * n.value)
  }

  /** `int`, of a byte string: blanks around it and a sign are accepted. */
  function ParseInt(s: string): Option<int> {
    var t := Stripped(s);
    if t != "" && (t[0] == '-' || t[0] == '+') then Signed(t[0] == '-', Digits(t[1..])) else Signed(false, Digits(t))
  }

  lemma ParseIntOfDecimal(n: nat)
    ensures ParseInt(Decimal(n)) == Some(n)
    ensures HexText(Decimal(n))
  {
    DigitsOfDecimal(n);
    ParseIntOfDigits(Decimal(n));
  }

  lemma ParseIntOfDigits(s: string)
    requires AllDigits(s)
    ensures ParseInt(s) == Signed(false, Digits(s)) && HexText(s)
  {
    assert s[0] in s && s[|s| - 1] in s;
    assert !Blank(s[0]) && !Blank(s[|s| - 1]);
    assert Stripped(s) == s;
  }

  lemma {:induction false} DigitsOfDecimal(n: nat)
    ensures Digits(Decimal(n)) == Some(n)
    ensures AllDigits(Decimal(n))
  {
    if n < 10 {
      OneDigit(n);
    } else {
      DigitsOfDecimal(n / 10);
      DigitAppended(Decimal(n / 10), n / 10, n % 10);
    }
  }

  lemma OneDigit(d: nat)
    requires d < 10
    ensures AllDigits([Nibble(d)]) && Digits([Nibble(d)]) == Some(d)
  {
    DigitValue(d);
  }

  /** Blanks around a number, and a sign before it, are read over. */
  lemma SignedNumberParses(p: string, n: nat, q: string, minus: bool)
    requires (forall c :: c in p ==> Blank(c)) && forall c :: c in q ==> Blank(c)
    ensures ParseInt(p + (([if minus then '-' else '+'] + Decimal(n)) + q)) == Some(if minus then -1 * n else n)
  {
    var t := [if minus then '-' else '+'] + Decimal(n);
    DigitsOfDecimal(n);
    assert Decimal(n)[|Decimal(n)| - 1] in Decimal(n);
    assert t[|t| - 1] == Decimal(n)[|Decimal(n)| - 1];
    StrippedOfBlanks(p, t, q);
    assert t[1..] == Decimal(n);
  }

  lemma {:induction false} StrippedOfBlanks(p: string, t: string, q: string)
    requires (forall c :: c in p ==> Blank(c)) && (forall c :: c in q ==> Blank(c))
    requires t != "" && !Blank(t[0]) && !Blank(t[|t| - 1])
    ensures Stripped(p + (t + q)) == t
    decreases |p| + |q|
  {
    var s := p + (t + q);
    if p != "" {
      assert s[0] == p[0] && p[0] in p && s[1..] == p[1..] + (t + q);
      assert forall c :: c in p[1..] ==> c in p;
      StrippedOfBlanks(p[1..], t, q);
    } else if q != "" {
      var front := q[..|q| - 1];
      assert s[|s| - 1] == q[|q| - 1] && q[|q| - 1] in q && s[..|s| - 1] == p + (t + front) && s[0] == t[0];
      assert forall c :: c in front ==> c in q;
      StrippedOfBlanks(p, t, front);
    } else {
      assert s == t;
    }
  }

  ghost predicate AllDigits(s: string) {
    s != "" && forall c :: c in s ==> '0' <= c <= '9'
  }

  lemma DigitAppended(front: string, m: nat, d: nat)
    requires d < 10 && AllDigits(front) && Digits(front) == Some(m)
    ensures AllDigits(front + [Nibble(d)]) && Digits(front + [Nibble(d)]) == Some(10 * m + d)
  {
    var s := front + [Nibble(d)];
    DigitValue(d);
    assert front[|front| - 1] in front;
    assert s[..|s| - 1] == front && s[|s| - 2] == front[|front| - 1];
    OneMoreDigit(s);
  }

  lemma DigitValue(d: nat)
    requires d < 10
    ensures '0' <= Nibble(d) <= '9' && NibbleValue(Nibble(d)) == d
  {
  }

  lemma OneMoreDigit(s: string)
    requires |s| > 1 && s[|s| - 2] != '_' && 0 <= NibbleValue(s[|s| - 1]) <= 9
    ensures Digits(s) == AddDigit(Digits(s[..|s| - 1]), NibbleValue(s[|s| - 1]))
  {
  }

  // ---------------------------------------------------------------------------------------
  // Lines

  predicate OneLine(s: string) {
    '\n' !in s
  }

  function Unlines(lines: seq<string>): string {
    if lines == [] then "" else lines[0] + "\n" + Unlines(lines[1..])
  }

  function FirstIndex(s: string, c: char): (k: nat)
    ensures k <= |s| && c !in s[..k]
    ensures k < |s| ==> s[k] == c
  {
    if s == "" || s[0] == c then 0 else 1 + FirstIndex(s[1..], c)
  }

  /** `[l[:-1] for l in fp.readlines()]`: an unterminated last line loses its last character. */
  function Lines(text: string): seq<string> {
    if text == "" then []
    else
      var k := FirstIndex(text, '\n');
      if k == |text| then [text[..k - 1]] else [text[..k]] + Lines(text[k + 1..])
  }

  lemma FirstIndexIs(s: string, c: char, k: nat)
    requires k <= |s| && c !in s[..k] && (k < |s| ==> s[k] == c)
    ensures FirstIndex(s, c) == k
  {
  }

  lemma {:induction false} LinesOfUnlines(lines: seq<string>)
    requires forall l :: l in lines ==> OneLine(l)
    ensures Lines(Unlines(lines)) == lines
  {
    if lines != [] {
      var text := Unlines(lines);
      var l := lines[0];
      assert l in lines;
      assert text[..|l|] == l;
      FirstIndexIs(text, '\n', |l|);
      assert text[|l| + 1..] == Unlines(lines[1..]);
      LinesOfUnlines(lines[1..]);
    }
  }

  lemma {:induction false} UnlinesConcat(a: seq<string>, b: seq<string>)
    ensures Unlines(a + b) == Unlines(a) + Unlines(b)
  {
    if a == [] {
      assert a + b == b;
    } else {
      UnlinesConcat(a[1..], b);
      assert (a + b)[1..] == a[1..] + b;
    }
  }

  lemma HexIsOneLine(s: string)
    requires HexText(s)
    ensures OneLine(s) && ' ' !in s && '\r' !in s
  {
  }
}
