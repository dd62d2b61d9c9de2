/** Decimal numerals and separators in strings, as fmt and strconv produce them. */
module Text {

  predicate IsDigit(c: char) {
    '0' <= c <= '9'
  }

  function Digit(d: nat): (c: char)
    requires d < 10
    ensures IsDigit(c) && DigitValue(c) == d
  {
    ('0' as int + d) as char
  }

  function DigitValue(c: char): nat
    requires IsDigit(c)
  {
    c as int - '0' as int
  }

  predicate AllDigits(s: string) {
    forall i :: 0 <= i < |s| ==> IsDigit(s[i])
  }

  /** `%d` of a number that is not negative. */
  function Digits(n: nat): (s: string)
    ensures AllDigits(s) && |s| > 0
    ensures Value(s) == n
    ensures n > 0 ==> s[0] != '0'
    ensures n == 0 ==> s == "0"
  {
    if n < 10 then [Digit(n)] else
    var s := Digits(n / 10) + [Digit(n % 10)];
    assert s[..|s| - 1] == Digits(n / 10);
    s
  }

  function Value(s: string): nat
    requires AllDigits(s)
  {
    if s == [] then 0 else 10 * Value(s[..|s| - 1]) + DigitValue(s[|s| - 1])
  }

  function ZeroFill(s: string, width: nat): (r: string)
    decreases width - |s|
  {
    if |s| >= width then s else ZeroFill("0" + s, width)
  }

  lemma {:induction false} ZeroInFront(s: string)
    requires AllDigits(s)
    ensures AllDigits("0" + s) && Value("0" + s) == Value(s)
  {
    if s != [] {
      ZeroInFront(s[..|s| - 1]);
      assert ("0" + s)[..|s|] == "0" + s[..|s| - 1];
    }
  }

  lemma {:induction false} ZeroFillKeepsValue(s: string, width: nat)
    requires AllDigits(s) && |s| > 0
    ensures AllDigits(ZeroFill(s, width)) && Value(ZeroFill(s, width)) == Value(s)
    ensures |ZeroFill(s, width)| > 0
    decreases width - |s|
  {
    if |s| < width {
      ZeroInFront(s);
      ZeroFillKeepsValue("0" + s, width);
    }
  }

  /** `%0<width>d`: the sign counts towards the width. */
  function Padded(n: int, width: nat): string {
    if n < 0 then "-" + ZeroFill(Digits(-n), if width > 0 then width - 1 else 0)
    else ZeroFill(Digits(n), width)
  }

  /** Zeros are filled in up to the width, and not beyond it. */
  lemma {:induction false} ZeroFillLayout(s: string, width: nat)
    ensures var r := ZeroFill(s, width);
      && |r| == (if |s| < width then width else |s|) && s == r[|r| - |s|..]
      && forall i :: 0 <= i < |r| - |s| ==> r[i] == '0'
    decreases width - |s|
  {
    if |s| < width {
      ZeroFillLayout("0" + s, width);
      var r := ZeroFill("0" + s, width);
      assert ("0" + s)[1..] == s;
      assert r[|r| - |s|..] == r[|r| - |s| - 1..][1..];
    }
  }

  /** A number that is not negative is its digits behind as many zeros as the width leaves room for. */
  lemma PaddedLayout(n: nat, width: nat)
    ensures var r, digits := Padded(n, width), Digits(n);
      && |r| == (if |digits| < width then width else |digits|) && digits == r[|r| - |digits|..]
      && forall i :: 0 <= i < |r| - |digits| ==> r[i] == '0'
  {
    ZeroFillLayout(Digits(n), width);
  }

  /** The name of a checkpoint has five digits, or more if it needs them. */
  lemma CkptNameLayout(n: nat)
    ensures var r, digits := CkptName(n), Digits(n);
      && r[..5] == "ckpt-" && |r| == 5 + (if |digits| < 5 then 5 else |digits|) && digits == r[|r| - |digits|..]
      && forall i :: 5 <= i < |r| - |digits| ==> r[i] == '0'
  {
    PaddedLayout(n, 5);
    var r, p := CkptName(n), Padded(n, 5);
    assert r[5..] == p;
    assert forall i :: 5 <= i < |r| ==> r[i] == p[i - 5];
  }

  lemma CkptNameOfSeven()
    ensures CkptName(7) == "ckpt-00007"
  {
    assert Digits(7) == "7";
    assert "0" + "7" == "07" && "0" + "07" == "007" && "0" + "007" == "0007" && "0" + "0007" == "00007";
    assert ZeroFill("0007", 5) == ZeroFill("00007", 5) == "00007";
    assert ZeroFill("07", 5) == ZeroFill("007", 5) == ZeroFill("0007", 5);
    assert "ckpt-" + "00007" == "ckpt-00007";
  }

  predicate IsNumeral(s: string) {
    |s| > 0 && (AllDigits(s) || (s[0] == '-' && AllDigits(s[1..])))
  }

  function Parse(s: string): int
    requires IsNumeral(s)
  {
    if s[0] == '-' then 0 - Value(s[1..]) else Value(s)
  }

  /** No two numbers are printed alike, however wide they are. */
  lemma PaddedRoundTrip(n: int, width: nat)
    ensures IsNumeral(Padded(n, width)) && Parse(Padded(n, width)) == n
  {
    if n < 0 {
      var w := if width > 0 then width - 1 else 0;
      ZeroFillKeepsValue(Digits(-n), w);
      assert Padded(n, width)[1..] == ZeroFill(Digits(-n), w);
    } else {
      ZeroFillKeepsValue(Digits(n), width);
    }
  }

  lemma NumeralAvoids(s: string, c: char)
    requires IsNumeral(s) && !IsDigit(c) && c != '-'
    ensures c !in s
  {
    if s[0] == '-' && AllDigits(s[1..]) {
      assert s == [s[0]] + s[1..];
    }
  }

  /** The name of a checkpoint directory. */
  function CkptName(seqNo: int): string {
    "ckpt-" + Padded(seqNo, 5)
  }

  lemma CkptNameIsPlain(seqNo: int)
    ensures '/' !in CkptName(seqNo)
  {
    PaddedRoundTrip(seqNo, 5);
    NumeralAvoids(Padded(seqNo, 5), '/');
  }

  lemma CkptNamesDiffer(a: int, b: int)
    requires CkptName(a) == CkptName(b)
    ensures a == b
  {
    assert CkptName(a)[5..] == Padded(a, 5) && CkptName(b)[5..] == Padded(b, 5);
    PaddedRoundTrip(a, 5);
    PaddedRoundTrip(b, 5);
  }

  /** What stands before the first separator, and after it, is determined by the whole. */
  lemma SplitIsUnique(a: string, b: string, x: string, y: string, sep: char)
    requires sep !in a && sep !in x
    requires a + [sep] + b <= x + [sep] + y
    ensures a == x && b <= y
  {
    var l, r := a + [sep] + b, x + [sep] + y;
    assert l[|a|] == r[|a|] == sep && l[|x|] == r[|x|] == sep;
    assert a == l[..|a|] && x == r[..|x|];
    assert b == l[|a| + 1..] && y == r[|x| + 1..];
  }

  lemma LastSeparator(a: string, b: string, sep: char)
    requires sep !in b
    ensures var s := a + [sep] + b; s[|a|] == sep && forall i :: |a| < i < |s| ==> s[i] != sep
  {
    var s := a + [sep] + b;
    forall i | |a| < i < |s| ensures s[i] != sep { assert s[i] == b[i - |a| - 1]; }
  }

  /** So is what stands before the last separator and after it. */
  lemma SplitAtLast(a: string, b: string, x: string, y: string, sep: char)
    requires sep !in b && sep !in y && a + [sep] + b == x + [sep] + y
    ensures a == x && b == y
  {
    var l, r := a + [sep] + b, x + [sep] + y;
    LastSeparator(a, b, sep);
    LastSeparator(x, y, sep);
    assert a == l[..|a|] && x == r[..|x|] && b == l[|a| + 1..] && y == r[|x| + 1..];
  }

  lemma Regroup(a: string, b: string, c: string, d: string, e: string)
    ensures "/" + a + "/" + b + "/" + c == "/" + a + ("/" + b + ("/" + c + []))
    ensures "/" + a + "/" + b + "/" + c + "/" + d == "/" + a + ("/" + b + ("/" + c + ("/" + d + [])))
    ensures "/" + a + "/" + b + "/" + c + "/" + d + "/" + e ==
        "/" + a + ("/" + b + ("/" + c + ("/" + d + ("/" + e + []))))
  {
    assert "/" + c + [] == "/" + c && "/" + d + [] == "/" + d && "/" + e + [] == "/" + e;
  }
}
