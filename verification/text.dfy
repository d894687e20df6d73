/**
  The two pieces of string handling the core relies on: Go's `%d` formatting of
  an integer (used to build cache keys), its inverse `strconv.Atoi` (used to
  read a board id from a path), and `strings.Split` on a one-character
  separator (used to take apart the `Authorization` header).
 */
module Text {
  import opened Wrappers

  function DigitChar(d: int): (c: char)
    requires 0 <= d < 10
    ensures '0' <= c <= '9'
  {
    (48 + d) as char
  }

  /** Decimal digits of `n`, most significant first, no leading zeros. */
  function NatDigits(n: nat): (s: string)
    ensures |s| >= 1
    ensures forall i :: 0 <= i < |s| ==> '0' <= s[i] <= '9'
    ensures n < 10 <==> |s| == 1
    decreases n
  {
    if n < 10 then [DigitChar(n)] else NatDigits(n / 10) + [DigitChar(n % 10)]
  }

  /** `fmt.Sprintf("%d", i)`: a minus sign for negative values. */
  function Decimal(i: int): (s: string)
    ensures |s| >= 1
    ensures s[0] == '-' <==> i < 0
  {
    if i < 0 then "-" + NatDigits(-i) else NatDigits(i)
  }

  lemma {:induction false} NatDigitsInjective(m: nat, n: nat)
    requires NatDigits(m) == NatDigits(n)
    ensures m == n
    decreases n
  {
    var s := NatDigits(n);
    if n >= 10 {
      assert m >= 10;
      var pm := NatDigits(m / 10);
      var pn := NatDigits(n / 10);
      assert s == pn + [DigitChar(n % 10)];
      assert s == pm + [DigitChar(m % 10)];
      assert s[|s| - 1] == DigitChar(n % 10) == DigitChar(m % 10);
      assert pm == s[..|s| - 1] == pn;
      NatDigitsInjective(m / 10, n / 10);
    } else {
      assert m < 10;
      assert DigitChar(m) == s[0] == DigitChar(n);
    }
  }

  /** Distinct integers print differently, so `%d` keys never collide. */
  lemma DecimalInjective(a: int, b: int)
    requires Decimal(a) == Decimal(b)
    ensures a == b
  {
    if a < 0 {
      assert NatDigits(-a) == Decimal(a)[1..] == Decimal(b)[1..] == NatDigits(-b);
      NatDigitsInjective(-a, -b);
    } else {
      NatDigitsInjective(a, b);
    }
  }

  /** `strings.Split(s, string(sep))`: the pieces between separators, at least one. */
  function Split(s: string, sep: char): (parts: seq<string>)
    ensures |parts| >= 1
    ensures forall i :: 0 <= i < |parts| ==> sep !in parts[i]
    decreases |s|
  {
    if |s| == 0 then [""]
    else
      var rest := Split(s[1..], sep);
      if s[0] == sep then [""] + rest
      else [[s[0]] + rest[0]] + rest[1..]
  }

  /** `strings.Join(parts, string(sep))`: the inverse of `Split`. */
  function Join(parts: seq<string>, sep: char): string
    requires |parts| >= 1
  {
    if |parts| == 1 then parts[0] else parts[0] + [sep] + Join(parts[1..], sep)
  }

  lemma {:induction false} JoinSplit(s: string, sep: char)
    ensures Join(Split(s, sep), sep) == s
    decreases |s|
  {
    if |s| > 0 {
      var rest := Split(s[1..], sep);
      JoinSplit(s[1..], sep);
      if s[0] != sep {
        JoinConsHead(s[0], rest, sep);
      }
      assert s == [s[0]] + s[1..];
    }
  }

  lemma JoinConsHead(c: char, parts: seq<string>, sep: char)
    requires |parts| >= 1
    ensures Join([[c] + parts[0]] + parts[1..], sep) == [c] + Join(parts, sep)
  {
    var q := [[c] + parts[0]] + parts[1..];
    assert q[1..] == parts[1..];
  }

  /** Splitting a string that starts with a separator-free piece and a separator. */
  lemma {:induction false} SplitAfterPiece(a: string, sep: char, b: string)
    requires sep !in a
    ensures Split(a + [sep] + b, sep) == [a] + Split(b, sep)
    decreases |a|
  {
    var s := a + [sep] + b;
    if |a| == 0 {
      assert s[1..] == b;
    } else {
      assert s[1..] == a[1..] + [sep] + b;
      SplitAfterPiece(a[1..], sep, b);
      assert [a[0]] + a[1..] == a;
    }
  }

  lemma {:induction false} SplitWithoutSeparator(s: string, sep: char)
    requires sep !in s
    ensures Split(s, sep) == [s]
    decreases |s|
  {
    if |s| > 0 {
      SplitWithoutSeparator(s[1..], sep);
      assert [s[0]] + s[1..] == s;
    }
  }

  predicate IsDigit(c: char) {
    '0' <= c <= '9'
  }

  predicate AllDigits(s: string) {
    forall i :: 0 <= i < |s| ==> IsDigit(s[i])
  }

  /** The value of a run of decimal digits, most significant first; leading zeros are allowed. */
  function DigitsValue(s: string): nat
    requires AllDigits(s)
    decreases |s|
  {
    if |s| == 0 then 0
    else
      assert IsDigit(s[|s| - 1]);
      DigitsValue(s[..|s| - 1]) * 10 + (s[|s| - 1] as int - 48)
  }

  /** The digits after an optional sign: at least one, and nothing else. */
  function Unsigned(digits: string): Option<nat> {
    if |digits| == 0 || !AllDigits(digits) then None else Some(DigitsValue(digits))
  }

  /**
    `strconv.Atoi`: an optional `+` or `-`, then one or more decimal digits and
    nothing else. Anything else, the empty string and a lone sign included, is
    a syntax error, here `None`.
   */
  function Atoi(s: string): (r: Option<int>)
    ensures s == [] ==> r == None
    ensures |s| > 0 && !IsDigit(s[0]) && s[0] != '+' && s[0] != '-' ==> r == None
    ensures (exists i :: 0 < i < |s| && !IsDigit(s[i])) ==> r == None
    ensures r.Some? ==> IsDigit(s[|s| - 1])
    ensures r.Some? && r.value < 0 ==> s[0] == '-'
  {
    if |s| > 0 && s[0] == '-' then
      match Unsigned(s[1..])
      case Some(n) => Some(-(n as int))
      case None => None
    else if |s| > 0 && s[0] == '+' then
      match Unsigned(s[1..])
      case Some(n) => Some(n as int)
      case None => None
    else
      match Unsigned(s)
      case Some(n) => Some(n as int)
      case None => None
  }

  lemma {:induction false} DigitsValueOfNatDigits(n: nat)
    ensures AllDigits(NatDigits(n)) && DigitsValue(NatDigits(n)) == n
    decreases n
  {
    var s := NatDigits(n);
    assert AllDigits(s);
    if n >= 10 {
      var prefix := NatDigits(n / 10);
      assert s[..|s| - 1] == prefix;
      DigitsValueOfNatDigits(n / 10);
      assert DigitsValue(s) == DigitsValue(prefix) * 10 + (s[|s| - 1] as int - 48);
    }
  }

  lemma UnsignedNatDigits(n: nat)
    ensures Unsigned(NatDigits(n)) == Some(n)
  {
    DigitsValueOfNatDigits(n);
  }

  lemma AtoiNegated(n: nat)
    requires n > 0
    ensures Atoi("-" + NatDigits(n)) == Some(-(n as int))
  {
    var s := "-" + NatDigits(n);
    assert s[1..] == NatDigits(n);
    UnsignedNatDigits(n);
  }

  lemma AtoiNatDigits(n: nat)
    ensures Atoi(NatDigits(n)) == Some(n as int)
  {
    assert IsDigit(NatDigits(n)[0]);
    UnsignedNatDigits(n);
  }

  /** `Atoi` reads back every integer `%d` prints. */
  lemma AtoiDecimal(i: int)
    ensures Atoi(Decimal(i)) == Some(i)
  {
    if i < 0 {
      AtoiNegated(-i);
    } else {
      AtoiNatDigits(i);
    }
  }
}
