/** The names of auxiliary variables and multipliers, and why different ones do not clash. */
module AuxNames {
  function Digit(d: nat): char
    requires d < 10
  {
    "0123456789"[d]
  }

  function Decimal(n: nat): string {
    if n < 10 then [Digit(n)] else Decimal(n / 10) + [Digit(n % 10)]
  }

  /** A number, an underscore and the rest of a name. */
  function Joined(n: nat, rest: string): string {
    Decimal(n) + ("_" + rest)
  }

  /** The name of the k-th auxiliary variable for the j-th term of equation i. */
  function AuxLeadName(i: nat, j: nat, k: nat): string {
    "AUXLD_" + Joined(i, Joined(j, Decimal(k)))
  }

  /** The name of the auxiliary variable for the derivative of a constraint by the y-th variable at lag l. */
  function AuxLagName(y: nat, f: nat, l: nat): string {
    "AUX_" + Joined(y, Joined(f, Decimal(l)))
  }

  /** The name of the multiplier of a constraint. */
  function MultName(f: nat): string {
    "MULT" + Decimal(f)
  }

  lemma DigitsDiffer(d: nat, e: nat)
    requires d < 10 && e < 10 && Digit(d) == Digit(e)
    ensures d == e
  {
  }

  lemma LastDigit(n: nat)
    ensures |Decimal(n)| > 0 && Decimal(n)[|Decimal(n)| - 1] == Digit(n % 10)
    ensures Decimal(n)[..|Decimal(n)| - 1] == if n < 10 then "" else Decimal(n / 10)
  {
  }

  lemma {:induction false} DecimalInjective(m: nat, n: nat)
    requires Decimal(m) == Decimal(n)
    ensures m == n
    decreases m
  {
    LastDigit(m);
    LastDigit(n);
    DigitsDiffer(m % 10, n % 10);
    LastDigit(m / 10);
    LastDigit(n / 10);
    if m >= 10 && n >= 10 { DecimalInjective(m / 10, n / 10); }
  }

  /** The number that a string of digits stands for. */
  ghost function Read(s: string): int {
    if |s| == 0 then 0 else 10 * Read(s[..|s| - 1]) + (s[|s| - 1] as int - '0' as int)
  }

  /** Reading the digits of a number gives the number. */
  lemma {:induction false} DecimalReads(n: nat)
    ensures Read(Decimal(n)) == n
    decreases n
  {
    LastDigit(n);
    DigitReads(n % 10);
    if n < 10 {
      assert Decimal(n)[..0] == "";
    } else {
      DecimalReads(n / 10);
    }
  }

  lemma DigitReads(d: nat)
    requires d < 10
    ensures Digit(d) as int - '0' as int == d
  {
  }

  lemma {:induction false} OnlyDigits(n: nat)
    ensures forall i :: 0 <= i < |Decimal(n)| ==> Decimal(n)[i] != '_'
    decreases n
  {
    if n >= 10 { OnlyDigits(n / 10); }
  }

  /** A number ends where the next underscore is. */
  lemma SplitAtUnderscore(a: string, s: string, b: string, t: string)
    requires '_' !in a && '_' !in b && a + ("_" + s) == b + ("_" + t)
    ensures a == b && s == t
  {
    var x, y := a + ("_" + s), b + ("_" + t);
    assert x[|a|] == '_' && y[|b|] == '_';
    assert a == x[..|a|] && b == y[..|b|];
    assert s == x[|a| + 1..] && t == y[|b| + 1..];
  }

  lemma SamePrefix(p: string, s: string, t: string)
    requires p + s == p + t
    ensures s == t
  {
    assert (p + s)[|p|..] == s && (p + t)[|p|..] == t;
  }

  lemma JoinedInjective(n: nat, s: string, m: nat, t: string)
    requires Joined(n, s) == Joined(m, t)
    ensures n == m && s == t
  {
    hide Decimal;
    OnlyDigits(n);
    OnlyDigits(m);
    SplitAtUnderscore(Decimal(n), s, Decimal(m), t);
    DecimalInjective(n, m);
  }

  /** Three numbers can be read back from their names. */
  lemma NumbersInjective(a: nat, b: nat, c: nat, a': nat, b': nat, c': nat)
    requires Joined(a, Joined(b, Decimal(c))) == Joined(a', Joined(b', Decimal(c')))
    ensures a == a' && b == b' && c == c'
  {
    hide Decimal, Joined;
    JoinedInjective(a, Joined(b, Decimal(c)), a', Joined(b', Decimal(c')));
    JoinedInjective(b, Decimal(c), b', Decimal(c'));
    DecimalInjective(c, c');
  }

  lemma AuxLeadInjective(i: nat, j: nat, k: nat, i': nat, j': nat, k': nat)
    requires AuxLeadName(i, j, k) == AuxLeadName(i', j', k')
    ensures i == i' && j == j' && k == k'
  {
    hide Decimal, Joined;
    SamePrefix("AUXLD_", Joined(i, Joined(j, Decimal(k))), Joined(i', Joined(j', Decimal(k'))));
    NumbersInjective(i, j, k, i', j', k');
  }

  lemma AuxLagInjective(y: nat, f: nat, l: nat, y': nat, f': nat, l': nat)
    requires AuxLagName(y, f, l) == AuxLagName(y', f', l')
    ensures y == y' && f == f' && l == l'
  {
    hide Decimal, Joined;
    SamePrefix("AUX_", Joined(y, Joined(f, Decimal(l))), Joined(y', Joined(f', Decimal(l'))));
    NumbersInjective(y, f, l, y', f', l');
  }

  lemma MultInjective(f: nat, g: nat)
    requires MultName(f) == MultName(g)
    ensures f == g
  {
    hide Decimal;
    SamePrefix("MULT", Decimal(f), Decimal(g));
    DecimalInjective(f, g);
  }

  /** The three kinds of names are apart. */
  lemma KindsApart(i: nat, j: nat, k: nat, y: nat, f: nat, l: nat, g: nat)
    ensures AuxLeadName(i, j, k) != AuxLagName(y, f, l)
    ensures AuxLeadName(i, j, k) != MultName(g) && AuxLagName(y, f, l) != MultName(g)
  {
    hide Decimal, Joined;
    assert AuxLeadName(i, j, k)[0] == 'A' && AuxLagName(y, f, l)[0] == 'A' && MultName(g)[0] == 'M';
    assert AuxLeadName(i, j, k)[3] == 'L' && AuxLagName(y, f, l)[3] == '_';
  }

  /** What the names look like. */
  lemma NameShapes()
    ensures AuxLeadName(1, 2, 13) == "AUXLD_1_2_13" && AuxLagName(0, 3, 1) == "AUX_0_3_1" && MultName(12) == "MULT12"
  {
    assert Decimal(13) == Decimal(1) + ['3'] && Decimal(12) == Decimal(1) + ['2'];
    assert Decimal(0) == "0" && Decimal(1) == "1" && Decimal(2) == "2" && Decimal(3) == "3";
  }
}
