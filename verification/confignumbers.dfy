/** What the conversion of a text to an integer reads. */
module ConfigNumbers {
  import opened Wrappers
  import opened ConfigParser

  /** The value of a string of digits. */
  function DigitsValue(w: string): nat
    requires forall i | 0 <= i < |w| :: '0' <= w[i] <= '9'
  {
    if w == [] then 0 else 10 * DigitsValue(w[..|w| - 1]) + (w[|w| - 1] as nat - '0' as nat)
  }

  lemma {:induction false} DigitsEnd(w: string, rest: string)
    requires forall i | 0 <= i < |w| :: '0' <= w[i] <= '9'
    requires rest == [] || !('0' <= rest[0] <= '9')
    ensures Digits(w + rest, 0) == DigitsValue(w)
  {
    DigitsUpTo(w, rest, |w|);
    assert w[|w|..] + rest == rest && w[..|w|] == w;
  }

  lemma {:induction false} DigitsUpTo(w: string, rest: string, k: nat)
    requires k <= |w| && forall i | 0 <= i < |w| :: '0' <= w[i] <= '9'
    ensures Digits(w + rest, 0) == Digits(w[k..] + rest, DigitsValue(w[..k]))
  {
    if k == 0 {
      assert w[0..] == w && w[..0] == [];
    } else {
      DigitsUpTo(w, rest, k - 1);
      assert w[k - 1..] + rest == [w[k - 1]] + (w[k..] + rest);
      assert w[..k][..k - 1] == w[..k - 1];
    }
  }

  lemma {:induction false} SpaceSkipped(g: string, s: string)
    requires forall i | 0 <= i < |g| :: g[i] as nat == 32 || 9 <= g[i] as nat <= 13
    requires s == [] || !(s[0] as nat == 32 || 9 <= s[0] as nat <= 13)
    ensures SkipSpace(g + s) == s
  {
    if g == [] {
      assert g + s == s;
    } else {
      SpaceSkipped(g[1..], s);
      assert (g + s)[1..] == g[1..] + s;
    }
  }

  /** `%d`: white space, a sign or none, digits; what comes behind them does not matter. */
  lemma IntegerRead(g: string, sign: string, w: string, rest: string)
    requires forall i | 0 <= i < |g| :: g[i] as nat == 32 || 9 <= g[i] as nat <= 13
    requires sign == "" || sign == "-" || sign == "+"
    requires w != [] && forall i | 0 <= i < |w| :: '0' <= w[i] <= '9'
    requires rest == [] || !('0' <= rest[0] <= '9')
    ensures var n: int := DigitsValue(w);
            ReadInt(g + (sign + (w + rest))) == Some(if sign == "-" then -n else n)
  {
    hide Digits, SkipSpace, DigitsValue, ReadInt;
    var u := w + rest;
    SpaceSkipped(g, sign + u);
    DigitsEnd(w, rest);
    assert u[0] == w[0];
    Unfold(g + (sign + u), sign, u);
  }

  lemma Unfold(s: string, sign: string, u: string)
    requires (sign == "" || sign == "-" || sign == "+") && u != [] && IsDigit(u[0]) && SkipSpace(s) == sign + u
    ensures ReadInt(s) == Some(if sign == "-" then -(Digits(u, 0) as int) else Digits(u, 0))
  {
    hide Digits, SkipSpace;
    if sign == "" {
      assert sign + u == u;
    } else {
      assert (sign + u)[1..] == u && (sign + u)[0] == sign[0];
    }
  }

  /** Without a digit behind the sign nothing is read. */
  lemma NoIntegerRead(g: string, sign: string, rest: string)
    requires forall i | 0 <= i < |g| :: g[i] as nat == 32 || 9 <= g[i] as nat <= 13
    requires sign == "" || sign == "-" || sign == "+"
    requires rest == [] || !('0' <= rest[0] <= '9')
    requires sign == "" && rest != [] ==>
               rest[0] as nat != 32 && !(9 <= rest[0] as nat <= 13) && rest[0] != '-' && rest[0] != '+'
    ensures ReadInt(g + (sign + rest)) == None
  {
    hide Digits, SkipSpace;
    var t := sign + rest;
    SpaceSkipped(g, t);
    if sign == "" {
      assert t == rest;
    } else {
      assert t[1..] == rest && t[0] == sign[0];
    }
  }
}
