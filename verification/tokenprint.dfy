/** Where printing leaves the entries without a place: the two exchange sorts
    move them round, and with them the entry that ends the table. */
module TokenPrint {
  import opened Arithmetic
  import opened Wrappers
  import opened TokenTable

  // ----- The entries with a null place -----

  /** In the order in which they stand. */
  function Nulls(t: seq<Entry>): (z: seq<Entry>)
    ensures |z| <= |t| && forall e | e in z :: e.place == 0
  {
    if t == [] then [] else if t[0].place == 0 then [t[0]] + Nulls(t[1..]) else Nulls(t[1..])
  }

  lemma {:induction false} NullsAppend(t: seq<Entry>, u: seq<Entry>)
    ensures Nulls(t + u) == Nulls(t) + Nulls(u)
  {
    if t == [] {
      assert t + u == u;
    } else {
      NullsAppend(t[1..], u);
      assert (t + u)[1..] == t[1..] + u;
      OneMore(t[0], Nulls(t[1..]), Nulls(u));
    }
  }

  lemma OneMore(x: Entry, a: seq<Entry>, b: seq<Entry>)
    ensures [x] + a + b == [x] + (a + b)
  {
  }

  lemma {:induction false} NullsNone(t: seq<Entry>)
    requires forall k | 0 <= k < |t| :: t[k].place > 0
    ensures Nulls(t) == []
  {
    if t != [] {
      NullsNone(t[1..]);
    }
  }

  /** How many stand before position `k`. */
  function NullsBefore(t: seq<Entry>, k: nat): nat
    requires k <= |t|
  {
    |Nulls(t[..k])|
  }

  lemma NullsSplit(t: seq<Entry>, k: nat)
    requires k < |t|
    ensures Nulls(t) == Nulls(t[..k]) + (Nulls([t[k]]) + Nulls(t[k + 1..]))
  {
    hide Nulls;
    assert t == t[..k] + t[k..];
    NullsAppend(t[..k], t[k..]);
    NullsFrom(t, k);
  }

  lemma NullsFrom(t: seq<Entry>, k: nat)
    requires k < |t|
    ensures Nulls(t[k..]) == Nulls([t[k]]) + Nulls(t[k + 1..])
  {
    hide Nulls;
    assert t[k..] == [t[k]] + t[k + 1..];
    NullsAppend([t[k]], t[k + 1..]);
  }

  lemma NullAt(t: seq<Entry>, k: nat)
    requires k < |t| && t[k].place == 0
    ensures NullsBefore(t, k) < |Nulls(t)| && Nulls(t)[NullsBefore(t, k)] == t[k]
  {
    NullsSplit(t, k);
    assert Nulls([t[k]]) == [t[k]];
  }

  lemma {:induction false} NullFrom(t: seq<Entry>, p: nat) returns (k: nat)
    requires p < |Nulls(t)|
    ensures k < |t| && t[k].place == 0 && NullsBefore(t, k) == p && t[k] == Nulls(t)[p]
  {
    if t[0].place == 0 && p == 0 {
      k := 0;
    } else {
      var i := NullFrom(t[1..], if t[0].place == 0 then p - 1 else p);
      k := i + 1;
      assert t[..k] == [t[0]] + t[1..][..i];
      assert t[..k][1..] == t[1..][..i];
    }
  }

  // ----- Upward: their order stays -----

  lemma SwapNulls(t: seq<Entry>, i: nat, j: nat)
    requires i < j < |t| && forall k | i <= k < j :: t[k].place > 0
    ensures Nulls(Swap(t, i, j)) == Nulls(t)
  {
    hide Nulls, Swap;
    var u := t[i := t[j]][j := t[i]];
    SwapIs(t, i, j, u);
    NullsAround(t, i, j);
    NullsAround(u, i, j);
    assert u[..i] == t[..i] && u[j + 1..] == t[j + 1..];
    NullsNone([t[i]]);
    PastEmpty(Nulls(t[..i]), Nulls([t[j]]), Nulls(t[j + 1..]));
  }

  lemma PastEmpty(a: seq<Entry>, b: seq<Entry>, c: seq<Entry>)
    ensures a + [] + (b + c) == a + b + ([] + c)
  {
  }

  lemma NullsAround(t: seq<Entry>, i: nat, j: nat)
    requires i < j < |t| && forall k | i < k < j :: t[k].place > 0
    ensures Nulls(t) == Nulls(t[..i]) + Nulls([t[i]]) + (Nulls([t[j]]) + Nulls(t[j + 1..]))
  {
    hide Nulls;
    NullsSplit(t, j);
    NullsSplit(t[..j], i);
    assert t[..j][..i] == t[..i] && t[..j][i + 1..] == t[i + 1..j];
    NullsNone(t[i + 1..j]);
    NoMore(Nulls([t[i]]));
  }

  lemma NoMore(a: seq<Entry>)
    ensures a + [] == a
  {
  }

  /** Whatever an upward trip moves a null place over has none. */
  lemma {:induction false} BringNulls(t: seq<Entry>, i: nat, j: nat, n: nat)
    requires n <= |t| && Front(t[..n], i, j, n, true)
    ensures Nulls(Bring(t, i, j, n, true)[..n]) == Nulls(t[..n])
    decreases n - j
  {
    hide Nulls, Swap;
    if j < n {
      if Below(t[i], t[j], true) {
        NoSwapFront(t[..n], i, j, n, true);
        BringNulls(t, i, j + 1, n);
      } else {
        assert forall k | i < k < j :: Below(t[..n][i], t[..n][k], true);
        SwapNulls(t[..n], i, j);
        SwapTake(t, i, j, n);
        SwapFront(t[..n], i, j, n, true);
        BringNulls(Swap(t, i, j), i, j + 1, n);
      }
    }
  }

  lemma {:induction false} ExchangeNulls(t: seq<Entry>, i: nat, n: nat)
    requires i < n <= |t| && Front(t[..n], i, i + 1, n, true)
    ensures Nulls(Exchange(t, i, n, true)[..n]) == Nulls(t[..n])
    decreases n - i
  {
    hide Nulls, Bring, Front, Rearranged;
    if i + 1 < n {
      BringNulls(t, i, i + 1, n);
      BringFronts(t, i, i + 1, n, true);
      NextFront(Bring(t, i, i + 1, n, true)[..n], i, n, true);
      ExchangeNulls(Bring(t, i, i + 1, n, true), i + 1, n);
    }
  }

  /** Sorted upward, they come first. */
  lemma {:induction false} SortedNulls(t: seq<Entry>)
    requires Sorted(t, true)
    ensures Nulls(t) == t[..|Nulls(t)|] && forall k | |Nulls(t)| <= k < |t| :: t[k].place > 0
  {
    if t != [] {
      if t[0].place == 0 {
        SortedNulls(t[1..]);
        assert t[..|Nulls(t)|] == [t[0]] + t[1..][..|Nulls(t[1..])|];
      } else {
        assert forall k | 0 < k < |t| :: Below(t[0], t[k], true);
        NullsNone(t);
      }
    }
  }

  // ----- Downward: every trip moves the first of them behind the others -----

  /** From `i` on, and nowhere else among the first `n`, stand the null places `z`. */
  predicate Block(t: seq<Entry>, i: nat, n: nat, z: seq<Entry>) {
    && i + |z| <= n <= |t| && t[i..i + |z|] == z && (forall k | 0 <= k < |z| :: z[k].place == 0)
    && forall k | 0 <= k < n && !(i <= k < i + |z|) :: t[k].place > 0
  }

  lemma {:induction false} SkipNulls(t: seq<Entry>, i: nat, j: nat, m: nat, n: nat)
    requires i < j <= m <= n <= |t| && forall k | i <= k < m :: t[k].place == 0
    ensures Bring(t, i, j, n, false) == Bring(t, i, m, n, false)
    decreases m - j
  {
    hide Bring, Swap;
    if j < m {
      BringStep(t, i, j, n, false);
      SkipNulls(t, i, j + 1, m, n);
    }
  }

  /** Once the first entry has a place, what follows it and has one keeps one. */
  lemma {:induction false} PlacesStay(t: seq<Entry>, i: nat, j: nat, n: nat)
    requires i < j <= n <= |t| && t[i].place > 0 && forall k | j <= k < n :: t[k].place > 0
    ensures var r := Bring(t, i, j, n, false);
            && r[i].place > 0 && (forall k | j <= k < n :: r[k].place > 0)
            && forall k | 0 <= k < j && k != i :: r[k] == t[k]
    decreases n - j
  {
    hide Bring, Swap;
    BringStep(t, i, j, n, false);
    if j < n {
      var t' := if Below(t[i], t[j], false) then t else Swap(t, i, j);
      SwapIs(t, i, j, t[i := t[j]][j := t[i]]);
      PlacesStay(t', i, j + 1, n);
    }
  }

  function Moved(z: seq<Entry>): (r: seq<Entry>)
    requires z != []
    ensures |r| == |z|
  {
    z[1..] + [z[0]]
  }

  /** A downward trip over null places at `i` up to `m` brings the first of them to `m`. */
  lemma NullTrip(t: seq<Entry>, i: nat, m: nat, n: nat)
    requires i < m < n <= |t| && (forall k | i <= k < m :: t[k].place == 0) && forall k | m <= k < n :: t[k].place > 0
    ensures var r := Bring(t, i, i + 1, n, false);
            && r[m] == t[i] && r[i].place > 0 && (forall k | m < k < n :: r[k].place > 0)
            && forall k | 0 <= k < m && k != i :: r[k] == t[k]
  {
    hide Bring, Swap;
    SkipNulls(t, i, i + 1, m, n);
    BringStep(t, i, m, n, false);
    var u := t[i := t[m]][m := t[i]];
    SwapIs(t, i, m, u);
    PlacesStay(u, i, m + 1, n);
  }

  lemma TurnTrip(t: seq<Entry>, i: nat, n: nat, z: seq<Entry>)
    requires Block(t, i, n, z) && z != [] && i + |z| < n
    ensures Block(Bring(t, i, i + 1, n, false), i + 1, n, Moved(z))
  {
    hide Bring, Moved;
    var m, r := i + |z|, Bring(t, i, i + 1, n, false);
    BlockNull(t, i, n, z);
    NullTrip(t, i, m, n);
    assert r[i + 1..m] == t[i + 1..m];
    MovedSlice(t, r, i, m);
    MovedNull(z);
  }

  lemma BlockNull(t: seq<Entry>, i: nat, n: nat, z: seq<Entry>)
    requires Block(t, i, n, z)
    ensures forall k | i <= k < i + |z| :: t[k].place == 0
  {
    forall k | i <= k < i + |z|
      ensures t[k].place == 0
    {
      assert t[k] == t[i..i + |z|][k - i];
    }
  }

  lemma MovedNull(z: seq<Entry>)
    requires z != [] && forall k | 0 <= k < |z| :: z[k].place == 0
    ensures forall k | 0 <= k < |z| :: Moved(z)[k].place == 0
  {
  }

  lemma MovedSlice(t: seq<Entry>, r: seq<Entry>, i: nat, m: nat)
    requires i < m < |t| == |r| && r[m] == t[i] && r[i + 1..m] == t[i + 1..m]
    ensures r[i + 1..m + 1] == Moved(t[i..m])
  {
    assert r[i + 1..m + 1] == r[i + 1..m] + [r[m]];
    assert t[i..m][1..] == t[i + 1..m];
  }

  lemma {:induction false} NothingMoves(t: seq<Entry>, i: nat, n: nat)
    requires i <= n <= |t| && forall k | i <= k < n :: t[k].place == 0
    ensures Exchange(t, i, n, false) == t
    decreases n - i
  {
    if i + 1 < n {
      SkipNulls(t, i, i + 1, n, n);
      NothingMoves(t, i + 1, n);
    }
  }

  function Turn(z: seq<Entry>, r: nat): (w: seq<Entry>)
    ensures |w| == |z|
    decreases r
  {
    if r == 0 || z == [] then z else Turn(Moved(z), r - 1)
  }

  lemma {:induction false} TurnAt(z: seq<Entry>, r: nat, k: nat)
    requires k < |z|
    ensures Turn(z, r)[k] == z[(k + r) % |z|]
    decreases r
  {
    if r > 0 {
      TurnAt(Moved(z), r - 1, k);
      NextMod(k + r - 1, |z|);
    }
  }

  lemma NextMod(a: nat, m: nat)
    requires m > 0
    ensures (a + 1) % m == if a % m == m - 1 then 0 else a % m + 1
  {
    var q := a / m;
    assert a == m * q + a % m;
    if a % m == m - 1 {
      assert m * (q + 1) == m * q + m;
      ModIs(a + 1, m, q + 1, 0);
    } else {
      ModIs(a + 1, m, q, a % m + 1);
    }
  }

  lemma {:induction false} ExchangeTurns(t: seq<Entry>, i: nat, n: nat, z: seq<Entry>)
    requires Block(t, i, n, z) && z != []
    ensures Block(Exchange(t, i, n, false), n - |z|, n, Turn(z, n - |z| - i))
    decreases n - i
  {
    hide Bring;
    if i + |z| == n {
      BlockNull(t, i, n, z);
      NothingMoves(t, i, n);
    } else {
      hide Block;
      TurnTrip(t, i, n, z);
      ExchangeTurns(Bring(t, i, i + 1, n, false), i + 1, n, Moved(z));
    }
  }

  /** Printing leaves the null places last, turned by as many as there are others. */
  lemma PrintTurns(t: seq<Entry>, n: nat)
    requires n <= |t| && Nulls(t[..n]) != []
    ensures var z := Nulls(t[..n]); Block(Printed(t, n), n - |z|, n, Turn(z, n - |z|))
  {
    hide Nulls, Exchange, Front;
    var u := Exchange(t, 0, n, true);
    FirstFront(t[..n], n, true);
    ExchangeNulls(t, 0, n);
    ExchangeSorts(t, n, true);
    SortedNulls(u[..n]);
    var z := Nulls(t[..n]);
    assert u[..|z|] == u[..n][..|z|];
    forall k | |z| <= k < n
      ensures u[k].place > 0
    {
      assert u[k] == u[..n][k];
    }
    forall k | 0 <= k < |z|
      ensures z[k].place == 0
    {
      assert z[k] in z;
    }
    ExchangeTurns(u, 0, n, z);
  }

  // ----- Where a name leads afterwards -----

  /** The place in the turned block of what stood at `q` among `m`. */
  function Turned(q: nat, r: nat, m: nat): (c: nat)
    requires m > 0
    ensures c < m
  {
    (q - r) % m
  }

  lemma TurnedIs(q: nat, r: nat, m: nat, c: nat)
    requires q < m && c < m
    ensures (c + r) % m == q <==> c == Turned(q, r, m)
  {
    var d := Turned(q, r, m);
    var a := (q - r) / m;
    assert q - r == m * a + d;
    assert m * -a == -(m * a);
    ModIs(d + r, m, -a, q);
    if (c + r) % m == q {
      var b := (c + r) / m;
      assert c + r == m * b + q;
      assert m * (a + b) == m * a + m * b;
      MultipleSize(m, a + b);
    }
  }

  /** Where printing `n` entries puts the null place at `k`, counted from the first of them. */
  function Landing(t: seq<Entry>, n: nat, k: nat): (c: nat)
    requires k < n <= |t| && Nulls(t[..n]) != []
    ensures c < |Nulls(t[..n])|
  {
    Turned(NullsBefore(t, k), n - |Nulls(t[..n])|, |Nulls(t[..n])|)
  }

  lemma BeforeTake(t: seq<Entry>, n: nat, k: nat)
    requires k < n <= |t|
    ensures NullsBefore(t[..n], k) == NullsBefore(t, k) && t[..n][k] == t[k]
  {
    assert t[..n][..k] == t[..k];
  }

  lemma TurnedBlock(t: seq<Entry>, n: nat, c: nat)
    requires n <= |t| && c < |Nulls(t[..n])|
    ensures var z := Nulls(t[..n]); Printed(t, n)[n - |z| + c] == z[(c + n - |z|) % |z|]
  {
    hide Nulls, Printed, Turn;
    var z, u := Nulls(t[..n]), Printed(t, n);
    PrintTurns(t, n);
    TurnAt(z, n - |z|, c);
    assert u[n - |z|..n - |z| + |z|][c] == u[n - |z| + c];
  }

  lemma NullLands(t: seq<Entry>, n: nat, k: nat)
    requires k < n <= |t| && t[k].place == 0
    ensures var z := Nulls(t[..n]); z != [] && Printed(t, n)[n - |z| + Landing(t, n, k)] == t[k]
  {
    hide Nulls, Printed, Turned;
    BeforeTake(t, n, k);
    NullAt(t[..n], k);
    var (z, q) := (Nulls(t[..n]), NullsBefore(t, k));
    TurnedIs(q, n - |z|, |z|, Landing(t, n, k));
    TurnedBlock(t, n, Landing(t, n, k));
  }

  /** The printed range holds a null place only where one lands. */
  lemma LandedFrom(t: seq<Entry>, n: nat, at: nat) returns (k: nat)
    requires at < n <= |t| && Printed(t, n)[at].place == 0
    ensures k < n && t[k].place == 0 && t[k] == Printed(t, n)[at] && Nulls(t[..n]) != []
    ensures at == n - |Nulls(t[..n])| + Landing(t, n, k)
  {
    hide Nulls, Printed, Turned;
    PrintPlaces(t, n, at);
    var z := Nulls(t[..n]);
    var c := at - (n - |z|);
    TurnedBlock(t, n, c);
    k := NullFrom(t[..n], (c + n - |z|) % |z|);
    BeforeTake(t, n, k);
    TurnedIs(NullsBefore(t, k), n - |z|, |z|, c);
  }

  lemma PrintPlaces(t: seq<Entry>, n: nat, at: nat)
    requires at < n <= |t|
    ensures Printed(t, n)[at].place == 0 <==> at >= n - |Nulls(t[..n])|
  {
    hide Nulls, Printed, Turn;
    var z, u := Nulls(t[..n]), Printed(t, n);
    if z != [] {
      PrintTurns(t, n);
      BlockNull(u, n - |z|, n, Turn(z, n - |z|));
    } else {
      PrintedEntry(t, n, at);
      var k: nat :| k < n && t[k] == u[at];
      if t[k].place == 0 {
        BeforeTake(t, n, k);
        NullAt(t[..n], k);
      }
    }
  }

  /** Printing neither adds nor loses an entry. */
  lemma PrintedEntry(t: seq<Entry>, n: nat, at: nat)
    requires at < n <= |t|
    ensures exists k: nat :: k < n && t[k] == Printed(t, n)[at]
    ensures exists k: nat :: k < n && Printed(t, n)[k] == t[at]
  {
    hide Printed;
    PrintSorts(t, n);
    var u := Printed(t, n);
    assert u[..n][at] == u[at] && t[..n][at] == t[at];
    assert u[at] in multiset(u[..n]) && t[at] in multiset(t[..n]);
    assert u[at] in t[..n] && t[at] in u[..n];
    var k: nat :| k < n && t[..n][k] == u[at];
    var l: nat :| l < n && u[..n][l] == t[at];
    assert t[k] == u[at] && u[l] == t[at];
  }

  /** Among the first `n` entries is one that ends the table, and those that do
      have a null place. */
  predicate EndsWithin(t: seq<Entry>, n: nat)
    requires n <= |t|
  {
    (exists j :: 0 <= j < n && t[j].name.None?) && forall j | 0 <= j < n && t[j].name.None? :: t[j].place == 0
  }

  /** An entry that is still found: it has a place, or lands before all that end the table. */
  ghost predicate Stays(t: seq<Entry>, n: nat, k: nat)
    requires k < n <= |t| && Nulls(t[..n]) != []
  {
    t[k].place > 0 || forall j: nat | j < n && t[j].name.None? :: Landing(t, n, k) < Landing(t, n, j)
  }

  lemma SomeNull(t: seq<Entry>, n: nat)
    requires n <= |t| && EndsWithin(t, n)
    ensures Nulls(t[..n]) != [] && Terminated(t) && Terminated(Printed(t, n))
  {
    hide Nulls, Printed;
    var j: nat :| j < n && t[j].name.None?;
    NullLands(t, n, j);
  }

  lemma PrintedDistinct(t: seq<Entry>, n: nat, i: nat, j: nat)
    requires n <= |t| && Distinct(t[..n]) && i < n && j < n
    requires var u := Printed(t, n); u[i].name.Some? && u[i].name == u[j].name
    ensures i == j
  {
    hide Printed, Distinct;
    PrintSorts(t, n);
    var u := Printed(t, n);
    DistinctPermuted(t[..n], u[..n]);
    assert u[..n][i] == u[i] && u[..n][j] == u[j];
    Different(u[..n], i, j);
  }

  lemma Different(t: seq<Entry>, i: nat, j: nat)
    requires Distinct(t) && i < |t| && j < |t| && t[i].name.Some? && t[i].name == t[j].name
    ensures i == j
  {
  }

  /** With distinct names, after printing an entry's name leads to it exactly when it stays. */
  lemma PrintLeadsTo(t: seq<Entry>, n: nat, k: nat, s: string)
    requires k < n <= |t| && t[k].name == Some(s) && Distinct(t[..n]) && EndsWithin(t, n)
    ensures Nulls(t[..n]) != [] && Terminated(Printed(t, n))
    ensures Lookup(Printed(t, n), s) == if Stays(t, n, k) then Some(t[k]) else None
  {
    hide Printed, Nulls, Distinct, Landing, Stop;
    SomeNull(t, n);
    var u, first := Printed(t, n), n - |Nulls(t[..n])|;
    PrintedEntry(t, n, k);
    var at: nat :| at < n && u[at] == t[k];
    if t[k].place == 0 {
      NullLands(t, n, k);
      PrintedDistinct(t, n, at, first + Landing(t, n, k));
    }
    PrintPlaces(t, n, at);
    if Stays(t, n, k) {
      forall j: nat | j < at
        ensures u[j].name.Some? && u[j].name != Some(s)
      {
        if u[j].name == Some(s) {
          PrintedDistinct(t, n, j, at);
        }
        if u[j].name.None? {
          PrintedEntry(t, n, j);
          var i := LandedFrom(t, n, j);
          PrintPlaces(t, n, j);
        }
      }
      StopIs(u, s, at);
    } else {
      var j: nat :| j < n && t[j].name.None? && Landing(t, n, j) <= Landing(t, n, k);
      NullLands(t, n, j);
      var stop := Stop(u, s);
      assert stop <= first + Landing(t, n, j);
      if u[stop].name == Some(s) {
        PrintedDistinct(t, n, stop, at);
      }
    }
  }

  /** So printing changes where a name of the range leads exactly when the entry
      stood behind one that ends the table and stays, or before and does not. */
  lemma PrintKeepsExactly(t: seq<Entry>, n: nat, k: nat, s: string)
    requires k < n <= |t| && t[k].name == Some(s) && Distinct(t[..n]) && EndsWithin(t, n)
    ensures Nulls(t[..n]) != [] && Terminated(t) && Terminated(Printed(t, n))
    ensures Lookup(Printed(t, n), s) == Lookup(t, s)
            <==> (Stays(t, n, k) <==> forall j | 0 <= j < k :: t[j].name.Some?)
  {
    hide Printed, Nulls, Stays, Distinct, Stop;
    SomeNull(t, n);
    PrintLeadsTo(t, n, k, s);
    var stop := Stop(t, s);
    assert stop <= k;
    if t[stop].name == Some(s) {
      assert t[..n][stop] == t[stop] && t[..n][k] == t[k];
      Different(t[..n], stop, k);
    }
  }

  /** A name outside the range leads nowhere, before and after. */
  lemma PrintKeepsOthers(t: seq<Entry>, n: nat, s: string)
    requires n <= |t| && EndsWithin(t, n) && forall k | 0 <= k < n :: t[k].name != Some(s)
    ensures Terminated(t) && Terminated(Printed(t, n))
    ensures Lookup(t, s) == None && Lookup(Printed(t, n), s) == None
  {
    hide Printed, Nulls, Stop;
    SomeNull(t, n);
    var u := Printed(t, n);
    var j: nat :| j < n && t[j].name.None?;
    NullLands(t, n, j);
    var stop := Stop(u, s);
    assert stop < n;
    PrintedEntry(t, n, stop);
    assert Stop(t, s) <= j;
  }

  /** When the entry that ends the table is the last of the range and the only
      one, an entry with a null place stays exactly when at least as many null
      places stand before it as the places there are leave over. */
  lemma StaysLast(t: seq<Entry>, n: nat, k: nat)
    requires k < n - 1 < |t| && t[k].place == 0 && t[n - 1].name.None? && t[n - 1].place == 0
    requires forall j | 0 <= j < n - 1 :: t[j].name.Some?
    ensures var m := |Nulls(t[..n])|; m > 0 && (Stays(t, n, k) <==> NullsBefore(t, k) >= (n - m) % m)
  {
    hide Nulls, Turned;
    NullLands(t, n, k);
    NullLands(t, n, n - 1);
    var (m, q) := (|Nulls(t[..n])|, NullsBefore(t, k));
    BeforeTake(t, n, k);
    NullAt(t[..n], k);
    LastNull(t[..n]);
    BeforeTake(t, n, n - 1);
    assert forall j: nat | j < n && t[j].name.None? :: j == n - 1;
    BeforeLast(t, n, k);
    TurnedLess(q, n - m, m);
  }

  lemma BeforeLast(t: seq<Entry>, n: nat, k: nat)
    requires k < n - 1 < |t| && t[k].place == 0 && t[n - 1].place == 0
    ensures NullsBefore(t, k) < |Nulls(t[..n])| - 1
  {
    BeforeTake(t, n - 1, k);
    NullAt(t[..n - 1], k);
    LastNull(t[..n]);
    assert t[..n][..n - 1] == t[..n - 1];
  }

  lemma LastNull(t: seq<Entry>)
    requires t != [] && t[|t| - 1].place == 0
    ensures |Nulls(t)| == NullsBefore(t, |t| - 1) + 1
  {
    NullsSplit(t, |t| - 1);
    assert t[|t| - 1 + 1..] == [];
  }

  lemma TurnedLess(q: nat, r: nat, m: nat)
    requires q < m - 1
    ensures Turned(q, r, m) < Turned(m - 1, r, m) <==> q >= r % m
  {
    var c := r % m;
    var a := r / m;
    assert r == m * a + c;
    ModIs(m - 1 - c + r, m, a, m - 1);
    TurnedIs(m - 1, r, m, m - 1 - c);
    if q >= c {
      ModIs(q - c + r, m, a, q);
      TurnedIs(q, r, m, q - c);
    } else {
      assert m * (a + 1) == m * a + m;
      ModIs(q - c + m + r, m, a + 1, q);
      TurnedIs(q, r, m, q - c + m);
    }
  }

  /** A real table: an entry with a place, one without, and the end. After
      printing, the second is no longer found. */
  lemma PrintLosesEntry(x: string, a: string)
    requires x != a
    ensures var t := [Entry(Some(x), 5, INT_32, SINGLE), Entry(Some(a), 0, INT_32, SINGLE),
                      Entry(None, 0, OTHER, SINGLE)];
            && Terminated(t) && Terminated(Printed(t, 3))
            && Lookup(t, a) == Some(t[1]) && Lookup(Printed(t, 3), a) == None
  {
    hide Printed, Nulls, Lookup;
    var t := [Entry(Some(x), 5, INT_32, SINGLE), Entry(Some(a), 0, INT_32, SINGLE), Entry(None, 0, OTHER, SINGLE)];
    assert t[..3] == t && t[2].name.None?;
    PrintLeadsTo(t, 3, 1, a);
    StaysLast(t, 3, 1);
    NullCounts(t);
    LookupSecond(t, a);
  }

  lemma NullCounts(t: seq<Entry>)
    requires |t| == 3 && t[0].place > 0 && t[1].place == 0 && t[2].place == 0
    ensures |Nulls(t)| == 2 && NullsBefore(t, 1) == 0
  {
    NullsFrom(t, 0);
    NullsFrom(t, 1);
    assert t[0..] == t && t[2..] == [t[2]] && t[3..] == [] && t[..1] == [t[0]];
    assert |Nulls([t[0]])| == 0 && |Nulls([t[1]])| == 1 && |Nulls([t[2]])| == 1;
  }

  lemma LookupSecond(t: seq<Entry>, a: string)
    requires |t| == 3 && t[0].name.Some? && t[0].name != Some(a) && t[1].name == Some(a) && t[2].name.None?
    ensures Terminated(t) && Lookup(t, a) == Some(t[1])
  {
    assert Terminated(t);
    StopIs(t, a, 1);
  }
}
