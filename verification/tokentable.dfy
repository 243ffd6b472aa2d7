/** The token table of the config parser: looking a name up, and sorting the
    table in place to print it. */
module TokenTable {
  import opened Wrappers

  datatype InfoType = STRING | INT_8 | INT_16 | INT_32 | FLOAT | OTHER

  datatype Category = SINGLE | MULTI

  /** `name` is absent in the entry that ends the table; a null place is 0. */
  datatype Entry = Entry(name: Option<string>, place: nat, typ: InfoType, cat: Category)

  // ----- Looking a name up -----

  predicate Terminated(table: seq<Entry>) {
    exists i :: 0 <= i < |table| && table[i].name.None?
  }

  /** The first entry named `s`, or the one that ends the table. */
  function Stop(table: seq<Entry>, s: string): (i: nat)
    requires Terminated(table)
    ensures i < |table| && (table[i].name.None? || table[i].name == Some(s))
    ensures forall j | 0 <= j < i :: table[j].name.Some? && table[j].name != Some(s)
  {
    if table[0].name.None? || table[0].name == Some(s) then 0
    else
      assert Terminated(table[1..]) by {
        var i :| 0 <= i < |table| && table[i].name.None?;
        assert table[1..][i - 1].name.None?;
      }
      1 + Stop(table[1..], s)
  }

  /** What a name leads to. */
  function Lookup(table: seq<Entry>, s: string): (e: Option<Entry>)
    requires Terminated(table)
  {
    var e := table[Stop(table, s)];
    if e.name.None? then None else Some(e)
  }

  lemma StopIs(table: seq<Entry>, s: string, i: nat)
    requires Terminated(table) && i < |table|
    requires table[i].name.None? || table[i].name == Some(s)
    requires forall j | 0 <= j < i :: table[j].name.Some? && table[j].name != Some(s)
    ensures Stop(table, s) == i
  {
  }

  method ParameterNameToMapIndex(table: array<Entry>, s: string) returns (r: int)
    requires Terminated(table[..])
    ensures r == -1 <==> Lookup(table[..], s) == None
    ensures r != -1 ==> 0 <= r < table.Length && Lookup(table[..], s) == Some(table[r])
  {
    var i := 0;
    ghost var end := Stop(table[..], s);
    while table[i].name.Some?
      invariant 0 <= i <= end < table.Length
      decreases end - i
    {
      if table[i].name.value == s {
        return i;
      }
      i := i + 1;
    }
    return -1;
  }

  // ----- Sorting -----

  predicate Below(x: Entry, y: Entry, up: bool) {
    if up then x.place <= y.place else x.place >= y.place
  }

  predicate Sorted(t: seq<Entry>, up: bool) {
    forall i, j | 0 <= i < j < |t| :: Below(t[i], t[j], up)
  }

  function Swap(t: seq<Entry>, i: nat, j: nat): (r: seq<Entry>)
    requires i < |t| && j < |t|
    ensures |r| == |t|
    ensures multiset(r) == multiset(t)
  {
    t[i := t[j]][j := t[i]]
  }

  /** One trip of the outer loop: `t[i]` becomes the least of what follows. */
  ghost predicate Front(t: seq<Entry>, i: nat, j: nat, n: nat, up: bool) {
    && i < j <= n <= |t|
    && (forall k, l | 0 <= k < i && k < l < n :: Below(t[k], t[l], up))
    && forall k | i < k < j :: Below(t[i], t[k], up)
  }

  lemma SwapFront(t: seq<Entry>, i: nat, j: nat, n: nat, up: bool)
    requires Front(t, i, j, n, up) && j < n && !Below(t[i], t[j], up)
    ensures Front(Swap(t, i, j), i, j + 1, n, up)
  {
    var r := Swap(t, i, j);
    forall k, l | 0 <= k < i && k < l < n
      ensures Below(r[k], r[l], up)
    {
      assert Below(t[k], t[l], up) && Below(t[k], t[i], up) && Below(t[k], t[j], up);
    }
    forall k | i < k < j + 1
      ensures Below(r[i], r[k], up)
    {
      if k < j {
        assert Below(t[i], t[k], up);
      }
    }
  }

  /** The table's first `n` entries rearranged. */
  ghost predicate Rearranged(t: seq<Entry>, u: seq<Entry>, n: nat) {
    |t| == |u| && n <= |t| && multiset(u[..n]) == multiset(t[..n]) && u[n..] == t[n..]
  }

  lemma SwapRearranges(t: seq<Entry>, u: seq<Entry>, n: nat, i: nat, j: nat)
    requires Rearranged(t, u, n) && i < n && j < n
    ensures Rearranged(t, Swap(u, i, j), n)
  {
    assert Swap(u, i, j)[..n] == Swap(u[..n], i, j);
    assert Swap(u, i, j)[n..] == u[n..];
  }

  // ----- What the exchanges do -----

  /** The inner loop from `j` on. */
  function Bring(t: seq<Entry>, i: nat, j: nat, n: nat, up: bool): (r: seq<Entry>)
    requires i < j && n <= |t|
    ensures |r| == |t|
    decreases n - j
  {
    if j >= n then t else Bring(if Below(t[i], t[j], up) then t else Swap(t, i, j), i, j + 1, n, up)
  }

  /** The outer loop from `i` on. */
  function Exchange(t: seq<Entry>, i: nat, n: nat, up: bool): (r: seq<Entry>)
    requires n <= |t|
    ensures |r| == |t|
    decreases n - i
  {
    if i + 1 >= n then t else Exchange(Bring(t, i, i + 1, n, up), i + 1, n, up)
  }

  function Printed(t: seq<Entry>, n: nat): (r: seq<Entry>)
    requires n <= |t|
    ensures |r| == |t|
  {
    Exchange(Exchange(t, 0, n, true), 0, n, false)
  }

  lemma {:induction false} BringFronts(t: seq<Entry>, i: nat, j: nat, n: nat, up: bool)
    requires n <= |t| && Front(t[..n], i, j, n, up)
    ensures Front(Bring(t, i, j, n, up)[..n], i, n, n, up) && Rearranged(t, Bring(t, i, j, n, up), n)
    decreases n - j
  {
    hide Rearranged, Front, Below, Swap;
    FrontBounds(t[..n], i, j, n, up);
    if j >= n {
      RearrangedItself(t, n);
    } else if Below(t[i], t[j], up) {
      NoSwapFront(t[..n], i, j, n, up);
      BringFronts(t, i, j + 1, n, up);
    } else {
      var t' := Swap(t, i, j);
      SwapTake(t, i, j, n);
      SwapFront(t[..n], i, j, n, up);
      RearrangedItself(t, n);
      SwapRearranges(t, t, n, i, j);
      BringFronts(t', i, j + 1, n, up);
      RearrangedTwice(t, t', Bring(t', i, j + 1, n, up), n);
    }
  }

  lemma FrontBounds(t: seq<Entry>, i: nat, j: nat, n: nat, up: bool)
    requires Front(t, i, j, n, up)
    ensures i < j <= n
  {
  }

  lemma SwapTake(t: seq<Entry>, i: nat, j: nat, n: nat)
    requires i < n && j < n && n <= |t|
    ensures Swap(t, i, j)[..n] == Swap(t[..n], i, j)
  {
  }

  lemma {:induction false} ExchangeFronts(t: seq<Entry>, i: nat, n: nat, up: bool)
    requires i < n <= |t| && Front(t[..n], i, i + 1, n, up)
    ensures Sorted(Exchange(t, i, n, up)[..n], up) && Rearranged(t, Exchange(t, i, n, up), n)
    decreases n - i
  {
    hide Rearranged, Front, Below, Bring, Sorted;
    if i + 1 >= n {
      RearrangedItself(t, n);
      FrontSorted(t[..n], i, n, up);
    } else {
      var t' := Bring(t, i, i + 1, n, up);
      BringFronts(t, i, i + 1, n, up);
      NextFront(t'[..n], i, n, up);
      ExchangeFronts(t', i + 1, n, up);
      RearrangedTwice(t, t', Exchange(t, i, n, up), n);
    }
  }

  /** The exchange sort sorts the first `n` entries and leaves the rest. */
  lemma ExchangeSorts(t: seq<Entry>, n: nat, up: bool)
    requires n <= |t|
    ensures Sorted(Exchange(t, 0, n, up)[..n], up) && Rearranged(t, Exchange(t, 0, n, up), n)
  {
    if n > 0 {
      FirstFront(t[..n], n, up);
      ExchangeFronts(t, 0, n, up);
    }
  }

  lemma PrintSorts(t: seq<Entry>, n: nat)
    requires n <= |t|
    ensures Sorted(Printed(t, n)[..n], false) && Rearranged(t, Printed(t, n), n)
  {
    hide Rearranged, Exchange, Sorted;
    ExchangeSorts(t, n, true);
    ExchangeSorts(Exchange(t, 0, n, true), n, false);
    RearrangedTwice(t, Exchange(t, 0, n, true), Printed(t, n), n);
  }

  lemma RearrangedItself(t: seq<Entry>, n: nat)
    requires n <= |t|
    ensures Rearranged(t, t, n)
  {
  }

  lemma RearrangedTwice(t: seq<Entry>, u: seq<Entry>, v: seq<Entry>, n: nat)
    requires Rearranged(t, u, n) && Rearranged(u, v, n)
    ensures Rearranged(t, v, n)
  {
  }

  lemma NoSwapFront(t: seq<Entry>, i: nat, j: nat, n: nat, up: bool)
    requires Front(t, i, j, n, up) && j < n && Below(t[i], t[j], up)
    ensures Front(t, i, j + 1, n, up)
  {
  }

  lemma FirstFront(t: seq<Entry>, n: nat, up: bool)
    requires 0 < n <= |t|
    ensures Front(t, 0, 1, n, up)
  {
  }

  lemma NextFront(t: seq<Entry>, i: nat, n: nat, up: bool)
    requires Front(t, i, n, n, up) && i + 1 < n
    ensures Front(t, i + 1, i + 2, n, up)
  {
  }

  lemma FrontSorted(t: seq<Entry>, i: nat, n: nat, up: bool)
    requires n == |t| && i == n - 1 && Front(t, i, i + 1, n, up)
    ensures Sorted(t, up)
  {
  }

  lemma BringStep(t: seq<Entry>, i: nat, j: nat, n: nat, up: bool)
    requires i < j && n <= |t|
    ensures Bring(t, i, j, n, up)
         == if j >= n then t else Bring(if Below(t[i], t[j], up) then t else Swap(t, i, j), i, j + 1, n, up)
  {
  }

  lemma SwapIs(t: seq<Entry>, i: nat, j: nat, u: seq<Entry>)
    requires i < |t| && j < |t| && u == t[i := t[j]][j := t[i]]
    ensures u == Swap(t, i, j)
  {
  }

  // ----- The sorts in place -----

  /** The inner loop. */
  method BringFront(table: array<Entry>, i: nat, n: nat, up: bool)
    requires i < n <= table.Length
    modifies table
    ensures table[..] == Bring(old(table[..]), i, i + 1, n, up)
  {
    hide Bring, Swap;
    ghost var all := Bring(table[..], i, i + 1, n, up);
    var j := i + 1;
    while j < n
      invariant i + 1 <= j <= n && Bring(table[..], i, j, n, up) == all
    {
      BringStep(table[..], i, j, n, up);
      if (if up then table[j].place < table[i].place else table[j].place > table[i].place) {
        ghost var t := table[..];
        table[i], table[j] := table[j], table[i];
        SwapIs(t, i, j, table[..]);
      }
      j := j + 1;
    }
    BringStep(table[..], i, j, n, up);
  }

  /** The exchange sort, upward for `sortTokenMapInr` and downward for `sortTokenMapDcr`. */
  method SortTokenMap(table: array<Entry>, n: nat, up: bool)
    requires n <= table.Length
    modifies table
    ensures table[..] == Exchange(old(table[..]), 0, n, up)
    ensures Sorted(table[..n], up) && Rearranged(old(table[..]), table[..], n)
  {
    hide Rearranged, Bring, Below;
    ghost var all := Exchange(table[..], 0, n, up);
    ExchangeSorts(table[..], n, up);
    var i := 0;
    while i < n - 1
      invariant 0 <= i && Exchange(table[..], i, n, up) == all
    {
      BringFront(table, i, n, up);
      i := i + 1;
    }
    assert table[..n] == all[..n];
  }

  /** What `printparams` does to the table. */
  method PrintParams(table: array<Entry>, n: nat)
    requires n <= table.Length
    modifies table
    ensures table[..] == Printed(old(table[..]), n)
    ensures Sorted(table[..n], false) && Rearranged(old(table[..]), table[..], n)
  {
    hide Rearranged, Exchange;
    PrintSorts(table[..], n);
    SortTokenMap(table, n, true);
    SortTokenMap(table, n, false);
    assert table[..n] == table[..][..n];
  }

  // ----- Sorting does not disturb lookup -----

  ghost predicate Distinct(t: seq<Entry>) {
    forall i, j | 0 <= i < j < |t| && t[i].name.Some? :: t[i].name != t[j].name
  }

  ghost predicate AllNamed(t: seq<Entry>) {
    forall i | 0 <= i < |t| :: t[i].name.Some?
  }

  /** In a table whose names differ, a name leads to the entry that carries it. */
  lemma LookupIs(t: seq<Entry>, rest: seq<Entry>, s: string)
    requires AllNamed(t) && Distinct(t) && rest != [] && rest[0].name.None?
    ensures Terminated(t + rest)
    ensures forall e | e in t && e.name == Some(s) :: Lookup(t + rest, s) == Some(e)
    ensures (forall e | e in t :: e.name != Some(s)) ==> Lookup(t + rest, s) == None
  {
    var all := t + rest;
    assert all[|t|].name.None?;
    if i :| 0 <= i < |t| && t[i].name == Some(s) {
      StopIs(all, s, i);
    } else {
      StopIs(all, s, |t|);
    }
  }

  /** Distinctness is a matter of which entries there are, not of their order. */
  lemma {:induction false} DistinctPermuted(t: seq<Entry>, u: seq<Entry>)
    requires multiset(t) == multiset(u) && Distinct(t)
    ensures Distinct(u) && (AllNamed(t) ==> AllNamed(u)) && forall e :: e in t <==> e in u
  {
    forall e
      ensures e in t <==> e in u
    {
      assert e in multiset(t) <==> e in multiset(u);
    }
    forall i | 0 <= i < |u|
      ensures u[i] in t
    {
      assert u[i] in u;
    }
    forall i, j | 0 <= i < j < |u| && u[i].name.Some?
      ensures u[i].name != u[j].name
    {
      if u[i].name == u[j].name {
        SameNameSameEntry(t, u[i], u[j]);
        TwiceThere(u, i, j);
        TwiceFrom(t, u[i]);
        assert false;
      }
    }
  }

  lemma SameNameSameEntry(t: seq<Entry>, x: Entry, y: Entry)
    requires Distinct(t) && x in t && y in t && x.name == y.name && x.name.Some?
    ensures x == y
  {
  }

  lemma TwiceThere(t: seq<Entry>, i: nat, j: nat)
    requires i < j < |t| && t[i] == t[j]
    ensures multiset(t)[t[i]] >= 2
  {
    assert t == t[..j] + t[j..];
    assert t[i] in t[..j] && t[i] in t[j..];
    assert multiset(t[..j])[t[i]] >= 1 && multiset(t[j..])[t[i]] >= 1;
  }

  lemma TwiceFrom(t: seq<Entry>, e: Entry)
    requires multiset(t)[e] >= 2
    ensures exists i, j :: 0 <= i < j < |t| && t[i] == e == t[j]
  {
    var i :| 0 <= i < |t| && t[i] == e;
    assert t == t[..i] + [e] + t[i + 1..];
    var rest := t[..i] + t[i + 1..];
    assert multiset(t) == multiset(rest) + multiset{e};
    assert e in rest;
    var k :| 0 <= k < |rest| && rest[k] == e;
    if k < i {
      assert t[k] == e;
    } else {
      assert t[k + 1] == e;
    }
  }

  /** Entries in another order lead every name to the same entry. */
  lemma LookupPermuted(t: seq<Entry>, u: seq<Entry>, rest: seq<Entry>, rest': seq<Entry>, s: string)
    requires multiset(t) == multiset(u) && AllNamed(t) && Distinct(t)
    requires rest != [] && rest[0].name.None? && rest' != [] && rest'[0].name.None?
    ensures Terminated(t + rest) && Terminated(u + rest')
    ensures Lookup(u + rest', s) == Lookup(t + rest, s)
  {
    DistinctPermuted(t, u);
    LookupIs(t, rest, s);
    LookupIs(u, rest', s);
    if i :| 0 <= i < |t| && t[i].name == Some(s) {
      assert t[i] in u;
    } else {
      assert forall e | e in u :: e in t;
    }
  }

  /** With the terminator beyond the entries that are sorted, every name still
      leads to the same entry. */
  lemma PrintKeepsLookup(t: seq<Entry>, u: seq<Entry>, n: nat, end: nat, s: string)
    requires Rearranged(t, u, n) && n <= end < |t|
    requires AllNamed(t[..end]) && Distinct(t[..end]) && t[end].name.None?
    ensures Terminated(t) && Terminated(u) && Lookup(u, s) == Lookup(t, s)
  {
    assert t == t[..end] + t[end..] && u == u[..end] + u[end..];
    assert u[end] == u[n..][end - n] && t[end] == t[n..][end - n];
    assert t[..end] == t[..n] + t[n..][..end - n] && u[..end] == u[..n] + u[n..][..end - n];
    LookupPermuted(t[..end], u[..end], t[end..], u[end..], s);
  }

  /** With the terminator last among the sorted entries and its place the only
      null one, it comes out last again, and every name leads to the same entry. */
  lemma PrintKeepsTerminator(t: seq<Entry>, u: seq<Entry>, n: nat, s: string)
    requires Rearranged(t, u, n) && n > 0 && Sorted(u[..n], false)
    requires AllNamed(t[..n - 1]) && Distinct(t[..n - 1]) && t[n - 1].name.None? && t[n - 1].place == 0
    requires forall i | 0 <= i < n - 1 :: t[i].place > 0
    ensures Terminated(t) && Terminated(u) && Lookup(u, s) == Lookup(t, s)
  {
    hide Sorted, Distinct, Lookup;
    LastIsNull(t[..n], u[..n], t[n - 1]);
    WithoutLast(t, n);
    WithoutLast(u, n);
    LookupPermuted(t[..n - 1], u[..n - 1], t[n - 1..], u[n - 1..], s);
  }

  lemma WithoutLast(t: seq<Entry>, n: nat)
    requires 0 < n <= |t|
    ensures multiset(t[..n - 1]) == multiset(t[..n]) - multiset{t[n - 1]}
    ensures t == t[..n - 1] + t[n - 1..]
  {
    assert t[..n] == t[..n - 1] + [t[n - 1]];
  }

  lemma LastIsNull(t: seq<Entry>, u: seq<Entry>, e: Entry)
    requires multiset(t) == multiset(u) && t != [] && Sorted(u, false)
    requires t[|t| - 1] == e && e.place == 0 && forall i | 0 <= i < |t| - 1 :: t[i].place > 0
    ensures u != [] && u[|u| - 1] == e
  {
    assert e in multiset(t);
    var i :| 0 <= i < |u| && u[i] == e;
    var last := u[|u| - 1];
    assert i < |u| - 1 ==> Below(u[i], last, false);
    assert last.place == 0;
    assert last in multiset(u);
    var j :| 0 <= j < |t| && t[j] == last;
  }
}
