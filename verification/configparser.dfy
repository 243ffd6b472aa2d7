/** The second stage of the config parser: the items fill the places the token
    table names. */
module ConfigParser {
  import opened Wrappers
  import opened ConfigTokens
  import opened TokenTable

  /** What a place holds. A FLOAT is kept as the text its number is read from. */
  datatype Value = Int(value: int) | Float(text: string) | Text(text: string)

  type Memory = map<nat, Value>

  // ----- Reading an integer, as sscanf's %d does -----

  predicate IsSpace(c: char) {
    c == ' ' || c == '\t' || c == '\n' || c == CR || c == 11 as char || c == 12 as char
  }

  predicate IsDigit(c: char) {
    '0' <= c <= '9'
  }

  function SkipSpace(s: string): string {
    if s != [] && IsSpace(s[0]) then SkipSpace(s[1..]) else s
  }

  /** The number the leading digits continue, after those that make `n`. */
  function Digits(s: string, n: nat): nat {
    if s == [] || !IsDigit(s[0]) then n else Digits(s[1..], 10 * n + (s[0] - '0') as nat)
  }

  function ReadInt(s: string): Option<int> {
    var t := SkipSpace(s);
    var signed := t != [] && (t[0] == '-' || t[0] == '+');
    var u := if signed then t[1..] else t;
    if u == [] || !IsDigit(u[0]) then None
    else Some(if signed && t[0] == '-' then -(Digits(u, 0) as int) else Digits(u, 0))
  }

  // ----- Storing values -----

  /** The number as the place's type holds it. */
  function Narrowed(typ: InfoType, v: int): int {
    if typ.INT_8? then v % 256
    else if typ.INT_16? then (v + 32768) % 65536 - 32768
    else v
  }

  function Width(typ: InfoType): nat {
    if typ.INT_8? then 1 else if typ.INT_16? then 2 else 4
  }

  /** A text that is no number leaves the number read before. */
  function NumberFrom(text: string, num: int): int {
    var r := ReadInt(text);
    if r.Some? then r.value else num
  }

  /** The cells after value number `k` is stored. */
  function Store(e: Entry, k: nat, text: string, mem: Memory, num: int): Memory {
    mem[e.place + k * Width(e.typ) :=
      if e.typ.FLOAT? then Float(text) else Int(Narrowed(e.typ, NumberFrom(text, num)))]
  }

  /** Where the values of one parameter end, or that the items run out first. */
  datatype ValuesEnd = RanOut | Ended(rest: seq<string>, mem: Memory, num: int)

  /** The values up to the end of the line; only the first when `e` is SINGLE. */
  function Values(ts: seq<string>, e: Entry, k: nat, assign: bool, mem: Memory, num: int): (r: ValuesEnd)
    requires ts != []
    ensures r.Ended? ==> 0 < |r.rest| <= |ts|
  {
    if assign && e.typ.OTHER? then Ended(ts, mem, num)
    else
      var mem' := if assign then Store(e, k, ts[0], mem, num) else mem;
      var num' := if assign && !e.typ.FLOAT? then NumberFrom(ts[0], num) else num;
      if |ts| == 1 then RanOut
      else if ts[1] == LINE_END then Ended(ts[1..], mem', num')
      else Values(ts[1..], e, k + 1, assign && e.cat.MULTI?, mem', num')
  }

  /** `Refused` when a parameter is not followed by "="; `PastEnd` when the items run
      out in the middle of a parameter. */
  datatype Outcome = Done(mem: Memory) | Refused(mem: Memory) | PastEnd

  /** The last item is never looked at as a name. */
  function Assign(ts: seq<string>, table: seq<Entry>, mem: Memory, num: int): Outcome
    requires Terminated(table)
    decreases |ts|
  {
    if |ts| <= 1 then Done(mem)
    else
      var found := Lookup(table, ts[0]);
      if found.None? then Assign(ts[1..], table, mem, num)
      else if ts[1] != "=" then Refused(mem)
      else if |ts| == 2 then PastEnd
      else if found.value.typ.STRING? then
        Assign(ts[3..], table, mem[found.value.place := Text(ts[2])], num)
      else
        var v := Values(ts[2..], found.value, 0, true, mem, num);
        if v.RanOut? then PastEnd else Assign(v.rest[1..], table, v.mem, v.num)
  }

  // ----- When the items run out -----

  /** One trip of the loop over the items. */
  lemma AssignStep(ts: seq<string>, i: nat, table: seq<Entry>, mem: Memory, num: int)
    requires Terminated(table) && i + 1 < |ts|
    ensures var found := Lookup(table, ts[i]);
            Assign(ts[i..], table, mem, num)
            == if found.None? then Assign(ts[i + 1..], table, mem, num)
               else if ts[i + 1] != "=" then Refused(mem)
               else if i + 2 == |ts| then PastEnd
               else if found.value.typ.STRING? then
                 Assign(ts[i + 3..], table, mem[found.value.place := Text(ts[i + 2])], num)
               else
                 var v := Values(ts[i + 2..], found.value, 0, true, mem, num);
                 if v.RanOut? then PastEnd else Assign(v.rest[1..], table, v.mem, v.num)
  {
    hide Values, Lookup;
    var s := ts[i..];
    assert s[1..] == ts[i + 1..] && s[2..] == ts[i + 2..];
    assert i + 2 < |ts| ==> s[3..] == ts[i + 3..];
  }

  lemma AssignEnd(ts: seq<string>, i: nat, table: seq<Entry>, mem: Memory, num: int)
    requires Terminated(table) && i <= |ts| <= i + 1
    ensures Assign(ts[i..], table, mem, num) == Done(mem)
  {
  }

  /** The first line end at or after position `i`, or the number of items. */
  function LineEndAt(ts: seq<string>, i: nat): (r: nat)
    requires i <= |ts|
    ensures i <= r <= |ts| && (r < |ts| ==> ts[r] == LINE_END)
    ensures forall j | i <= j < r :: ts[j] != LINE_END
    decreases |ts| - i
  {
    if i == |ts| || ts[i] == LINE_END then i else LineEndAt(ts, i + 1)
  }

  predicate Numeric(typ: InfoType) {
    typ.INT_8? || typ.INT_16? || typ.INT_32? || typ.FLOAT?
  }

  /** Where the next name is looked for after the one at `i`, unless the stage
      stops there or the items run out. */
  function NextName(ts: seq<string>, table: seq<Entry>, i: nat): (r: Option<nat>)
    requires Terminated(table) && i + 1 < |ts|
    ensures r.Some? ==> i < r.value <= |ts|
  {
    var found := Lookup(table, ts[i]);
    if found.None? then Some(i + 1)
    else if ts[i + 1] != "=" || i + 2 == |ts| then None
    else if !Numeric(found.value.typ) then Some(i + 3)
    else
      var end := LineEndAt(ts, i + 3);
      if end == |ts| then None else Some(end + 1)
  }

  /** The item at `j` is looked at as a name when the stage starts at `i`. */
  predicate Reaches(ts: seq<string>, table: seq<Entry>, i: nat, j: nat)
    requires Terminated(table)
    decreases |ts| - i
  {
    i == j || (i + 1 < |ts| && NextName(ts, table, i).Some? && Reaches(ts, table, NextName(ts, table, i).value, j))
  }

  /** A parameter with nothing after its "=", or a numeric one with no line end
      after its first value. */
  predicate Stuck(ts: seq<string>, table: seq<Entry>, i: nat)
    requires Terminated(table)
  {
    && i + 1 < |ts| && Lookup(table, ts[i]).Some? && ts[i + 1] == "="
    && (i + 2 == |ts| || (Numeric(Lookup(table, ts[i]).value.typ) && LINE_END !in ts[i + 3..]))
  }

  /** A name that is not followed by "=". */
  predicate Unassigned(ts: seq<string>, table: seq<Entry>, i: nat)
    requires Terminated(table)
  {
    i + 1 < |ts| && Lookup(table, ts[i]).Some? && ts[i + 1] != "="
  }

  predicate RunsOutFrom(ts: seq<string>, table: seq<Entry>, i: nat)
    requires Terminated(table)
  {
    exists j | 0 <= j < |ts| :: Reaches(ts, table, i, j) && Stuck(ts, table, j)
  }

  predicate RefusesFrom(ts: seq<string>, table: seq<Entry>, i: nat)
    requires Terminated(table)
  {
    exists j | 0 <= j < |ts| :: Reaches(ts, table, i, j) && Unassigned(ts, table, j)
  }

  /** The second stage comes to a parameter whose values run out ... */
  predicate RunsOut(ts: seq<string>, table: seq<Entry>)
    requires Terminated(table)
  {
    RunsOutFrom(ts, table, 0)
  }

  /** ... or to one without its "=". */
  predicate Refuses(ts: seq<string>, table: seq<Entry>)
    requires Terminated(table)
  {
    RefusesFrom(ts, table, 0)
  }

  lemma {:induction false} ValuesEnds(ts: seq<string>, e: Entry, k: nat, assign: bool, mem: Memory, num: int)
    requires ts != [] && Numeric(e.typ)
    ensures var (v, end) := (Values(ts, e, k, assign, mem, num), LineEndAt(ts, 1));
            if end == |ts| then v.RanOut? else v.Ended? && v.rest == ts[end..]
    decreases |ts|
  {
    if |ts| > 1 && ts[1] != LINE_END {
      var mem' := if assign then Store(e, k, ts[0], mem, num) else mem;
      var num' := if assign && !e.typ.FLOAT? then NumberFrom(ts[0], num) else num;
      ValuesEnds(ts[1..], e, k + 1, assign && e.cat.MULTI?, mem', num');
      LineEndShift(ts, 1, 1);
      assert ts[1..][LineEndAt(ts[1..], 1)..] == ts[LineEndAt(ts, 2)..];
    }
  }

  lemma {:induction false} LineEndShift(ts: seq<string>, i: nat, j: nat)
    requires i + j <= |ts|
    ensures i + LineEndAt(ts[i..], j) == LineEndAt(ts, i + j)
    decreases |ts| - j
  {
    if i + j < |ts| && ts[i + j] != LINE_END {
      LineEndShift(ts, i, j + 1);
    }
  }

  lemma NoLineEnd(ts: seq<string>, i: nat)
    requires i <= |ts|
    ensures LINE_END !in ts[i..] <==> LineEndAt(ts, i) == |ts|
  {
    var r := LineEndAt(ts, i);
    if r < |ts| {
      assert ts[i..][r - i] == LINE_END;
    }
  }

  /** How the stage ends when it starts at item `i`, whatever the places hold. */
  lemma {:induction false} AssignEnds(ts: seq<string>, table: seq<Entry>, i: nat, mem: Memory, num: int)
    requires Terminated(table) && i <= |ts|
    ensures Assign(ts[i..], table, mem, num).PastEnd? <==> RunsOutFrom(ts, table, i)
    ensures Assign(ts[i..], table, mem, num).Refused? <==> RefusesFrom(ts, table, i)
    decreases |ts| - i
  {
    hide Assign, Values, Lookup, RunsOutFrom, RefusesFrom, Store, NumberFrom;
    FromStep(ts, table, i);
    if i + 1 < |ts| {
      AssignStep(ts, i, table, mem, num);
      var found := Lookup(table, ts[i]);
      if i + 2 < |ts| {
        NoLineEnd(ts, i + 3);
      }
      if found.None? {
        AssignEnds(ts, table, i + 1, mem, num);
      } else if ts[i + 1] == "=" && i + 2 < |ts| {
        if found.value.typ.STRING? {
          AssignEnds(ts, table, i + 3, mem[found.value.place := Text(ts[i + 2])], num);
        } else {
          ValuesAt(ts, i + 2, found.value, mem, num);
          var v := Values(ts[i + 2..], found.value, 0, true, mem, num);
          if v.Ended? {
            AssignEnds(ts, table, NextName(ts, table, i).value, v.mem, v.num);
          }
        }
      }
    } else {
      AssignEnd(ts, i, table, mem, num);
    }
  }

  /** What is left of the items when one parameter's values have been taken. */
  lemma ValuesAt(ts: seq<string>, i: nat, e: Entry, mem: Memory, num: int)
    requires i < |ts| && !e.typ.STRING?
    ensures var (v, end) := (Values(ts[i..], e, 0, true, mem, num), if Numeric(e.typ) then LineEndAt(ts, i + 1) else i);
            if end == |ts| then v.RanOut? else v.Ended? && v.rest[1..] == ts[end + 1..]
  {
    if Numeric(e.typ) {
      ValuesEnds(ts[i..], e, 0, true, mem, num);
      LineEndShift(ts, i, 1);
      var end := LineEndAt(ts, i + 1);
      assert end < |ts| ==> ts[i..][end - i..] == ts[end..];
    }
  }

  /** What is reached from `i` is `i` itself, or reached from the next name. */
  lemma FromStep(ts: seq<string>, table: seq<Entry>, i: nat)
    requires Terminated(table) && i <= |ts|
    ensures i + 1 >= |ts| ==> !RunsOutFrom(ts, table, i) && !RefusesFrom(ts, table, i)
    ensures i + 1 < |ts| ==>
              var next := NextName(ts, table, i);
              && (RunsOutFrom(ts, table, i) <==>
                    Stuck(ts, table, i) || (next.Some? && RunsOutFrom(ts, table, next.value)))
              && (RefusesFrom(ts, table, i) <==>
                    Unassigned(ts, table, i) || (next.Some? && RefusesFrom(ts, table, next.value)))
  {
    hide Lookup, NextName, Stuck, Unassigned;
    if i + 1 < |ts| {
      assert Reaches(ts, table, i, i);
      var next := NextName(ts, table, i);
      if next.Some? {
        forall j | 0 <= j < |ts|
          ensures Reaches(ts, table, i, j) <==> j == i || Reaches(ts, table, next.value, j)
        {
        }
      }
    } else {
      NotAtEnd(ts, table, i);
    }
  }

  lemma NotAtEnd(ts: seq<string>, table: seq<Entry>, i: nat)
    requires Terminated(table) && i + 1 >= |ts|
    ensures !Stuck(ts, table, i) && !Unassigned(ts, table, i)
  {
  }

  /** The second stage runs out of items, or refuses them, exactly when it comes
      to an item that makes it: which ones it comes to, and what makes it, does
      not depend on the places or on the number read before. */
  lemma AssignRunsOut(ts: seq<string>, table: seq<Entry>, mem: Memory, num: int)
    requires Terminated(table)
    ensures Assign(ts, table, mem, num).PastEnd? <==> RunsOut(ts, table)
    ensures Assign(ts, table, mem, num).Refused? <==> Refuses(ts, table)
  {
    assert ts[0..] == ts;
    AssignEnds(ts, table, 0, mem, num);
  }

  // ----- The program -----

  /** What the places hold, updated in place. */
  class Places {
    var cells: Memory
  }

  /** The C string an item points to. */
  method ReadItem(buf: array<char>, n: nat, q: int) returns (s: string)
    requires q <= n < buf.Length && buf[n] == NUL
    ensures s == ItemText(buf[..n], q)
  {
    if q < 0 {
      return LINE_END;
    }
    s := [];
    var p: nat := q;
    while buf[p] != NUL
      invariant p <= n && s + TextAt(buf[..n], p) == TextAt(buf[..n], q)
      decreases n - p
    {
      s := s + [buf[p]];
      p := p + 1;
    }
  }

  /** One trip of the loop over a parameter's values. */
  lemma ValuesStep(ts: seq<string>, i: nat, e: Entry, k: nat, assign: bool, mem: Memory, num: int)
    requires i < |ts|
    ensures assign && e.typ.OTHER? ==> Values(ts[i..], e, k, assign, mem, num) == Ended(ts[i..], mem, num)
    ensures var mem' := if assign then Store(e, k, ts[i], mem, num) else mem;
            var num' := if assign && !e.typ.FLOAT? then NumberFrom(ts[i], num) else num;
            !(assign && e.typ.OTHER?) ==>
              Values(ts[i..], e, k, assign, mem, num)
              == if i + 1 == |ts| then RanOut
                 else if ts[i + 1] == LINE_END then Ended(ts[i + 1..], mem', num')
                 else Values(ts[i + 1..], e, k + 1, assign && e.cat.MULTI?, mem', num')
  {
    assert ts[i..][1..] == ts[i + 1..];
  }

  lemma ValuesGo(ts: seq<string>, i: nat, e: Entry, mem: Memory, num: int)
    requires i < |ts| && !e.typ.STRING? && (Numeric(e.typ) ==> LINE_END in ts[i + 1..])
    ensures Values(ts[i..], e, 0, true, mem, num).Ended?
  {
    ValuesAt(ts, i, e, mem, num);
    NoLineEnd(ts, i + 1);
  }

  lemma LineEndThere(ts: seq<string>, i: nat, e: Entry, mem: Memory, num: int)
    requires i < |ts| && !e.typ.STRING? && Values(ts[i..], e, 0, true, mem, num).Ended?
    ensures Numeric(e.typ) ==> LINE_END in ts[i + 1..]
  {
    ValuesAt(ts, i, e, mem, num);
    NoLineEnd(ts, i + 1);
  }

  lemma ItemAt(b: string, items: seq<int>, ts: seq<string>, i: nat)
    requires Within(items, |b|) && ts == ItemTexts(b, items) && i < |items|
    ensures |ts| == |items| && items[i] <= |b| && ts[i] == ItemText(b, items[i])
  {
  }

  /** The do-while loop over one parameter's values. */
  method StoreValues(buf: array<char>, n: nat, items: array<int>, ghost ts: seq<string>,
                     start: nat, e: Entry, mem: Places, num: int) returns (i: nat, num': int)
    requires n < buf.Length && buf[n] == NUL && |ts| <= items.Length && Within(items[..|ts|], n)
    requires ts == ItemTexts(buf[..n], items[..|ts|]) && start < |ts|
    requires !e.typ.STRING? && (Numeric(e.typ) ==> LINE_END in ts[start + 1..])
    modifies mem
    ensures i < |ts|
    ensures Values(ts[start..], e, 0, true, old(mem.cells), num) == Ended(ts[i..], mem.cells, num')
  {
    hide Values, Store, NumberFrom, ItemTexts, ItemText, Numeric;
    ghost var goal := Values(ts[start..], e, 0, true, mem.cells, num);
    ValuesGo(ts, start, e, mem.cells, num);
    i, num' := start, num;
    var k, assign := 0, true;
    while true
      invariant i < |ts| && Values(ts[i..], e, k, assign, mem.cells, num') == goal
      decreases |ts| - i
    {
      ValuesStep(ts, i, e, k, assign, mem.cells, num');
      if assign {
        if e.typ.OTHER? {
          return;
        }
        ItemAt(buf[..n], items[..|ts|], ts, i);
        var text := ReadItem(buf, n, items[i]);
        mem.cells := Store(e, k, text, mem.cells, num');
        num' := if e.typ.FLOAT? then num' else NumberFrom(text, num');
      }
      k, i := k + 1, i + 1;
      if !e.cat.MULTI? {
        assign := false;
      }
      ItemAt(buf[..n], items[..|ts|], ts, i);
      var next := ReadItem(buf, n, items[i]);
      if next == LINE_END {
        return;
      }
    }
  }

  /** The second stage: -1 when a parameter lacks its "=", otherwise 0. */
  method AssignItems(buf: array<char>, n: nat, items: array<int>, count: nat, table: array<Entry>, mem: Places,
                     num: int)
    returns (r: int)
    requires n < buf.Length && buf[n] == NUL && count <= items.Length && Within(items[..count], n)
    requires Terminated(table[..])
    requires !RunsOut(ItemTexts(buf[..n], items[..count]), table[..])
    modifies mem
    ensures Assign(ItemTexts(buf[..n], items[..count]), table[..], old(mem.cells), num)
         == if r == 0 then Done(mem.cells) else Refused(mem.cells)
    ensures r == 0 || r == -1
  {
    hide Assign, Values, Lookup;
    ghost var ts := ItemTexts(buf[..n], items[..count]);
    ghost var goal := Assign(ts, table[..], mem.cells, num);
    AssignRunsOut(ts, table[..], mem.cells, num);
    var i, content := 0, num;
    assert ts[0..] == ts;
    while i < count - 1
      invariant i <= count && Assign(ts[i..], table[..], mem.cells, content) == goal
      decreases count - i
    {
      AssignStep(ts, i, table[..], mem.cells, content);
      var name := ReadItem(buf, n, items[i]);
      var idx := ParameterNameToMapIndex(table, name);
      if idx >= 0 {
        var eq := ReadItem(buf, n, items[i + 1]);
        if eq != "=" {
          return -1;
        }
        i := i + 2;
        var e := table[idx];
        if e.typ.STRING? {
          var text := ReadItem(buf, n, items[i]);
          mem.cells := mem.cells[e.place := Text(text)];
        } else {
          LineEndThere(ts, i, e, mem.cells, content);
          i, content := StoreValues(buf, n, items, ts, i, e, mem, content);
        }
      }
      i := i + 1;
    }
    AssignEnd(ts, i, table[..], mem.cells, content);
    return 0;
  }

  /** Both stages. */
  method ParseContent(buf: array<char>, n: nat, table: array<Entry>, mem: Places, num: int) returns (r: int)
    requires n < buf.Length && buf[n] == NUL && Terminated(table[..])
    requires |Items(buf[..n], START)| < 512
    requires !RunsOut(Items(buf[..n], START), table[..])
    modifies buf, mem
    ensures r == 0 || r == -1
    ensures Assign(Items(old(buf[..n]), START), old(table[..]), old(mem.cells), num)
         == if r == 0 then Done(mem.cells) else Refused(mem.cells)
  {
    var items := new int[MAX_ITEMS];
    var count := Tokenize(buf, n, items);
    r := AssignItems(buf, n, items, count, table, mem, num);
  }
}
