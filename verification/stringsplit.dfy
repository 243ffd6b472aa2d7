/** Splitting a string at every occurrence of a delimiter. */
module StringSplit {

  // ----- Finding -----

  predicate OccursAt(s: string, del: string, i: int) {
    0 <= i && i + |del| <= |s| && s[i..i + |del|] == del
  }

  ghost predicate Contains(s: string, del: string) {
    exists i :: OccursAt(s, del, i)
  }

  /** `std::string::find`: the first occurrence at or after `from`, or -1. */
  function Find(s: string, del: string, from: nat): (r: int)
    ensures r == -1 || (from <= r && OccursAt(s, del, r))
    ensures forall i | from <= i && (r == -1 || i < r) :: !OccursAt(s, del, i)
    decreases |s| - from
  {
    if from + |del| > |s| then -1
    else if OccursAt(s, del, from) then from
    else Find(s, del, from + 1)
  }

  lemma FindIs(s: string, del: string, r: int)
    requires r == -1 || OccursAt(s, del, r)
    requires forall i | 0 <= i && (r == -1 || i < r) :: !OccursAt(s, del, i)
    ensures Find(s, del, 0) == r
  {
  }

  lemma {:induction false} FindLater(s: string, del: string, from: nat)
    requires from <= |s|
    ensures Find(s, del, from) == if Find(s[from..], del, 0) == -1 then -1 else from + Find(s[from..], del, 0)
  {
    var t, r := s[from..], Find(s, del, from);
    forall i
      ensures OccursAt(t, del, i) <==> i >= 0 && OccursAt(s, del, from + i)
    {
      if 0 <= i && i + |del| <= |t| {
        assert t[i..i + |del|] == s[from + i..from + i + |del|];
      }
    }
    assert r != -1 ==> OccursAt(t, del, r - from);
    FindIs(t, del, if r == -1 then -1 else r - from);
  }

  // ----- Splitting and joining -----

  function Split(s: string, del: string): (r: seq<string>)
    requires del != []
    ensures r != []
    decreases |s|
  {
    var end := Find(s, del, 0);
    if end == -1 then [s] else [s[..end]] + Split(s[end + |del|..], del)
  }

  function Join(pieces: seq<string>, del: string): string
    requires pieces != []
  {
    if |pieces| == 1 then pieces[0] else pieces[0] + del + Join(pieces[1..], del)
  }

  lemma FindFits(s: string, del: string, from: nat)
    ensures var r := Find(s, del, from); r == -1 || from <= r <= r + |del| <= |s|
  {
  }

  lemma Unfold(t: string, del: string)
    requires del != []
    ensures var end := Find(t, del, 0);
            Split(t, del) == if end == -1 then [t] else [t[..end]] + Split(t[end + |del|..], del)
  {
  }

  lemma SliceSlice(s: string, a: nat, b: nat)
    requires a <= b <= |s|
    ensures s[a..][..b - a] == s[a..b] && s[a..][b - a..] == s[b..]
  {
  }

  lemma SplitStep(s: string, del: string, start: nat, end: int)
    requires del != [] && start <= |s| && end == Find(s, del, start)
    requires end == -1 || start <= end <= end + |del| <= |s|
    ensures Split(s[start..], del)
         == if end == -1 then [s[start..]] else [s[start..end]] + Split(s[end + |del|..], del)
  {
    hide Find, OccursAt, Split;
    FindLater(s, del, start);
    Unfold(s[start..], del);
    if end != -1 {
      SliceSlice(s, start, end);
      SliceSlice(s, start, end + |del|);
    }
  }

  /** `TIDL_splitStringWithDelimiter`; with an empty delimiter it would not end. */
  method SplitStringWithDelimiter(inpStr: string, del: string) returns (splitStr: seq<string>)
    requires del != []
    ensures splitStr == Split(inpStr, del)
  {
    hide Split;
    var start: nat := 0;
    var end := Find(inpStr, del, 0);
    FindFits(inpStr, del, 0);
    splitStr := [];
    assert inpStr[0..] == inpStr;
    while end != -1
      invariant end == -1 || start <= end <= end + |del| <= |inpStr|
      invariant start <= |inpStr| && end == Find(inpStr, del, start)
      invariant splitStr + Split(inpStr[start..], del) == Split(inpStr, del)
      decreases |inpStr| - start
    {
      SplitStep(inpStr, del, start, end);
      splitStr := splitStr + [inpStr[start..end]];
      start := end + |del|;
      end := Find(inpStr, del, start);
      FindFits(inpStr, del, start);
    }
    SplitStep(inpStr, del, start, end);
    splitStr := splitStr + [inpStr[start..]];
  }

  /** The pieces joined give back the string. */
  lemma {:induction false} JoinSplit(s: string, del: string)
    requires del != []
    ensures Join(Split(s, del), del) == s
    decreases |s|
  {
    var end := Find(s, del, 0);
    if end != -1 {
      var rest := s[end + |del|..];
      JoinSplit(rest, del);
      assert Split(s, del)[1..] == Split(rest, del);
      assert s == s[..end] + s[end..end + |del|] + rest;
    }
  }

  /** No piece contains the delimiter. */
  lemma {:induction false} PiecesFree(s: string, del: string)
    requires del != []
    ensures forall p | p in Split(s, del) :: !Contains(p, del)
    decreases |s|
  {
    var end := Find(s, del, 0);
    if end != -1 {
      PiecesFree(s[end + |del|..], del);
      forall i
        ensures !OccursAt(s[..end], del, i)
      {
        if 0 <= i && i + |del| <= end {
          assert s[..end][i..i + |del|] == s[i..i + |del|];
          assert !OccursAt(s, del, i);
        }
      }
    }
  }

  /** A piece after which the delimiter is first found where it was put. */
  ghost predicate Clean(p: string, del: string) {
    forall i | 0 <= i < |p| :: !OccursAt(p + del, del, i)
  }

  ghost predicate CleanList(pieces: seq<string>, del: string)
    requires pieces != []
  {
    && (forall i | 0 <= i < |pieces| - 1 :: Clean(pieces[i], del))
    && !Contains(pieces[|pieces| - 1], del)
  }

  lemma FirstDelimiter(p: string, del: string, rest: string)
    requires del != []
    ensures Clean(p, del) <==> Find(p + del + rest, del, 0) == |p|
  {
    var s := p + del + rest;
    assert s[|p|..|p| + |del|] == del;
    forall i | 0 <= i < |p|
      ensures OccursAt(s, del, i) <==> OccursAt(p + del, del, i)
    {
      assert s[i..i + |del|] == (p + del)[i..i + |del|];
    }
    if Clean(p, del) {
      FindIs(s, del, |p|);
    }
  }

  /** Splitting a joined list returns the list exactly when no delimiter begins
      inside a piece, or straddles the end of one. */
  lemma {:induction false} SplitJoin(pieces: seq<string>, del: string)
    requires pieces != [] && del != []
    ensures Split(Join(pieces, del), del) == pieces <==> CleanList(pieces, del)
  {
    var s, p := Join(pieces, del), pieces[0];
    var end := Find(s, del, 0);
    if |pieces| == 1 {
      if !Contains(p, del) {
        FindIs(p, del, -1);
        assert Split(s, del) == pieces;
      } else {
        assert end != -1;
        assert |Split(s, del)| > 1;
      }
    } else {
      var tail := pieces[1..];
      var rest := Join(tail, del);
      SplitJoin(tail, del);
      FirstDelimiter(p, del, rest);
      CleanCons(pieces, del);
      if end == |p| {
        assert s[..end] == p && s[end + |del|..] == rest;
        assert pieces == [p] + tail;
        assert Split(s, del)[1..] == Split(rest, del);
      } else {
        assert end == -1 || |s[..end]| != |p|;
        assert Split(s, del) != pieces;
      }
    }
  }

  lemma CleanCons(pieces: seq<string>, del: string)
    requires |pieces| > 1
    ensures CleanList(pieces, del) <==> Clean(pieces[0], del) && CleanList(pieces[1..], del)
  {
    var tail := pieces[1..];
    assert tail[|tail| - 1] == pieces[|pieces| - 1];
    assert forall i | 0 <= i < |tail| :: tail[i] == pieces[i + 1];
    if Clean(pieces[0], del) && CleanList(tail, del) {
      forall i | 0 <= i < |pieces| - 1
        ensures Clean(pieces[i], del)
      {
        if i > 0 {
          assert Clean(tail[i - 1], del);
        }
      }
    }
  }

  /** With a delimiter of one character a list of pieces without it is returned. */
  lemma SplitJoinOneChar(pieces: seq<string>, del: string)
    requires pieces != [] && |del| == 1 && forall p | p in pieces :: !Contains(p, del)
    ensures Split(Join(pieces, del), del) == pieces
  {
    forall i | 0 <= i < |pieces| - 1
      ensures Clean(pieces[i], del)
    {
      var p := pieces[i];
      assert p in pieces;
      forall m | 0 <= m < |p|
        ensures !OccursAt(p + del, del, m)
      {
        assert (p + del)[m..m + 1] == p[m..m + 1];
        assert !OccursAt(p, del, m);
      }
    }
    SplitJoin(pieces, del);
  }

  /** A list that does not come back: its delimiter is found one character early. */
  lemma ListLost()
    ensures Split(Join(["a", ""], "aa"), "aa") != ["a", ""]
  {
    var pieces, del := ["a", ""], "aa";
    assert OccursAt("a" + del, del, 0);
    assert !Clean(pieces[0], del);
    SplitJoin(pieces, del);
  }
}
