/** The first stage of the config parser: cutting the text into items, in place. */
module ConfigTokens {

  const NUL: char := '\0'
  const CR: char := '\r'
  const LINE_END := "LINEEND"
  const MAX_ITEMS := 512

  datatype State = State(inString: bool, inItem: bool, space: bool)

  const START := State(false, false, false)

  // ----- What the items are -----

  /** The characters the scan overwrites, or that end a string by themselves. */
  predicate Stops(c: char, inString: bool) {
    c == '#' || c == '\n' || c == '"' || c == NUL || ((c == ' ' || c == '\t') && !inString)
  }

  /** The text of an item that starts here. */
  function TextFrom(s: string, inString: bool): string {
    if s == [] || Stops(s[0], inString) then [] else [s[0]] + TextFrom(s[1..], inString)
  }

  /** What is left after a comment: the end of its line, or nothing. */
  function AfterComment(s: string): (r: string)
    ensures |r| <= |s|
    ensures r != [] ==> r[0] == '\n'
  {
    if s == [] || s[0] == '\n' then s else AfterComment(s[1..])
  }

  /** The items of a text, read in a given state. */
  function Items(s: string, st: State): seq<string>
    decreases |s|
  {
    if s == [] then []
    else if s[0] == CR then Items(s[1..], st.(space := false))
    else if s[0] == '#' then [LINE_END] + Items(AfterComment(s[1..]), st.(space := false))
    else if s[0] == '\n' then (if st.inItem || st.space then [LINE_END] else []) + Items(s[1..], START)
    else if s[0] == ' ' || s[0] == '\t' then
      Items(s[1..], if st.inString then st.(space := true) else State(false, false, true))
    else if s[0] == '"' then
      if st.inString then Items(s[1..], START)
      else [TextFrom(s[1..], true)] + Items(s[1..], State(true, !st.inItem, false))
    else if st.inItem then Items(s[1..], st.(space := false))
    else [TextFrom(s, st.inString)] + Items(s[1..], State(st.inString, true, false))
  }

  // ----- Items as pointers into the buffer -----

  /** The C string at `q`. */
  function TextAt(b: string, q: nat): string
    requires q <= |b|
    decreases |b| - q
  {
    if q == |b| || b[q] == NUL then [] else [b[q]] + TextAt(b, q + 1)
  }

  /** An item is a position, or -1 for the end of a line. */
  function ItemText(b: string, q: int): string
    requires q <= |b|
  {
    if q < 0 then LINE_END else TextAt(b, q)
  }

  predicate Within(items: seq<int>, p: nat) {
    forall i | 0 <= i < |items| :: items[i] <= p
  }

  function ItemTexts(b: string, items: seq<int>): (r: seq<string>)
    requires Within(items, |b|)
    ensures |r| == |items|
  {
    seq(|items|, i requires 0 <= i < |items| => ItemText(b, items[i]))
  }

  /** The text at `q` once the scan, which has reached `p`, has finished. */
  function Coming(b: string, q: nat, p: nat, inString: bool): string
    requires q <= p <= |b|
    decreases p - q
  {
    if q == p then TextFrom(b[p..], inString)
    else if b[q] == NUL then []
    else [b[q]] + Coming(b, q + 1, p, inString)
  }

  function ComingText(b: string, q: int, p: nat, inString: bool): string
    requires q <= p <= |b|
  {
    if q < 0 then LINE_END else Coming(b, q, p, inString)
  }

  function ComingTexts(b: string, items: seq<int>, p: nat, inString: bool): (r: seq<string>)
    requires p <= |b| && Within(items, p)
    ensures |r| == |items|
  {
    seq(|items|, i requires 0 <= i < |items| => ComingText(b, items[i], p, inString))
  }

  lemma {:induction false} ComingStep(b: string, q: nat, p: nat, inString: bool)
    requires q <= p < |b| && !Stops(b[p], inString)
    ensures Coming(b, q, p + 1, inString) == Coming(b, q, p, inString)
    decreases p - q
  {
    if q < p {
      if b[q] != NUL {
        ComingStep(b, q + 1, p, inString);
      }
    } else {
      assert b[p..][1..] == b[p + 1..];
      assert Coming(b, p, p + 1, inString) == [b[p]] + Coming(b, p + 1, p + 1, inString);
    }
  }

  /** A character that stops an item, overwritten by NUL, ends every text that reaches it. */
  lemma {:induction false} ComingStop(b: string, q: nat, p: nat, p': nat, inString: bool, inString': bool)
    requires q <= p < p' <= |b| && Stops(b[p], inString)
    ensures Coming(b[p := NUL], q, p', inString') == Coming(b, q, p, inString)
    decreases p - q
  {
    if q < p {
      if b[q] != NUL {
        ComingStop(b, q + 1, p, p', inString, inString');
      }
    }
  }

  lemma TextsStep(b: string, items: seq<int>, p: nat, inString: bool)
    requires p < |b| && !Stops(b[p], inString) && Within(items, p)
    ensures ComingTexts(b, items, p + 1, inString) == ComingTexts(b, items, p, inString)
  {
    forall i | 0 <= i < |items|
      ensures ComingText(b, items[i], p + 1, inString) == ComingText(b, items[i], p, inString)
    {
      if items[i] >= 0 {
        ComingStep(b, items[i], p, inString);
      }
    }
  }

  lemma TextsStop(b: string, items: seq<int>, p: nat, p': nat, inString: bool, inString': bool)
    requires p < p' <= |b| && Stops(b[p], inString) && Within(items, p)
    ensures ComingTexts(b[p := NUL], items, p', inString') == ComingTexts(b, items, p, inString)
  {
    forall i | 0 <= i < |items|
      ensures ComingText(b[p := NUL], items[i], p', inString') == ComingText(b, items[i], p, inString)
    {
      if items[i] >= 0 {
        ComingStop(b, items[i], p, p', inString, inString');
      }
    }
  }

  lemma TextsMore(b: string, items: seq<int>, q: int, p: nat, inString: bool)
    requires p <= |b| && q <= p && Within(items, p)
    ensures ComingTexts(b, items + [q], p, inString)
        == ComingTexts(b, items, p, inString) + [ComingText(b, q, p, inString)]
  {
  }

  lemma {:induction false} ComingDone(b: string, q: nat, inString: bool)
    requires q <= |b|
    ensures Coming(b, q, |b|, inString) == TextAt(b, q)
    decreases |b| - q
  {
    if q < |b| {
      if b[q] != NUL {
        ComingDone(b, q + 1, inString);
      }
    }
  }

  lemma TextsDone(b: string, items: seq<int>, inString: bool)
    requires Within(items, |b|)
    ensures ComingTexts(b, items, |b|, inString) == ItemTexts(b, items)
  {
    forall i | 0 <= i < |items|
      ensures ComingText(b, items[i], |b|, inString) == ItemText(b, items[i])
    {
      if items[i] >= 0 {
        ComingDone(b, items[i], inString);
      }
    }
  }

  // ----- The scan -----

  /** What the items will be when the scan has finished. */
  ghost function Outlook(b: string, items: seq<int>, p: nat, st: State): seq<string>
    requires p <= |b| && Within(items, p)
  {
    ComingTexts(b, items, p, st.inString) + Items(b[p..], st)
  }

  /** Moving past a character that stays. */
  lemma OutlookStep(b: string, items: seq<int>, p: nat, st: State, st': State)
    requires p < |b| && !Stops(b[p], st.inString) && st'.inString == st.inString
    requires Within(items, p)
    requires Items(b[p..], st) == Items(b[p..][1..], st')
    ensures Outlook(b, items, p + 1, st') == Outlook(b, items, p, st)
  {
    hide Items;
    TextsStep(b, items, p, st.inString);
    assert b[p..][1..] == b[p + 1..];
  }

  /** Taking a character that stays as the start of an item. */
  lemma OutlookItem(b: string, items: seq<int>, p: nat, st: State, st': State)
    requires p < |b| && !Stops(b[p], st.inString) && st'.inString == st.inString
    requires Within(items, p)
    requires Items(b[p..], st) == [TextFrom(b[p..], st.inString)] + Items(b[p..][1..], st')
    ensures Outlook(b, items + [p], p + 1, st') == Outlook(b, items, p, st)
  {
    hide Items;
    TextsMore(b, items, p, p, st.inString);
    TextsStep(b, items + [p], p, st.inString);
    assert b[p..][1..] == b[p + 1..];
  }

  /** Overwriting a character and moving to `p'`, with `out` more items. */
  lemma OutlookStop(b: string, items: seq<int>, p: nat, p': nat, st: State, st': State, out: seq<int>)
    requires p < p' <= |b| && Stops(b[p], st.inString)
    requires Within(items, p) && |out| <= 1 && (out != [] ==> out[0] == -1 || out[0] == p')
    requires Items(b[p..], st)
          == (if out == [] then [] else if out[0] == -1 then [LINE_END] else [TextFrom(b[p'..], st'.inString)])
              + Items(b[p'..], st')
    ensures Outlook(b[p := NUL], items + out, p', st') == Outlook(b, items, p, st)
  {
    hide Items;
    var b' := b[p := NUL];
    TextsStop(b, items, p, p', st.inString, st'.inString);
    assert b'[p'..] == b[p'..];
    if out == [] {
      assert items + out == items;
    } else {
      TextsMore(b', items, out[0], p', st'.inString);
      assert out == [out[0]];
    }
  }

  /** The start of a word; a NUL in the text makes an empty one. */
  lemma OutlookWord(b: string, items: seq<int>, p: nat, st: State, st': State)
    requires p < |b| && (b[p] == NUL || !Stops(b[p], st.inString)) && st'.inString == st.inString
    requires Within(items, p)
    requires Items(b[p..], st) == [TextFrom(b[p..], st.inString)] + Items(b[p..][1..], st')
    ensures Outlook(b, items + [p], p + 1, st') == Outlook(b, items, p, st)
  {
    if b[p] == NUL {
      TextsMore(b, items, p, p, st.inString);
      TextsStop(b, items + [p], p, p + 1, st.inString, st.inString);
      assert b[p := NUL] == b && b[p..][1..] == b[p + 1..];
    } else {
      OutlookItem(b, items, p, st, st');
    }
  }

  /** The middle of a word. */
  lemma OutlookInWord(b: string, items: seq<int>, p: nat, st: State, st': State)
    requires p < |b| && (b[p] == NUL || !Stops(b[p], st.inString)) && st'.inString == st.inString
    requires Within(items, p)
    requires Items(b[p..], st) == Items(b[p..][1..], st')
    ensures Outlook(b, items, p + 1, st') == Outlook(b, items, p, st)
  {
    if b[p] == NUL {
      TextsStop(b, items, p, p + 1, st.inString, st.inString);
      assert b[p := NUL] == b && b[p..][1..] == b[p + 1..];
    } else {
      OutlookStep(b, items, p, st, st');
    }
  }

  method Add(items: array<int>, item: nat, q: int) returns (next: nat)
    requires item < items.Length
    modifies items
    ensures next == item + 1 && items[..next] == old(items[..item]) + [q]
  {
    items[item] := q;
    next := item + 1;
  }

  /** The end of a comment, found as the scan finds it. */
  method SkipComment(buf: array<char>, start: nat, n: nat) returns (p: nat)
    requires start <= n < buf.Length
    ensures start <= p <= n && AfterComment(buf[start..n]) == buf[p..n]
  {
    p := start;
    while buf[p] != '\n' && p < n
      invariant start <= p <= n && AfterComment(buf[start..n]) == AfterComment(buf[p..n])
      decreases n - p
    {
      assert buf[p..n][1..] == buf[p + 1..n];
      p := p + 1;
    }
  }

  /** One trip keeps the outlook. */
  ghost predicate KeepsOutlook(b: string, items: seq<int>, p: nat, st: State, b': string, items': seq<int>, p': nat,
                               st': State) {
    && p < p' <= |b| == |b'| && |items| <= |items'| <= |items| + 1
    && Within(items, p) && Within(items', p')
    && Outlook(b', items', p', st') == Outlook(b, items, p, st)
  }

  /** `#`: the comment is skipped and counts as the end of a line. */
  method ScanComment(buf: array<char>, n: nat, items: array<int>, item: nat, p: nat, st: State)
    returns (nextItem: nat, next: nat, st': State)
    requires buf as object != items as object && p < n < buf.Length && item < items.Length
    requires Within(items[..item], p) && buf[p] == '#'
    modifies buf, items
    ensures nextItem <= items.Length && buf[n] == old(buf[n])
    ensures KeepsOutlook(old(buf[..n]), old(items[..item]), p, st, buf[..n], items[..nextItem], next, st')
  {
    hide Outlook;
    ghost var b, xs := buf[..n], items[..item];
    st' := st.(space := false);
    buf[p] := NUL;
    next := SkipComment(buf, p + 1, n);
    assert buf[p + 1..n] == b[p..][1..];
    assert buf[next..n] == b[next..];
    nextItem := Add(items, item, -1);
    OutlookStop(b, xs, p, next, st, st', [-1]);
    assert buf[..n] == b[p := NUL];
  }

  method ScanNewline(buf: array<char>, n: nat, items: array<int>, item: nat, p: nat, st: State)
    returns (nextItem: nat, next: nat, st': State)
    requires buf as object != items as object && p < n < buf.Length && item < items.Length
    requires Within(items[..item], p) && buf[p] == '\n'
    modifies buf, items
    ensures nextItem <= items.Length && buf[n] == old(buf[n])
    ensures KeepsOutlook(old(buf[..n]), old(items[..item]), p, st, buf[..n], items[..nextItem], next, st')
  {
    hide Outlook;
    ghost var b, xs := buf[..n], items[..item];
    nextItem, next, st' := item, p + 1, START;
    assert b[p..][1..] == b[p + 1..];
    if st.inItem || st.space {
      nextItem := Add(items, item, -1);
      OutlookStop(b, xs, p, next, st, st', [-1]);
    } else {
      OutlookStop(b, xs, p, next, st, st', []);
      assert xs + [] == xs;
    }
    buf[p] := NUL;
    assert buf[..n] == b[p := NUL];
  }

  /** A blank outside a string ends the item; inside one it stays. */
  method ScanBlank(buf: array<char>, n: nat, items: array<int>, item: nat, p: nat, st: State)
    returns (nextItem: nat, next: nat, st': State)
    requires buf as object != items as object && p < n < buf.Length && item < items.Length
    requires Within(items[..item], p) && (buf[p] == ' ' || buf[p] == '\t')
    modifies buf
    ensures nextItem <= items.Length && buf[n] == old(buf[n])
    ensures KeepsOutlook(old(buf[..n]), old(items[..item]), p, st, buf[..n], items[..nextItem], next, st')
  {
    hide Outlook;
    ghost var b, xs := buf[..n], items[..item];
    nextItem, next, st' := item, p + 1, st.(space := true);
    assert b[p..][1..] == b[p + 1..];
    if st.inString {
      OutlookStep(b, xs, p, st, st');
    } else {
      buf[p] := NUL;
      st' := State(false, false, true);
      OutlookStop(b, xs, p, next, st, st', []);
      assert xs + [] == xs;
      assert buf[..n] == b[p := NUL];
    }
  }

  method ScanQuote(buf: array<char>, n: nat, items: array<int>, item: nat, p: nat, st: State)
    returns (nextItem: nat, next: nat, st': State)
    requires buf as object != items as object && p < n < buf.Length && item < items.Length
    requires Within(items[..item], p) && buf[p] == '"'
    modifies buf, items
    ensures nextItem <= items.Length && buf[n] == old(buf[n])
    ensures KeepsOutlook(old(buf[..n]), old(items[..item]), p, st, buf[..n], items[..nextItem], next, st')
  {
    hide Outlook;
    ghost var b, xs := buf[..n], items[..item];
    buf[p] := NUL;
    assert buf[..n] == b[p := NUL];
    nextItem, next := item, p + 1;
    assert b[p..][1..] == b[p + 1..];
    if st.inString {
      st' := START;
      OutlookStop(b, xs, p, next, st, st', []);
      assert xs + [] == xs;
    } else {
      nextItem := Add(items, item, p + 1);
      st' := State(true, !st.inItem, false);
      OutlookStop(b, xs, p, next, st, st', [p + 1]);
    }
  }

  predicate Plain(c: char) {
    c != CR && c != '#' && c != '\n' && c != ' ' && c != '\t' && c != '"'
  }

  /** Any other character belongs to an item. */
  method ScanPlain(buf: array<char>, n: nat, items: array<int>, item: nat, p: nat, st: State)
    returns (nextItem: nat, next: nat, st': State)
    requires buf as object != items as object && p < n < buf.Length && item < items.Length
    requires Within(items[..item], p) && (Plain(buf[p]) || buf[p] == CR)
    modifies items
    ensures nextItem <= items.Length
    ensures KeepsOutlook(old(buf[..n]), old(items[..item]), p, st, buf[..n], items[..nextItem], next, st')
  {
    hide Outlook;
    ghost var b, xs := buf[..n], items[..item];
    nextItem, next, st' := item, p + 1, st.(space := false);
    assert b[p..][1..] == b[p + 1..];
    if buf[p] != CR && !st.inItem {
      nextItem := Add(items, item, p);
      st' := State(st.inString, true, false);
      OutlookWord(b, xs, p, st, st');
    } else {
      OutlookInWord(b, xs, p, st, st');
    }
  }

  /** The whole scan: the items, read as C strings, are the items of the text. */
  method Tokenize(buf: array<char>, n: nat, items: array<int>) returns (item: nat)
    requires buf as object != items as object && n < buf.Length && buf[n] == NUL && items.Length == 512
    requires |Items(buf[..n], START)| < 512
    modifies buf, items
    ensures item < 512 && Within(items[..item], n) && buf[n] == NUL
    ensures ItemTexts(buf[..n], items[..item]) == Items(old(buf[..n]), START)
  {
    hide Items;
    ghost var goal := Items(buf[..n], START);
    var p, st := 0, START;
    item := 0;
    assert buf[..n][0..] == buf[..n];
    assert Outlook(buf[..n], items[..0], 0, START) == goal;
    while p < n
      invariant p <= n && item < MAX_ITEMS && buf[n] == NUL && Within(items[..item], p)
      invariant Outlook(buf[..n], items[..item], p, st) == goal
    {
      var c := buf[p];
      if c == '#' {
        item, p, st := ScanComment(buf, n, items, item, p, st);
      } else if c == '\n' {
        item, p, st := ScanNewline(buf, n, items, item, p, st);
      } else if c == ' ' || c == '\t' {
        item, p, st := ScanBlank(buf, n, items, item, p, st);
      } else if c == '"' {
        item, p, st := ScanQuote(buf, n, items, item, p, st);
      } else {
        item, p, st := ScanPlain(buf, n, items, item, p, st);
      }
    }
    TextsDone(buf[..n], items[..item], st.inString);
    assert buf[..n][n..] == [];
    assert Items([], st) == [] by {
      NoItems(st);
    }
  }

  lemma NoItems(st: State)
    ensures Items([], st) == []
  {
  }
}
