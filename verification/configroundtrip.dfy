/** A parameter file, written out and parsed, stores exactly its values, unless
    a line that records no line end stands in the way. */
module ConfigRoundTrip {
  import opened Wrappers
  import opened ConfigTokens
  import opened TokenTable
  import opened ConfigParser

  // ----- Parameter files -----

  /** A value behind a gap, between quotes or bare. */
  datatype Piece = Piece(gap: string, text: string, quoted: bool)

  /** A blank line, a comment line, or `name = v1 ... vn` with any blanks around
      and between its parts, perhaps no values, perhaps a comment after them.
      `cr` tells whether the line ends with CR LF; a CR right behind a bare word
      is part of that word, and one in a comment part of the comment. */
  datatype Line = Blank(indent: string, cr: bool)
                | Comment(indent: string, text: string)
                | Setting(indent: string, name: string, gap: string, sign: string, values: seq<Piece>,
                          tail: string, comment: Option<string>, cr: bool)

  function Nat(n: nat): string {
    if n < 10 then ['0' + n as char] else Nat(n / 10) + ['0' + (n % 10) as char]
  }

  function Decimal(v: int): string {
    if v < 0 then ['-'] + Nat(-v) else Nat(v)
  }

  function RenderPiece(p: Piece, rest: string): string {
    p.gap + if p.quoted then ['"'] + (p.text + (['"'] + rest)) else p.text + rest
  }

  function RenderPieces(vs: seq<Piece>, rest: string): string {
    if vs == [] then rest else RenderPiece(vs[0], RenderPieces(vs[1..], rest))
  }

  function RenderEnd(comment: Option<string>, cr: bool, rest: string): string {
    if comment.Some? then ['#'] + (comment.value + (['\n'] + rest))
    else if cr then [CR] + (['\n'] + rest)
    else ['\n'] + rest
  }

  /** A line in front of the rest of the file. */
  function RenderLine(l: Line, rest: string): string {
    match l
    case Blank(indent, cr) => indent + RenderEnd(None, cr, rest)
    case Comment(indent, text) => indent + RenderEnd(Some(text), false, rest)
    case Setting(indent, name, gap, sign, values, tail, comment, cr) =>
      indent + (name + (gap + (sign + RenderPieces(values, tail + RenderEnd(comment, cr, rest)))))
  }

  function Render(lines: seq<Line>): string {
    if lines == [] then [] else RenderLine(lines[0], Render(lines[1..]))
  }

  predicate Blanks(s: string) {
    forall i | 0 <= i < |s| :: s[i] == ' ' || s[i] == '\t'
  }

  /** A word starts plainly and may have CRs in it. */
  predicate Word(s: string) {
    s != [] && Plain(s[0]) && InWord(s) && s != LINE_END
  }

  predicate InWord(s: string) {
    forall i | 0 <= i < |s| :: (Plain(s[i]) || s[i] == CR) && s[i] != NUL
  }

  predicate OneLine(s: string) {
    forall i | 0 <= i < |s| :: s[i] != '\n'
  }

  /** A text that quotes can hold: blanks are allowed, a comment is not. */
  predicate Quotable(s: string) {
    s != LINE_END && forall i | 0 <= i < |s| :: !Stops(s[i], true)
  }

  predicate WfPieces(vs: seq<Piece>) {
    forall i | 0 <= i < |vs| ::
      vs[i].gap != [] && Blanks(vs[i].gap) && if vs[i].quoted then Quotable(vs[i].text) else Word(vs[i].text)
  }

  predicate WfLine(l: Line) {
    match l
    case Blank(indent, cr) => Blanks(indent)
    case Comment(indent, text) => Blanks(indent) && OneLine(text)
    case Setting(indent, name, gap, sign, values, tail, comment, cr) =>
      && Blanks(indent) && Word(name) && gap != [] && Blanks(gap) && Word(sign) && WfPieces(values)
      && Blanks(tail) && (comment.Some? ==> OneLine(comment.value) && !cr)
      && (cr ==> tail != [] || !EndsInWord(values))
  }

  /** The last thing before what follows the values is a word. */
  predicate EndsInWord(vs: seq<Piece>) {
    vs == [] || !vs[|vs| - 1].quoted
  }

  // ----- The items of a file -----

  const OUT: State := State(false, false, true)
  const IN: State := State(false, true, false)

  function Texts(vs: seq<Piece>): (r: seq<string>)
    ensures |r| == |vs|
  {
    seq(|vs|, i requires 0 <= i < |vs| => vs[i].text)
  }

  /** How many line ends are recorded behind something that leaves the scan in `st`. */
  function EndsBehind(st: State, comment: Option<string>, cr: bool): (n: nat)
    ensures n <= 2
  {
    if comment.Some? then if st.inItem then 2 else 1
    else if st.inItem || (st.space && !cr) then 1
    else 0
  }

  /** How many line ends a line records. A blank or a closing quote before CR LF,
      and a closing quote before LF, record none; a comment that touches a word
      records two. */
  function LineEnds(l: Line): (n: nat)
    ensures n <= 2
  {
    match l
    case Blank(indent, cr) => EndsBehind(if indent == [] then START else OUT, None, cr)
    case Comment(indent, text) => 1
    case Setting(indent, name, gap, sign, values, tail, comment, cr) =>
      EndsBehind(if tail != [] then OUT else if EndsInWord(values) then IN else START, comment, cr)
  }

  function Ends(n: nat, rest: seq<string>): seq<string> {
    if n == 0 then rest else [LINE_END] + Ends(n - 1, rest)
  }

  function LineItems(l: Line, rest: seq<string>): seq<string> {
    (if l.Setting? then [l.name, l.sign] + Texts(l.values) else []) + Ends(LineEnds(l), rest)
  }

  function FileItems(lines: seq<Line>): seq<string> {
    if lines == [] then [] else LineItems(lines[0], FileItems(lines[1..]))
  }

  lemma {:induction false} BlanksSkipped(g: string, s: string, st: State)
    requires Blanks(g) && !st.inString
    ensures Items(g + s, st) == Items(s, if g == [] then st else OUT)
  {
    if g == [] {
      assert g + s == s;
    } else {
      assert (g + s)[1..] == g[1..] + s;
      BlanksSkipped(g[1..], s, OUT);
    }
  }

  lemma {:induction false} WordText(w: string, s: string)
    requires InWord(w) && s != [] && Stops(s[0], false)
    ensures TextFrom(w + s, false) == w
  {
    if w == [] {
      assert w + s == s;
    } else {
      assert (w + s)[1..] == w[1..] + s;
      WordText(w[1..], s);
    }
  }

  lemma {:induction false} WordPassed(w: string, s: string)
    requires InWord(w)
    ensures Items(w + s, IN) == Items(s, IN)
  {
    if w == [] {
      assert w + s == s;
    } else {
      assert (w + s)[1..] == w[1..] + s;
      WordPassed(w[1..], s);
    }
  }

  lemma WordItem(w: string, s: string, st: State)
    requires Word(w) && s != [] && Stops(s[0], false) && !st.inString && !st.inItem
    ensures Items(w + s, st) == [w] + Items(s, IN)
  {
    WordText(w, s);
    assert (w + s)[1..] == w[1..] + s;
    WordPassed(w[1..], s);
  }

  lemma {:induction false} CommentSkipped(c: string, s: string)
    requires OneLine(c)
    ensures AfterComment(c + (['\n'] + s)) == ['\n'] + s
  {
    if c == [] {
      assert c + (['\n'] + s) == ['\n'] + s;
    } else {
      assert (c + (['\n'] + s))[1..] == c[1..] + (['\n'] + s);
      CommentSkipped(c[1..], s);
    }
  }

  lemma EndItems(comment: Option<string>, cr: bool, rest: string, st: State)
    requires !st.inString && (comment.Some? ==> OneLine(comment.value)) && (cr ==> !st.inItem)
    ensures Items(RenderEnd(comment, cr, rest), st) == Ends(EndsBehind(st, comment, cr), Items(rest, START))
  {
    var nl := ['\n'] + rest;
    assert nl[1..] == rest;
    var all := Items(rest, START);
    EndsUnfold(0, all);
    EndsUnfold(1, all);
    EndsUnfold(2, all);
    assert [] + all == all;
    if comment.Some? {
      CommentSkipped(comment.value, rest);
      assert (['#'] + (comment.value + nl))[1..] == comment.value + nl;
    } else if cr {
      assert ([CR] + nl)[1..] == nl;
    }
  }

  lemma {:induction false} NatIsWord(n: nat)
    ensures Nat(n) != [] && forall i | 0 <= i < |Nat(n)| :: IsDigit(Nat(n)[i])
  {
    if n >= 10 {
      NatIsWord(n / 10);
    }
  }

  lemma DecimalIsWord(v: int)
    ensures Word(Decimal(v))
  {
    NatIsWord(if v < 0 then -v else v);
    assert IsDigit(Decimal(v)[0]) || Decimal(v)[0] == '-';
  }

  lemma {:induction false} QuotedText(t: string, s: string)
    requires forall i | 0 <= i < |t| :: !Stops(t[i], true)
    ensures TextFrom(t + (['"'] + s), true) == t
  {
    if t == [] {
      assert t + (['"'] + s) == ['"'] + s;
    } else {
      assert (t + (['"'] + s))[1..] == t[1..] + (['"'] + s);
      QuotedText(t[1..], s);
    }
  }

  lemma {:induction false} QuotedPassed(t: string, s: string, space: bool)
    requires forall i | 0 <= i < |t| :: !Stops(t[i], true)
    ensures Items(t + (['"'] + s), State(true, true, space)) == Items(s, START)
  {
    if t == [] {
      assert t + (['"'] + s) == ['"'] + s && (['"'] + s)[1..] == s;
    } else {
      assert (t + (['"'] + s))[1..] == t[1..] + (['"'] + s);
      QuotedPassed(t[1..], s, t[0] == ' ' || t[0] == '\t');
    }
  }

  /** A text between quotes is one item, blanks included. */
  lemma QuotedItem(t: string, s: string)
    requires Quotable(t)
    ensures Items(['"'] + (t + (['"'] + s)), OUT) == [t] + Items(s, START)
  {
    QuotedText(t, s);
    QuotedPassed(t, s, false);
    assert (['"'] + (t + (['"'] + s)))[1..] == t + (['"'] + s);
  }

  lemma BlankStops(g: string, s: string)
    requires g != [] && Blanks(g)
    ensures g + s != [] && Stops((g + s)[0], false)
  {
  }

  lemma PieceItem(p: Piece, s: string, st: State)
    requires WfPieces([p]) && !st.inString && (!p.quoted ==> s != [] && Stops(s[0], false))
    ensures Items(RenderPiece(p, s), st) == [p.text] + Items(s, if p.quoted then START else IN)
    ensures RenderPiece(p, s) != [] && Stops(RenderPiece(p, s)[0], false)
  {
    hide Items, Stops, Blanks, Word, Quotable;
    assert [p][0] == p;
    var body := if p.quoted then ['"'] + (p.text + (['"'] + s)) else p.text + s;
    BlanksSkipped(p.gap, body, st);
    BlankStops(p.gap, body);
    if p.quoted {
      QuotedItem(p.text, s);
    } else {
      WordItem(p.text, s, OUT);
    }
  }

  /** The values of a line, then what follows them. */
  lemma {:induction false} PiecesItems(vs: seq<Piece>, s: string, st: State)
    requires WfPieces(vs) && !st.inString && (vs != [] && EndsInWord(vs) ==> s != [] && Stops(s[0], false))
    ensures Items(RenderPieces(vs, s), st) == Texts(vs)
        + Items(s, if vs == [] then st else if EndsInWord(vs) then IN else START)
    ensures vs != [] || (s != [] && Stops(s[0], false))
        ==> RenderPieces(vs, s) != [] && Stops(RenderPieces(vs, s)[0], false)
  {
    hide Items, Stops, RenderPiece;
    if vs == [] {
      assert Texts(vs) + Items(s, st) == Items(s, st);
    } else {
      var t := RenderPieces(vs[1..], s);
      var after := if vs[0].quoted then START else IN;
      PiecesItems(vs[1..], s, after);
      assert WfPieces([vs[0]]);
      PieceItem(vs[0], t, st);
      assert Texts(vs) == [vs[0].text] + Texts(vs[1..]);
      AppendTexts([vs[0].text], Texts(vs[1..]), Items(s, if EndsInWord(vs) then IN else START));
    }
  }

  lemma AppendTexts(x: seq<string>, y: seq<string>, z: seq<string>)
    ensures x + y + z == x + (y + z)
  {
  }

  /** The name and the sign of a line. */
  lemma NameItems(l: Line, s: string)
    requires l.Setting? && WfLine(l) && s != [] && Stops(s[0], false)
    ensures Items(l.indent + (l.name + (l.gap + (l.sign + s))), START) == [l.name, l.sign] + Items(s, IN)
  {
    hide Items, Stops, Blanks, Word, WfPieces;
    var signed := l.sign + s;
    var rest := l.gap + signed;
    var st := if l.indent == [] then START else OUT;
    BlanksSkipped(l.indent, l.name + rest, START);
    BlankStops(l.gap, signed);
    WordItem(l.name, rest, st);
    BlanksSkipped(l.gap, signed, IN);
    WordItem(l.sign, s, OUT);
    assert Items(l.indent + (l.name + rest), START) == [l.name] + ([l.sign] + Items(s, IN));
    assert [l.name] + ([l.sign] + Items(s, IN)) == [l.name, l.sign] + Items(s, IN);
  }

  lemma EndStops(tail: string, comment: Option<string>, cr: bool, rest: string)
    requires Blanks(tail) && (cr ==> tail != [])
    ensures var s := tail + RenderEnd(comment, cr, rest); s != [] && Stops(s[0], false)
  {
  }

  lemma SettingItems(l: Line, rest: string)
    requires l.Setting? && WfLine(l)
    ensures Items(RenderLine(l, rest), START) == LineItems(l, Items(rest, START))
  {
    hide Items, RenderEnd, Stops, Blanks, Word, RenderPieces, Ends, EndsBehind;
    var last := if EndsInWord(l.values) then IN else START;
    var end := l.tail + RenderEnd(l.comment, l.cr, rest);
    if EndsInWord(l.values) {
      EndStops(l.tail, l.comment, l.cr, rest);
    }
    EndItems(l.comment, l.cr, rest, if l.tail != [] then OUT else last);
    BlanksSkipped(l.tail, RenderEnd(l.comment, l.cr, rest), last);
    PiecesItems(l.values, end, IN);
    NameItems(l, RenderPieces(l.values, end));
    AppendTexts([l.name, l.sign], Texts(l.values), Ends(LineEnds(l), Items(rest, START)));
  }

  lemma LineIsItems(l: Line, rest: string)
    requires WfLine(l)
    ensures Items(RenderLine(l, rest), START) == LineItems(l, Items(rest, START))
  {
    hide Items, RenderEnd, Ends;
    var ends := Ends(LineEnds(l), Items(rest, START));
    assert [] + ends == ends;
    match l
    case Blank(indent, cr) =>
      BlanksSkipped(indent, RenderEnd(None, cr, rest), START);
      EndItems(None, cr, rest, if indent == [] then START else OUT);
    case Comment(indent, text) =>
      BlanksSkipped(indent, RenderEnd(Some(text), false, rest), START);
      EndItems(Some(text), false, rest, if indent == [] then START else OUT);
    case Setting(_, _, _, _, _, _, _, _) =>
      SettingItems(l, rest);
  }

  /** The scan finds the items of every line. */
  lemma {:induction false} RenderIsItems(lines: seq<Line>)
    requires forall i | 0 <= i < |lines| :: WfLine(lines[i])
    ensures Items(Render(lines), START) == FileItems(lines)
  {
    if lines != [] {
      LineIsItems(lines[0], Render(lines[1..]));
      RenderIsItems(lines[1..]);
    }
  }

  // ----- Numbers -----

  lemma {:induction false} DigitsAppend(w: string, c: char, n: nat)
    requires forall i | 0 <= i < |w| :: IsDigit(w[i])
    ensures Digits(w + [c], n) == if IsDigit(c) then 10 * Digits(w, n) + (c - '0') as nat else Digits(w, n)
  {
    if w == [] {
      assert w + [c] == [c] && [c][1..] == [];
    } else {
      assert (w + [c])[1..] == w[1..] + [c];
      DigitsAppend(w[1..], c, 10 * n + (w[0] - '0') as nat);
    }
  }

  lemma {:induction false} NatReadsBack(n: nat)
    ensures Digits(Nat(n), 0) == n
  {
    if n < 10 {
      assert Nat(n)[1..] == [];
    } else {
      NatIsWord(n / 10);
      NatReadsBack(n / 10);
      DigitsAppend(Nat(n / 10), '0' + (n % 10) as char, 0);
    }
  }

  /** A number written out in decimal reads back, also with a CR behind it. */
  lemma DecimalReadsBack(v: int)
    ensures ReadInt(Decimal(v)) == Some(v) && ReadInt(Decimal(v) + [CR]) == Some(v)
  {
    var n: nat := if v < 0 then -v else v;
    NatIsWord(n);
    NatReadsBack(n);
    DigitsAppend(Nat(n), CR, 0);
    assert IsDigit(Nat(n)[0]);
    var t := Decimal(v) + [CR];
    if v < 0 {
      assert Decimal(v)[1..] == Nat(n) && t[1..] == Nat(n) + [CR];
    }
    assert SkipSpace(t) == t && SkipSpace(Decimal(v)) == Decimal(v);
  }

  // ----- When the items of a file run out -----

  /** Where the second stage stands between two lines: looking for a name,
      waiting for a first value, behind a value and waiting for a line end, or
      stopped by a missing "=". */
  datatype Mode = Free | Before | Within | Stopped

  /** The file's parameters are known, numeric or texts of one value, and no line
      end is mistaken for a name. */
  predicate Known(l: Line, table: seq<Entry>)
    requires Terminated(table)
  {
    l.Setting? ==>
      var found := Lookup(table, l.name);
      found.Some? && (Numeric(found.value.typ) || (found.value.typ.STRING? && |l.values| == 1))
  }

  predicate WfFile(lines: seq<Line>, table: seq<Entry>) {
    && Terminated(table) && Lookup(table, LINE_END).None?
    && forall i | 0 <= i < |lines| :: WfLine(lines[i]) && Known(lines[i], table)
  }

  function After(mode: Mode, l: Line, table: seq<Entry>): Mode
    requires Terminated(table) && Known(l, table)
  {
    var ends := LineEnds(l);
    match mode
    case Stopped => Stopped
    case Within => if ends > 0 then Free else Within
    case Before =>
      if l.Setting? then if ends > 0 then Free else Within
      else if ends > 0 then Within else Before
    case Free =>
      if !l.Setting? then Free
      else if l.sign != "=" then Stopped
      else if Lookup(table, l.name).value.typ.STRING? then Free
      else if l.values != [] then if ends > 0 then Free else Within
      else if ends == 0 then Before else if ends == 1 then Within else Free
  }

  function AtEnd(lines: seq<Line>, table: seq<Entry>, mode: Mode): Mode
    requires WfFile(lines, table)
  {
    if lines == [] then mode else AtEnd(lines[1..], table, After(mode, lines[0], table))
  }

  // Running out depends on the items alone, so any places will do.

  predicate Hangs(ts: seq<string>, table: seq<Entry>)
    requires Terminated(table)
  {
    Assign(ts, table, map[], 0).PastEnd?
  }

  /** The items behind the first line end. */
  function Skip(ts: seq<string>): seq<string>
    requires LINE_END in ts
  {
    ts[LineEndAt(ts, 0) + 1..]
  }

  predicate HangsIn(ts: seq<string>, table: seq<Entry>, mode: Mode)
    requires Terminated(table)
  {
    match mode
    case Free => Hangs(ts, table)
    case Within => LINE_END in ts ==> Hangs(Skip(ts), table)
    case Before => ts != [] && LINE_END in ts[1..] ==> Hangs(Skip(ts[1..]), table)
    case Stopped => false
  }

  lemma {:induction false} SkipPlain(head: seq<string>, ts: seq<string>)
    requires LINE_END !in head
    ensures LINE_END in head + ts <==> LINE_END in ts
    ensures LINE_END in ts ==> Skip(head + ts) == Skip(ts)
  {
    LineEndPlain(head, ts);
    var end := LineEndAt(ts, 0);
    assert LINE_END in ts ==> end < |ts| && (head + ts)[|head| + end + 1..] == ts[end + 1..];
  }

  lemma {:induction false} LineEndPlain(head: seq<string>, ts: seq<string>)
    requires LINE_END !in head
    ensures LineEndAt(head + ts, 0) == |head| + LineEndAt(ts, 0)
  {
    assert forall j | 0 <= j < |head| :: (head + ts)[j] == head[j] && head[j] in head;
    LineEndLater(head + ts, 0, |head|);
    LineEndShift(head + ts, |head|, 0);
    assert (head + ts)[|head|..] == ts;
  }

  lemma {:induction false} LineEndLater(ts: seq<string>, i: nat, j: nat)
    requires i <= j <= |ts| && forall k | i <= k < j :: ts[k] != LINE_END
    ensures LineEndAt(ts, i) == LineEndAt(ts, j)
    decreases j - i
  {
    if i < j {
      LineEndLater(ts, i + 1, j);
    }
  }

  lemma SkipFirst(ts: seq<string>)
    ensures Skip([LINE_END] + ts) == ts
  {
    assert LineEndAt([LINE_END] + ts, 0) == 0;
  }

  /** A line end where a name is expected is passed over. */
  lemma LineEndPassed(rest: seq<string>, table: seq<Entry>, mem: Memory, num: int)
    requires Terminated(table) && Lookup(table, LINE_END).None?
    ensures Assign([LINE_END] + rest, table, mem, num) == Assign(rest, table, mem, num)
  {
    assert ([LINE_END] + rest)[1..] == rest;
  }

  lemma {:induction false} EndsPassed(n: nat, rest: seq<string>, table: seq<Entry>, mem: Memory, num: int)
    requires Terminated(table) && Lookup(table, LINE_END).None?
    ensures Assign(Ends(n, rest), table, mem, num) == Assign(rest, table, mem, num)
  {
    hide Assign;
    if n > 0 {
      LineEndPassed(Ends(n - 1, rest), table, mem, num);
      EndsPassed(n - 1, rest, table, mem, num);
    }
  }

  /** Line ends behind the items of a line. */
  lemma EndsIn(n: nat, head: seq<string>, rest: seq<string>, table: seq<Entry>)
    requires Terminated(table) && Lookup(table, LINE_END).None? && LINE_END !in head
    ensures HangsIn(head + Ends(n, rest), table, Within) <==> HangsIn(rest, table, if n > 0 then Free else Within)
  {
    hide Assign, Lookup;
    SkipPlain(head, Ends(n, rest));
    if n > 0 {
      SkipFirst(Ends(n - 1, rest));
      EndsPassed(n - 1, rest, table, map[], 0);
    }
  }

  /** The items of a parameter behind its sign. */
  lemma HangsNumeric(name: string, ts: seq<string>, table: seq<Entry>)
    requires Terminated(table) && Lookup(table, name).Some? && Numeric(Lookup(table, name).value.typ)
    ensures Hangs([name, "="] + ts, table) <==> HangsIn(ts, table, Before)
  {
    hide Lookup;
    var e := Lookup(table, name).value;
    var all := [name, "="] + ts;
    assert all[2..] == ts;
    if ts != [] {
      ValuesEnds(ts, e, 0, true, map[], 0);
      var v := Values(ts, e, 0, true, map[], 0);
      LineEndShift(ts, 1, 0);
      var end := LineEndAt(ts, 1);
      NoLineEnd(ts, 1);
      if end < |ts| {
        assert v.rest[1..] == ts[end + 1..] == Skip(ts[1..]);
        SameFate(v.rest[1..], table, v.mem, v.num);
      }
    }
  }

  lemma SameFate(ts: seq<string>, table: seq<Entry>, mem: Memory, num: int)
    requires Terminated(table)
    ensures Assign(ts, table, mem, num).PastEnd? <==> Hangs(ts, table)
  {
    AssignRunsOut(ts, table, mem, num);
    AssignRunsOut(ts, table, map[], 0);
  }

  lemma TextsPlain(vs: seq<Piece>)
    requires WfPieces(vs)
    ensures LINE_END !in Texts(vs)
  {
  }

  /** One line, from each place the stage can stand in front of it. */
  lemma LineHangs(l: Line, rest: seq<string>, table: seq<Entry>, mode: Mode)
    requires Terminated(table) && Lookup(table, LINE_END).None? && WfLine(l) && Known(l, table)
    ensures HangsIn(LineItems(l, rest), table, mode) <==> HangsIn(rest, table, After(mode, l, table))
  {
    hide Lookup, Word, Ends, Skip, Assign, EndsBehind;
    var n := LineEnds(l);
    if !l.Setting? {
      assert [] + Ends(n, rest) == Ends(n, rest);
      match mode
      case Free => EndsPassed(n, rest, table, map[], 0);
      case Within => EndsIn(n, [], rest, table);
      case Before => BlankBefore(n, rest, table) by { assert n <= 1 by { BlankEnds(l); } }
      case Stopped =>
    } else {
      TextsPlain(l.values);
      SettingPlain(l);
      match mode
      case Free => SettingHangs(l, rest, table);
      case Within => EndsIn(n, [l.name, l.sign] + Texts(l.values), rest, table);
      case Before =>
        EndsIn(n, [l.sign] + Texts(l.values), rest, table);
        assert LineItems(l, rest)[1..] == [l.sign] + Texts(l.values) + Ends(n, rest);
      case Stopped =>
    }
  }

  lemma BlankEnds(l: Line)
    requires !l.Setting?
    ensures LineEnds(l) <= 1
  {
  }

  lemma SettingPlain(l: Line)
    requires l.Setting? && WfLine(l)
    ensures l.name != LINE_END && l.sign != LINE_END
  {
  }

  lemma BlankBefore(n: nat, rest: seq<string>, table: seq<Entry>)
    requires Terminated(table) && n <= 1
    ensures HangsIn(Ends(n, rest), table, Before) <==> HangsIn(rest, table, if n > 0 then Within else Before)
  {
    hide Skip, Assign;
    if n == 1 {
      assert Ends(1, rest) == [LINE_END] + rest && ([LINE_END] + rest)[1..] == rest;
    }
  }

  lemma SettingHangs(l: Line, rest: seq<string>, table: seq<Entry>)
    requires Terminated(table) && Lookup(table, LINE_END).None? && WfLine(l) && Known(l, table) && l.Setting?
    ensures Hangs(LineItems(l, rest), table) <==> HangsIn(rest, table, After(Free, l, table))
  {
    hide Lookup, Word, Ends, Skip, EndsBehind, Assign;
    var n := LineEnds(l);
    var more := Texts(l.values) + Ends(n, rest);
    AppendTexts([l.name, l.sign], Texts(l.values), Ends(n, rest));
    assert LineItems(l, rest) == [l.name, l.sign] + more;
    if l.sign != "=" {
      NotAssigned(l.name, l.sign, more, table);
    } else if Lookup(table, l.name).value.typ.STRING? {
      var text := l.values[0].text;
      assert Texts(l.values) == [text];
      TextAssigned(l.name, text, Ends(n, rest), table, map[], 0);
      var mem := map[Lookup(table, l.name).value.place := Text(text)];
      EndsPassed(n, rest, table, mem, 0);
      SameFate(rest, table, mem, 0);
    } else {
      HangsNumeric(l.name, more, table);
      TextsPlain(l.values);
      if l.values != [] {
        assert more[1..] == Texts(l.values)[1..] + Ends(n, rest);
        EndsIn(n, Texts(l.values)[1..], rest, table);
      } else {
        assert more == Ends(n, rest);
        NoValues(n, rest, table);
      }
    }
  }

  lemma NoValues(n: nat, rest: seq<string>, table: seq<Entry>)
    requires Terminated(table) && Lookup(table, LINE_END).None? && n <= 2
    ensures HangsIn(Ends(n, rest), table, Before)
        <==> HangsIn(rest, table, if n == 0 then Before else if n == 1 then Within else Free)
  {
    hide Lookup, Skip, Assign;
    if n > 0 {
      assert Ends(n, rest)[1..] == Ends(n - 1, rest);
      EndsIn(n - 1, [], rest, table);
      assert [] + Ends(n - 1, rest) == Ends(n - 1, rest);
    }
  }

  lemma NotAssigned(name: string, sign: string, more: seq<string>, table: seq<Entry>)
    requires Terminated(table) && Lookup(table, name).Some? && sign != "="
    ensures !Hangs([name, sign] + more, table)
  {
  }

  lemma TextAssigned(name: string, text: string, more: seq<string>, table: seq<Entry>, mem: Memory, num: int)
    requires Terminated(table) && Lookup(table, name).Some? && Lookup(table, name).value.typ.STRING?
    ensures Assign([name, "="] + ([text] + more), table, mem, num)
         == Assign(more, table, mem[Lookup(table, name).value.place := Text(text)], num)
  {
    hide Lookup;
    var ts := [name, "="] + ([text] + more);
    assert ts[3..] == more;
  }

  lemma {:induction false} FileHangs(lines: seq<Line>, table: seq<Entry>, mode: Mode)
    requires WfFile(lines, table)
    ensures HangsIn(FileItems(lines), table, mode)
        <==> AtEnd(lines, table, mode).Before? || AtEnd(lines, table, mode).Within?
  {
    hide Lookup, LineItems, After;
    if lines != [] {
      LineHangs(lines[0], FileItems(lines[1..]), table, mode);
      FileHangs(lines[1..], table, After(mode, lines[0], table));
    }
  }

  /** The second stage runs out of a file's items exactly when the file ends
      while a parameter waits for its value or for a line end. */
  lemma FileRunsOut(lines: seq<Line>, table: seq<Entry>)
    requires WfFile(lines, table)
    ensures RunsOut(Items(Render(lines), START), table)
        <==> AtEnd(lines, table, Free).Before? || AtEnd(lines, table, Free).Within?
  {
    hide RunsOut, Lookup;
    RenderIsItems(lines);
    FileHangs(lines, table, Free);
    AssignRunsOut(FileItems(lines), table, map[], 0);
  }

  // ----- What a file stores -----

  /** A text that the type's conversion reads as a value it can hold: what `%d`
      reads has to fit an int. A FLOAT keeps its text. */
  predicate Readable(typ: InfoType, text: string) {
    typ.FLOAT? || (ReadInt(text).Some? && -2147483648 <= ReadInt(text).value <= 2147483647)
  }

  function Meant(typ: InfoType, text: string): Value {
    if typ.FLOAT? then Float(text) else Int(Narrowed(typ, NumberFrom(text, 0)))
  }

  /** Values number `k` and on, at consecutive places. */
  function StoreAll(e: Entry, vs: seq<Piece>, k: nat, mem: Memory): Memory {
    if vs == [] then mem
    else StoreAll(e, vs[1..], k + 1, mem[e.place + k * Width(e.typ) := Meant(e.typ, vs[0].text)])
  }

  /** All values of a MULTI parameter, the first of a SINGLE one. */
  function Kept(e: Entry, vs: seq<Piece>): seq<Piece>
    requires vs != []
  {
    if e.cat.MULTI? then vs else vs[..1]
  }

  /** A line end is recorded before the next parameter. */
  predicate LineEndNext(lines: seq<Line>) {
    lines != [] && !lines[0].Setting? && (LineEnds(lines[0]) > 0 || LineEndNext(lines[1..]))
  }

  predicate AllReadable(typ: InfoType, vs: seq<Piece>) {
    forall i | 0 <= i < |vs| :: Readable(typ, vs[i].text)
  }

  /** A parameter with its "=" and values its type reads; a numeric one's line
      end comes before the next parameter. */
  predicate Settled(l: Line, rest: seq<Line>, table: seq<Entry>)
    requires Terminated(table) && Known(l, table)
  {
    l.Setting? ==>
      var typ := Lookup(table, l.name).value.typ;
      && l.sign == "=" && l.values != []
      && (Numeric(typ) ==> AllReadable(typ, l.values) && (LineEnds(l) > 0 || LineEndNext(rest)))
  }

  predicate SettledFile(lines: seq<Line>, table: seq<Entry>) {
    WfFile(lines, table) && forall i | 0 <= i < |lines| :: Settled(lines[i], lines[i + 1..], table)
  }

  lemma SettledTail(lines: seq<Line>, table: seq<Entry>)
    requires SettledFile(lines, table) && lines != []
    ensures SettledFile(lines[1..], table) && Settled(lines[0], lines[1..], table)
  {
    forall i | 0 <= i < |lines| - 1
      ensures Settled(lines[1..][i], lines[1..][i + 1..], table)
    {
      assert lines[1..][i + 1..] == lines[i + 2..] && lines[1..][i] == lines[i + 1];
    }
  }

  function StoredLine(l: Line, table: seq<Entry>, mem: Memory): Memory
    requires Terminated(table) && Known(l, table) && (l.Setting? ==> l.values != [])
  {
    if !l.Setting? then mem
    else
      var e := Lookup(table, l.name).value;
      if e.typ.STRING? then mem[e.place := Text(l.values[0].text)] else StoreAll(e, Kept(e, l.values), 0, mem)
  }

  function Stored(lines: seq<Line>, table: seq<Entry>, mem: Memory): Memory
    requires SettledFile(lines, table)
  {
    if lines == [] then mem
    else
      SettledTail(lines, table);
      Stored(lines[1..], table, StoredLine(lines[0], table, mem))
  }

  /** The loop over one parameter's values stores them all, or skips them after the first. */
  lemma {:induction false} ValuesStored(e: Entry, vs: seq<Piece>, rest: seq<string>, k: nat, assign: bool,
                                        mem: Memory, num: int)
    returns (num': int)
    requires vs != [] && Numeric(e.typ) && AllReadable(e.typ, vs) && LINE_END !in Texts(vs)
    ensures Values(Texts(vs) + ([LINE_END] + rest), e, k, assign, mem, num)
         == Ended([LINE_END] + rest, StoreAll(e, if assign then Kept(e, vs) else [], k, mem), num')
    decreases |vs|
  {
    hide ReadInt, Narrowed, Width;
    var more := Texts(vs[1..]) + ([LINE_END] + rest);
    var ts := Texts(vs) + ([LINE_END] + rest);
    assert ts[0] == vs[0].text && ts[1..] == more;
    var mem' := if assign then mem[e.place + k * Width(e.typ) := Meant(e.typ, vs[0].text)] else mem;
    num' := if assign && !e.typ.FLOAT? then NumberFrom(vs[0].text, num) else num;
    if |vs| == 1 {
      assert more == [LINE_END] + rest && ts[1] == LINE_END;
      assert vs[..1] == vs;
    } else {
      assert ts[1] == Texts(vs)[1] && Texts(vs)[1] in Texts(vs);
      assert LINE_END !in Texts(vs[1..]) by {
        assert Texts(vs[1..]) == Texts(vs)[1..];
      }
      num' := ValuesStored(e, vs[1..], rest, k + 1, assign && e.cat.MULTI?, mem', num');
      KeptRest(e, vs, k, assign, mem);
    }
  }

  lemma KeptRest(e: Entry, vs: seq<Piece>, k: nat, assign: bool, mem: Memory)
    requires |vs| > 1
    ensures StoreAll(e, if assign then Kept(e, vs) else [], k, mem)
         == StoreAll(e, if assign && e.cat.MULTI? then Kept(e, vs[1..]) else [], k + 1,
                     if assign then mem[e.place + k * Width(e.typ) := Meant(e.typ, vs[0].text)] else mem)
  {
    if assign && !e.cat.MULTI? {
      assert vs[..1][1..] == [];
    }
  }

  /** The items behind a line's values begin with a line end. */
  lemma {:induction false} EndComes(lines: seq<Line>) returns (more: seq<string>)
    requires LineEndNext(lines)
    ensures FileItems(lines) == [LINE_END] + more
    decreases |lines|
  {
    var l, rest := lines[0], FileItems(lines[1..]);
    assert [] + Ends(LineEnds(l), rest) == Ends(LineEnds(l), rest);
    if LineEnds(l) > 0 {
      more := Ends(LineEnds(l) - 1, rest);
    } else {
      more := EndComes(lines[1..]);
    }
  }

  lemma SettingStored(l: Line, rest: seq<Line>, table: seq<Entry>, mem: Memory, num: int) returns (num': int)
    requires Terminated(table) && Lookup(table, LINE_END).None? && WfLine(l) && l.Setting? && Known(l, table)
    requires Settled(l, rest, table)
    ensures Assign(LineItems(l, FileItems(rest)), table, mem, num)
         == Assign(FileItems(rest), table, StoredLine(l, table, mem), num')
  {
    hide Lookup, Assign, Ends, EndsBehind, Word, Values, LineEndNext, Readable;
    var e, n, ts := Lookup(table, l.name).value, LineEnds(l), FileItems(rest);
    var ends := Ends(n, ts);
    AppendTexts([l.name, l.sign], Texts(l.values), ends);
    num' := num;
    var mem' := StoredLine(l, table, mem);
    if e.typ.STRING? {
      assert Texts(l.values) == [l.values[0].text];
      TextAssigned(l.name, l.values[0].text, ends, table, mem, num);
    } else {
      var more: seq<string>;
      if n > 0 {
        more := Ends(n - 1, ts);
        EndsUnfold(n, ts);
      } else {
        more := EndComes(rest);
        EndsUnfold(n, ts);
      }
      TextsPlain(l.values);
      num' := ValuesStored(e, l.values, more, 0, true, mem, num);
      NumbersAssigned(l.name, Texts(l.values) + ends, table, mem, num);
      assert ([LINE_END] + more)[1..] == more;
      LineEndPassed(more, table, mem', num');
    }
    EndsPassed(n, ts, table, mem', num');
  }

  lemma EndsUnfold(n: nat, ts: seq<string>)
    ensures Ends(n, ts) == if n == 0 then ts else [LINE_END] + Ends(n - 1, ts)
  {
  }

  lemma NumbersAssigned(name: string, ts: seq<string>, table: seq<Entry>, mem: Memory, num: int)
    requires Terminated(table) && ts != [] && Lookup(table, name).Some? && Numeric(Lookup(table, name).value.typ)
    ensures var v := Values(ts, Lookup(table, name).value, 0, true, mem, num);
            v.Ended? ==> Assign([name, "="] + ts, table, mem, num) == Assign(v.rest[1..], table, v.mem, v.num)
  {
    hide Lookup, Values;
    assert ([name, "="] + ts)[2..] == ts;
  }

  lemma {:induction false} FileStored(lines: seq<Line>, table: seq<Entry>, mem: Memory, num: int)
    requires SettledFile(lines, table)
    ensures Assign(FileItems(lines), table, mem, num) == Done(Stored(lines, table, mem))
  {
    hide Lookup, LineItems;
    if lines != [] {
      SettledTail(lines, table);
      var l := lines[0];
      var mem', num' := StoredLine(l, table, mem), num;
      if l.Setting? {
        num' := SettingStored(l, lines[1..], table, mem, num);
      } else {
        NoSettingStored(l, FileItems(lines[1..]), table, mem, num);
      }
      FileStored(lines[1..], table, mem', num');
    }
  }

  lemma NoSettingStored(l: Line, rest: seq<string>, table: seq<Entry>, mem: Memory, num: int)
    requires Terminated(table) && Lookup(table, LINE_END).None? && !l.Setting?
    ensures Assign(LineItems(l, rest), table, mem, num) == Assign(rest, table, mem, num)
  {
    EndsPassed(LineEnds(l), rest, table, mem, num);
    assert [] + Ends(LineEnds(l), rest) == Ends(LineEnds(l), rest);
  }

  /** Whatever the comments, blank lines, spacing, quotes and line ends, the
      parser stores exactly the values of a settled file and reports success. */
  lemma ConfigFileStored(lines: seq<Line>, table: seq<Entry>, mem: Memory, num: int)
    requires SettledFile(lines, table)
    ensures Assign(Items(Render(lines), START), table, mem, num) == Done(Stored(lines, table, mem))
  {
    RenderIsItems(lines);
    FileStored(lines, table, mem, num);
  }

  // ----- Which cells a file fills -----

  predicate Fills(e: Entry, vs: seq<Piece>, a: nat) {
    exists k: nat :: k < |vs| && a == e.place + k * Width(e.typ)
  }

  predicate LineFills(l: Line, table: seq<Entry>, a: nat)
    requires Terminated(table) && Known(l, table) && (l.Setting? ==> l.values != [])
  {
    l.Setting? &&
    var e := Lookup(table, l.name).value;
    if e.typ.STRING? then e.place == a else Fills(e, Kept(e, l.values), a)
  }

  lemma {:induction false} StoreAllFrame(e: Entry, vs: seq<Piece>, k: nat, mem: Memory, a: nat)
    requires forall i: nat | k <= i < k + |vs| :: a != e.place + i * Width(e.typ)
    ensures a in StoreAll(e, vs, k, mem) <==> a in mem
    ensures a in mem ==> StoreAll(e, vs, k, mem)[a] == mem[a]
  {
    if vs != [] {
      assert a != e.place + k * Width(e.typ);
      StoreAllFrame(e, vs[1..], k + 1, mem[e.place + k * Width(e.typ) := Meant(e.typ, vs[0].text)], a);
    }
  }

  lemma {:induction false} StoreAllAt(e: Entry, vs: seq<Piece>, k: nat, mem: Memory, j: nat)
    requires j < |vs|
    ensures var a := e.place + (k + j) * Width(e.typ);
            a in StoreAll(e, vs, k, mem) && StoreAll(e, vs, k, mem)[a] == Meant(e.typ, vs[j].text)
  {
    var a := e.place + (k + j) * Width(e.typ);
    var mem' := mem[e.place + k * Width(e.typ) := Meant(e.typ, vs[0].text)];
    if j == 0 {
      forall i: nat | k + 1 <= i < k + 1 + |vs[1..]|
        ensures a != e.place + i * Width(e.typ)
      {
        Apart(k, i, Width(e.typ));
      }
      StoreAllFrame(e, vs[1..], k + 1, mem', a);
    } else {
      StoreAllAt(e, vs[1..], k + 1, mem', j - 1);
    }
  }

  lemma Apart(k: nat, i: nat, w: nat)
    requires k < i && w > 0
    ensures k * w != i * w
  {
  }

  /** A cell no line fills keeps its content. */
  lemma {:induction false} OthersKept(lines: seq<Line>, table: seq<Entry>, mem: Memory, a: nat)
    requires SettledFile(lines, table)
    requires forall i | 0 <= i < |lines| :: !LineFills(lines[i], table, a)
    ensures a in Stored(lines, table, mem) <==> a in mem
    ensures a in mem ==> Stored(lines, table, mem)[a] == mem[a]
  {
    hide Lookup;
    if lines != [] {
      SettledTail(lines, table);
      var l := lines[0];
      assert !LineFills(l, table, a);
      if l.Setting? {
        var e := Lookup(table, l.name).value;
        if !e.typ.STRING? {
          StoreAllFrame(e, Kept(e, l.values), 0, mem, a);
        }
      }
      OthersKept(lines[1..], table, StoredLine(l, table, mem), a);
    }
  }

  /** Where value `j` of a line goes. */
  function PlaceOf(e: Entry, j: nat): nat {
    if e.typ.STRING? then e.place else e.place + j * Width(e.typ)
  }

  /** The last line that fills a cell decides what it holds: value `j` of the line. */
  lemma {:induction false} ValueStands(lines: seq<Line>, table: seq<Entry>, mem: Memory, i: nat, j: nat)
    requires SettledFile(lines, table) && i < |lines| && lines[i].Setting?
    requires var e := Lookup(table, lines[i].name).value;
             j < |Kept(e, lines[i].values)|
             && forall m | i < m < |lines| :: !LineFills(lines[m], table, PlaceOf(e, j))
    ensures var e := Lookup(table, lines[i].name).value;
            var a := PlaceOf(e, j);
            a in Stored(lines, table, mem)
            && Stored(lines, table, mem)[a]
               == if e.typ.STRING? then Text(lines[i].values[j].text) else Meant(e.typ, lines[i].values[j].text)
  {
    hide Lookup, Meant, WfLine, LineEnds, LineEndNext, Readable;
    SettledTail(lines, table);
    var e := Lookup(table, lines[i].name).value;
    var l := lines[0];
    var mem' := StoredLine(l, table, mem);
    if i == 0 {
      if !e.typ.STRING? {
        StoreAllAt(e, Kept(e, l.values), 0, mem, j);
      }
      OthersKept(lines[1..], table, mem', PlaceOf(e, j));
    } else {
      ValueStands(lines[1..], table, mem', i - 1, j);
    }
  }

  /** The number `v` as a place of its type holds it: an int as it is, 16 bits
      with their sign, 8 bits without. */
  predicate Holds(typ: InfoType, v: int, value: Value) {
    && value.Int?
    && (typ.INT_32? ==> value.value == v)
    && (typ.INT_16? ==> -32768 <= value.value <= 32767 && (value.value - v) % 65536 == 0)
    && (typ.INT_8? ==> 0 <= value.value <= 255 && (value.value - v) % 256 == 0)
  }

  /** A number written in decimal means itself, also in front of CR LF. */
  lemma DecimalMeans(typ: InfoType, v: int)
    requires Numeric(typ) && !typ.FLOAT? && -2147483648 <= v <= 2147483647
    ensures Word(Decimal(v)) && Readable(typ, Decimal(v)) && Holds(typ, v, Meant(typ, Decimal(v)))
    ensures Readable(typ, Decimal(v) + [CR]) && Meant(typ, Decimal(v) + [CR]) == Meant(typ, Decimal(v))
  {
    DecimalIsWord(v);
    DecimalReadsBack(v);
    NarrowedHolds(typ, v);
  }

  lemma NarrowedHolds(typ: InfoType, v: int)
    ensures Holds(typ, v, Int(Narrowed(typ, v)))
  {
  }

  /** A settled file, parsed: value `j` of the last line that fills its place is
      there, one, two or four bytes from the value before it. A number in decimal
      is stored as itself, as far as the type holds it, and a text or float as it
      is written. */
  lemma ValueStored(lines: seq<Line>, table: seq<Entry>, mem: Memory, num: int, i: nat, j: nat, e: Entry, v: int)
    requires SettledFile(lines, table) && i < |lines| && lines[i].Setting?
    requires Lookup(table, lines[i].name) == Some(e) && lines[i].values != [] && j < |Kept(e, lines[i].values)|
    requires forall m | i < m < |lines| :: !LineFills(lines[m], table, PlaceOf(e, j))
    requires -2147483648 <= v <= 2147483647
    ensures var (text, r) := (lines[i].values[j].text, Assign(Items(Render(lines), START), table, mem, num));
            var bytes := if e.typ.STRING? then 0 else if e.typ.INT_8? then 1 else if e.typ.INT_16? then 2 else 4;
            && r.Done? && e.place + j * bytes in r.mem
            && var value := r.mem[e.place + j * bytes];
               (e.typ.STRING? ==> value == Text(text)) && (e.typ.FLOAT? ==> value == Float(text))
               && (e.typ.INT_8? || e.typ.INT_16? || e.typ.INT_32? ==>
                     text == Decimal(v) || text == Decimal(v) + [CR] ==> Holds(e.typ, v, value))
  {
    hide Lookup, Render, Items, LineFills, Assign, Holds, Decimal;
    ConfigFileStored(lines, table, mem, num);
    ValueStands(lines, table, mem, i, j);
    if e.typ.INT_8? || e.typ.INT_16? || e.typ.INT_32? {
      DecimalMeans(e.typ, v);
    }
  }

  // ----- CR LF -----

  function CrBehind(vs: seq<Piece>): (r: seq<Piece>)
    requires vs != []
  {
    vs[|vs| - 1 := vs[|vs| - 1].(text := vs[|vs| - 1].text + [CR])]
  }

  /** The same line ending in CR LF. */
  function Crlf(l: Line): Line {
    match l
    case Blank(indent, cr) => Blank(indent, true)
    case Comment(indent, text) => Comment(indent, text + [CR])
    case Setting(indent, name, gap, sign, values, tail, comment, cr) =>
      if comment.Some? then l.(comment := Some(comment.value + [CR]))
      else if tail != [] || !EndsInWord(values) then l.(cr := true)
      else if values != [] then l.(values := CrBehind(values))
      else l.(sign := sign + [CR])
  }

  predicate NoCr(l: Line) {
    match l
    case Comment(_, _) => true
    case Blank(_, cr) => !cr
    case Setting(_, _, _, _, _, _, _, cr) => !cr
  }

  /** What becomes of a line's end: behind a word or in a comment the CR does no
      harm; behind a blank it takes the line end away. */
  lemma CrlfEnds(l: Line)
    requires NoCr(l)
    ensures LineEnds(Crlf(l))
         == match l
            case Blank(indent, _) => 0
            case Comment(_, _) => LineEnds(l)
            case Setting(_, _, _, _, values, tail, comment, _) => if comment.Some? || tail == [] then LineEnds(l) else 0
  {
    if l.Setting? && l.values != [] {
      var vs := CrBehind(l.values);
      assert |vs| == |l.values| && vs[|vs| - 1].quoted == l.values[|vs| - 1].quoted;
    }
  }

  /** A line without its end, in front of `s`. */
  function Front(l: Line, s: string): string {
    match l
    case Blank(indent, _) => indent + s
    case Comment(indent, text) => indent + (['#'] + (text + s))
    case Setting(indent, name, gap, sign, values, tail, comment, _) =>
      indent + (name + (gap + (sign + RenderPieces(values,
        tail + if comment.Some? then ['#'] + (comment.value + s) else s))))
  }

  lemma {:induction false} PiecesCr(vs: seq<Piece>, s: string)
    requires vs != [] && EndsInWord(vs)
    ensures RenderPieces(CrBehind(vs), s) == RenderPieces(vs, [CR] + s)
    decreases |vs|
  {
    var w := CrBehind(vs);
    if |vs| == 1 {
      assert w[1..] == [] && vs[1..] == [];
      AppendCr(vs[0].text, s);
    } else {
      assert w[1..] == CrBehind(vs[1..]) && w[0] == vs[0];
      PiecesCr(vs[1..], s);
    }
  }

  lemma AppendCr(w: string, s: string)
    ensures w + [CR] + s == w + ([CR] + s)
  {
  }

  /** It is the same line, with CR LF for LF. */
  lemma CrlfRenders(l: Line, rest: string)
    requires NoCr(l)
    ensures RenderLine(l, rest) == Front(l, ['\n'] + rest)
    ensures RenderLine(Crlf(l), rest) == Front(l, [CR] + (['\n'] + rest))
  {
    var nl := ['\n'] + rest;
    match l
    case Blank(_, _) =>
    case Comment(_, text) => AppendCr(text, nl);
    case Setting(_, _, _, sign, values, tail, comment, _) =>
      if comment.Some? {
        AppendCr(comment.value, nl);
      } else if tail == [] && EndsInWord(values) {
        assert [] + nl == nl && [] + ([CR] + nl) == [CR] + nl;
        if values != [] {
          PiecesCr(values, nl);
        } else {
          AppendCr(sign, nl);
        }
      }
  }

  // ----- Real files whose items run out -----

  /** A table with the one parameter `a`, an int. */
  const ONE_INT: seq<Entry> := [Entry(Some("a"), 0, INT_32, SINGLE), Entry(None, 0, INT_32, SINGLE)]

  lemma OneInt()
    ensures Terminated(ONE_INT) && Lookup(ONE_INT, "a") == Some(ONE_INT[0])
    ensures forall s: string | s != "a" :: Lookup(ONE_INT, s) == None
  {
    assert ONE_INT[1].name.None?;
    StopIs(ONE_INT, "a", 0);
    forall s: string | s != "a"
      ensures Lookup(ONE_INT, s) == None
    {
      StopIs(ONE_INT, s, 1);
    }
  }

  /** The file `a = v` stores v and nothing else, for every int. */
  lemma IntFileStored(v: int, mem: Memory, num: int)
    requires -2147483648 <= v <= 2147483647
    ensures Terminated(ONE_INT)
    ensures Assign(Items("a = " + (Decimal(v) + "\n"), START), ONE_INT, mem, num) == Done(mem[0 := Int(v)])
  {
    hide Lookup, Items, Assign, Decimal, Meant, Readable, Word;
    OneInt();
    DecimalMeans(INT_32, v);
    var l := Setting("", "a", " ", "=", [Piece(" ", Decimal(v), false)], "", None, false);
    assert l.values[1..] == [] && l.values[..1] == l.values;
    assert l.tail + RenderEnd(None, false, "") == "\n";
    assert RenderPieces(l.values, "\n") == " " + (Decimal(v) + "\n");
    assert RenderLine(l, "") == "a = " + (Decimal(v) + "\n");
    assert Render([l]) == RenderLine(l, "") by {
      assert [l][1..] == [];
    }
    assert WfLine(l) by {
      PlainWords();
    }
    assert SettledFile([l], ONE_INT);
    ConfigFileStored([l], ONE_INT, mem, num);
    var mem' := mem[0 := Meant(INT_32, Decimal(v))];
    assert StoreAll(ONE_INT[0], l.values, 0, mem) == StoreAll(ONE_INT[0], [], 1, mem') == mem';
    assert [l][1..] == [];
  }

  lemma PlainWords()
    ensures Word("a") && Word("=")
  {
  }

  lemma OneLineRunsOut(l: Line, mem: Memory, num: int)
    requires WfLine(l) && l.Setting? && l.name == "a" && l.sign == "="
    requires LineEnds(l) == 0 || (l.values == [] && LineEnds(l) == 1)
    ensures Terminated(ONE_INT) && RunsOut(Items(RenderLine(l, ""), START), ONE_INT)
    ensures Assign(Items(RenderLine(l, ""), START), ONE_INT, mem, num) == PastEnd
  {
    OneInt();
    assert Render([l]) == RenderLine(l, "");
    FileRunsOut([l], ONE_INT);
    AssignRunsOut(Items(RenderLine(l, ""), START), ONE_INT, mem, num);
  }

  /** `a =` and a line feed: the line end is taken for the value. */
  lemma ValuelessRunsOut(mem: Memory, num: int)
    ensures Terminated(ONE_INT) && RunsOut(Items("a =\n", START), ONE_INT)
    ensures Assign(Items("a =\n", START), ONE_INT, mem, num) == PastEnd
  {
    var l := Setting("", "a", " ", "=", [], "", None, false);
    assert RenderLine(l, "") == "a =\n";
    OneLineRunsOut(l, mem, num);
  }

  /** `a = "5"` and a line feed: the closing quote leaves no item to end. */
  lemma QuotedRunsOut(mem: Memory, num: int)
    ensures Terminated(ONE_INT) && RunsOut(Items("a = \"5\"\n", START), ONE_INT)
    ensures Assign(Items("a = \"5\"\n", START), ONE_INT, mem, num) == PastEnd
  {
    var l := Setting("", "a", " ", "=", [Piece(" ", "5", true)], "", None, false);
    assert l.values[1..] == [];
    assert l.tail + RenderEnd(None, false, "") == "\n";
    assert RenderPieces(l.values, "\n") == " \"5\"\n";
    assert RenderLine(l, "") == "a = \"5\"\n";
    OneLineRunsOut(l, mem, num);
  }

  /** `a = 5`, a blank and CR LF: the CR makes the blank forgotten. */
  lemma BlankCrRunsOut(mem: Memory, num: int)
    ensures Terminated(ONE_INT) && RunsOut(Items("a = 5 \r\n", START), ONE_INT)
    ensures Assign(Items("a = 5 \r\n", START), ONE_INT, mem, num) == PastEnd
  {
    var l := Setting("", "a", " ", "=", [Piece(" ", "5", false)], " ", None, true);
    assert l.values[1..] == [];
    assert l.tail + RenderEnd(None, true, "") == " \r\n";
    assert RenderPieces(l.values, " \r\n") == " 5 \r\n";
    assert RenderLine(l, "") == "a = 5 \r\n";
    OneLineRunsOut(l, mem, num);
  }
}
