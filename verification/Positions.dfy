/** Line and character positions of buffer.c, computed page by page with the
    counts cached in the pages, against counting over the flat text. */
module Positions {
  import opened Bytes
  import opened Counting
  import opened Pages
  import opened PagedText
  import opened PagedOps

  /** Offset o starts line number n. */
  ghost predicate LineStart(c: Coding, t: seq<byte>, n: nat, o: nat) {
    o <= |t| && Lines(c, t[..o]) == n && (o == 0 || t[o - 1] == Newline(c))
  }

  /** There is one such offset. */
  lemma LineStartUnique(c: Coding, t: seq<byte>, n: nat, o: nat, q: nat)
    requires LineStart(c, t, n, o) && LineStart(c, t, n, q)
    ensures o == q
  {
    if o < q { LineStartLess(c, t, o, q); }
    if q < o { LineStartLess(c, t, q, o); }
  }

  lemma LineStartLess(c: Coding, t: seq<byte>, o: nat, q: nat)
    requires o < q <= |t| && t[q - 1] == Newline(c)
    ensures Lines(c, t[..o]) < Lines(c, t[..q])
  {
    LinesTake(c, t, q - 1);
    assert t[..q - 1] == t[..o] + t[o..q - 1];
    PosConcat(c, t[..o], t[o..q - 1]);
  }

  lemma LineStartColumn(c: Coding, t: seq<byte>, n: nat, o: nat)
    requires LineStart(c, t, n, o)
    ensures PosOf(c, t[..o]) == Pos(n, 0)
  {
  }

  /** eb_set_charset: the cached counts belong to the old charset. */
  method SetCharset(b: PagedBuffer, c: Coding)
    requires b.Valid()
    modifies b`coding, b`pages
    ensures b.Valid() && b.coding == c && b.Text() == old(b.Text())
  {
    hide Flat;
    var ps := b.pages;
    ghost var h, g := Ground(b.mapping[..], c), b.G();
    for n := 0 to |ps|
      invariant |ps| == |b.pages|
      invariant forall i :: 0 <= i < n ==> ps[i] == b.pages[i].(pos := Stale, chars := Stale)
      invariant forall i :: n <= i < |ps| ==> ps[i] == b.pages[i]
    {
      ps := ps[n := ps[n].(pos := Stale, chars := Stale)];
    }
    SameBytes(g, b.pages, h, ps);
    SameSizesSize(b.pages, ps);
    if b.curPage >= 0 { SameSizesSize(b.pages[..b.curPage], ps[..b.curPage]); }
    b.pages := ps;
    b.coding := c;
  }

  /** The text does not depend on the cached counts. */
  lemma {:induction false} SameBytes(g: Ground, ps: seq<Page>, h: Ground, qs: seq<Page>)
    requires AllOk(g, ps) && |ps| == |qs| && g.file == h.file
    requires forall i :: 0 <= i < |ps| ==> PageOk(h, qs[i]) && ps[i].size == qs[i].size && ps[i].data == qs[i].data
    ensures AllOk(h, qs) && Flat(g, ps) == Flat(h, qs)
  {
    if ps != [] { SameBytes(g, ps[1..], h, qs[1..]); }
  }

  /** Refresh the counts cached in one page. */
  method Refresh(b: PagedBuffer, p: nat, q: Page)
    requires b.Valid() && p < |b.pages| && PageOk(b.G(), q)
    requires q.size == b.pages[p].size && q.data == b.pages[p].data
    modifies b`pages
    ensures b.Valid() && b.pages == old(b.pages)[p := q] && b.Text() == old(b.Text())
    ensures SameSizes(b.pages, old(b.pages)) && forall i :: 0 <= i <= |b.pages| ==> Size(b.pages[..i]) == Size(old(b.pages)[..i])
  {
    hide Flat;
    var ps := b.pages[p := q];
    SameBytes(b.G(), b.pages, b.G(), ps);
    SameSizesSize(b.pages, ps);
    forall i | 0 <= i <= |ps| ensures Size(ps[..i]) == Size(b.pages[..i]) { SameSizesSize(b.pages[..i], ps[..i]); }
    b.pages := ps;
  }

  /** The lines of page p, counted at most once between two edits. */
  method PagePos(b: PagedBuffer, p: nat) returns (r: Pos)
    requires b.Valid() && p < |b.pages| && !b.coding.utf8 && b.coding.eol != Dos
    modifies b`pages
    ensures b.Valid() && b.Text() == old(b.Text()) && SameSizes(b.pages, old(b.pages)) && Size(b.pages[..p]) == Size(old(b.pages)[..p])
    ensures PageOk(b.G(), b.pages[p]) && r == PosOf(b.coding, PageBytes(b.G().file, b.pages[p]))
  {
    hide Flat, PosOf, Chars;
    if b.pages[p].pos.Stale? {
      var counted := GetPos8(b.coding, DataOf(b.mapping, b.pages[p]));
      Refresh(b, p, b.pages[p].(pos := Fresh(counted)));
    }
    r := b.pages[p].pos.value;
  }

  lemma PrefixPage(g: Ground, ps: seq<Page>, p: nat, k: nat)
    requires AllOk(g, ps) && p < |ps| && k <= ps[p].size
    ensures Size(ps[..p]) + k <= |Flat(g, ps)|
    ensures Flat(g, ps)[..Size(ps[..p]) + k] == Flat(g, ps)[..Size(ps[..p])] + PageBytes(g.file, ps[p])[..k]
    ensures Size(ps[..p + 1]) == Size(ps[..p]) + ps[p].size
  {
    hide Flat, PageOk, PageBytes;
    FlatAt(g, ps, p);
    SizeTake(ps, p);
  }

  lemma WholePage(g: Ground, ps: seq<Page>, p: nat)
    requires AllOk(g, ps) && p < |ps|
    ensures Size(ps[..p]) + ps[p].size == Size(ps[..p + 1]) <= |Flat(g, ps)|
    ensures Flat(g, ps)[..Size(ps[..p + 1])] == Flat(g, ps)[..Size(ps[..p])] + PageBytes(g.file, ps[p])
  {
    hide Flat, PageOk;
    PageFits(g, ps, p);
    PrefixPage(g, ps, p, ps[p].size);
    assert PageBytes(g.file, ps[p])[..ps[p].size] == PageBytes(g.file, ps[p]);
  }

  lemma AllPages(g: Ground, ps: seq<Page>)
    requires AllOk(g, ps)
    ensures |Flat(g, ps)| == Size(ps) && ps[..|ps|] == ps && ps[..0] == [] && Size(ps[..0]) == 0
    ensures Flat(g, ps)[..Size(ps)] == Flat(g, ps) && Flat(g, ps)[..0] == []
  {
    hide Flat, PageOk;
    FlatSize(g, ps);
  }

  /** eb_get_pos. */
  method GetPos(b: PagedBuffer, offset: nat) returns (r: Pos)
    requires b.Valid() && !b.coding.utf8 && b.coding.eol != Dos
    modifies b`pages
    ensures b.Valid() && b.Text() == old(b.Text())
    ensures r == PosOf(b.coding, b.Text()[..Min(offset, |b.Text()|)])
  {
    hide Flat, PageOk, PosOf;
    ghost var g, c, t := b.G(), b.coding, b.Text();
    AllPages(g, b.pages);
    r := Pos(0, 0);
    PosNil(c);
    var p, o := 0, offset;
    while true
      invariant b.Valid() && b.G() == g && b.Text() == t && 0 <= p <= |b.pages| && 0 <= o
      invariant o + Size(b.pages[..p]) == offset && Size(b.pages[..p]) <= |t| && r == PosOf(c, t[..Size(b.pages[..p])])
      decreases |b.pages| - p
    {
      AllPages(g, b.pages);
      if p >= |b.pages| { return; }
      if o < b.pages[p].size { break; }
      var here := PagePos(b, p);
      WholePage(g, b.pages, p);
      PageFits(g, b.pages, p);
      PosConcat(c, t[..Size(b.pages[..p])], PageBytes(g.file, b.pages[p]));
      r := Pos(r.line + here.line, (if here.line > 0 then 0 else r.col) + here.col);
      o := o - b.pages[p].size;
      p := p + 1;
    }
    PageFits(g, b.pages, p);
    var data := DataOf(b.mapping, b.pages[p]);
    var here := GetPos8(b.coding, data[..o]);
    PrefixPage(g, b.pages, p, o);
    PosConcat(c, t[..Size(b.pages[..p])], data[..o]);
    r := Pos(r.line + here.line, (if here.line > 0 then 0 else r.col) + here.col);
  }

  lemma PosNil(c: Coding)
    ensures PosOf(c, []) == Pos(0, 0)
  {
  }

  /** A walk of at most n bytes that stops before a line end. */
  ghost predicate Walked(c: Coding, t: seq<byte>, from: nat, n: nat, to: nat) {
    && from <= to <= |t| && to - from <= n && (forall i :: from <= i < to ==> t[i] != Newline(c))
    && (to - from == n || to == |t| || t[to] == Newline(c))
  }

  /** The column loop of eb_goto_pos: eb_nextc reads a line end at the end of
      the buffer too. */
  method SkipColumns(b: PagedBuffer, from: nat, col: nat, col1: nat) returns (offset: nat)
    requires b.Valid() && from <= |b.Text()|
    modifies b`curPage, b`curOffset
    ensures b.Valid() && offset <= |b.Text()| && Walked(b.coding, b.Text(), from, if col < col1 then col1 - col else 0, offset)
  {
    hide Flat, PageOk;
    ghost var g, t := b.G(), b.Text();
    var k := col;
    offset := from;
    while k < col1
      invariant b.Valid() && b.G() == g && b.Text() == t && from <= offset <= |t| && col <= k && offset - from == k - col
      invariant k <= col || k <= col1
      invariant forall i :: from <= i < offset ==> t[i] != Newline(b.coding)
    {
      var c := ReadOneByte(b, offset);
      if c < 0 || c == Newline(b.coding) { break; }
      k, offset := k + 1, offset + 1;
    }
  }

  /** The seek to a line that starts inside page p. */
  method SeekLine(b: PagedBuffer, p: nat, line: nat, line1: nat) returns (at: nat)
    requires b.Valid() && p < |b.pages| && !b.coding.utf8 && b.coding.eol != Dos
    requires Size(b.pages[..p + 1]) <= |b.Text()| && Size(b.pages[..p]) <= |b.Text()|
    requires Lines(b.coding, b.Text()[..Size(b.pages[..p])]) == line < line1 <= Lines(b.coding, b.Text()[..Size(b.pages[..p + 1])])
    ensures LineStart(b.coding, b.Text(), line1, Size(b.pages[..p]) + at)
  {
    hide Flat, PageOk, PosOf, Lines;
    ghost var g, c, t, o := b.G(), b.coding, b.Text(), Size(b.pages[..p]);
    PageFits(g, b.pages, p);
    WholePage(g, b.pages, p);
    var data := DataOf(b.mapping, b.pages[p]);
    LinesConcat(c, t[..o], data);
    at := GotoLine8(b.coding, data, line1 - line);
    LineStartNil(c, data);
    PrefixPage(g, b.pages, p, at);
    LinesConcat(c, t[..o], data[..at]);
    PageWindow(g, b.pages, p, at - 1, at);
    assert data[at - 1..at][0] == t[o + at - 1..o + at][0];
  }

  // The column that eb_goto_pos carries from page to page

  /** The offset of column col1 of line line1, or of the end of that line. */
  ghost predicate ColumnAt(c: Coding, t: seq<byte>, line1: nat, col1: nat, o: nat) {
    exists start: nat :: LineStart(c, t, line1, start) && Walked(c, t, start, col1, o)
  }

  /** Where the pages of a text begin and end. */
  ghost predicate IsCuts(t: seq<byte>, cuts: seq<nat>) {
    |cuts| >= 1 && cuts[0] == 0 && cuts[|cuts| - 1] == |t| && forall i, j :: 0 <= i <= j < |cuts| ==> cuts[i] <= cuts[j] <= |t|
  }

  ghost function Cuts(ps: seq<Page>): seq<nat> {
    seq(|ps| + 1, i requires 0 <= i <= |ps| => Size(ps[..i]))
  }

  /** The columns of all pages before page p, added up: a line end inside a page
      does not start the sum again. */
  ghost function Carried(c: Coding, t: seq<byte>, cuts: seq<nat>, p: nat): nat
    requires IsCuts(t, cuts) && p < |cuts|
  {
    if p == 0 then 0 else Carried(c, t, cuts, p - 1) + Column(c, t[cuts[p - 1]..cuts[p]])
  }

  /** Page i is taken for the one that holds the position. */
  ghost predicate Taken(c: Coding, t: seq<byte>, cuts: seq<nat>, i: nat, line1: nat, col1: nat)
    requires IsCuts(t, cuts) && i + 1 < |cuts|
  {
    var line2 := Lines(c, t[..cuts[i + 1]]);
    line2 > line1 || (line2 == line1 && Carried(c, t, cuts, i + 1) >= col1)
  }

  ghost predicate FirstTaken(c: Coding, t: seq<byte>, cuts: seq<nat>, p: nat, line1: nat, col1: nat)
    requires IsCuts(t, cuts)
  {
    p + 1 < |cuts| && Taken(c, t, cuts, p, line1, col1) && forall i :: 0 <= i < p ==> !Taken(c, t, cuts, i, line1, col1)
  }

  /** The line at o goes on for more than n bytes. */
  predicate GoesOn(c: Coding, t: seq<byte>, o: nat, n: nat) {
    o + n < |t| && forall i :: o <= i <= o + n ==> t[i] != Newline(c)
  }

  /** The page taken begins inside the line, the column carried to it is not the
      column of its first byte, and the line does not end before the difference
      shows. */
  ghost predicate Misled(c: Coding, t: seq<byte>, cuts: seq<nat>, line1: nat, col1: nat)
    requires IsCuts(t, cuts)
  {
    exists p: nat :: FirstTaken(c, t, cuts, p, line1, col1) && MisledIn(c, t, cuts, p, line1, col1)
  }

  ghost predicate MisledIn(c: Coding, t: seq<byte>, cuts: seq<nat>, p: nat, line1: nat, col1: nat)
    requires IsCuts(t, cuts) && p < |cuts|
  {
    var o, carried := cuts[p], Carried(c, t, cuts, p);
    Lines(c, t[..o]) == line1 && carried != Column(c, t[..o]) && carried <= col1 && GoesOn(c, t, o, col1 - carried)
  }

  /** The line that an offset lies in. */
  lemma {:induction false} LineAround(c: Coding, t: seq<byte>, o: nat)
    requires o <= |t|
    ensures var k := Column(c, t[..o]);
      && k <= o && LineStart(c, t, Lines(c, t[..o]), o - k) && forall i :: o - k <= i < o ==> t[i] != Newline(c)
    decreases o
  {
    if o > 0 {
      LinesTake(c, t, o - 1);
      LineAround(c, t, o - 1);
    }
  }

  /** Taking the line from a page that begins inside it. */
  lemma TakenInLine(c: Coding, t: seq<byte>, line1: nat, col1: nat, o: nat, carried: nat, r: nat)
    requires o <= |t| && Lines(c, t[..o]) == line1 && Column(c, t[..o]) <= carried <= col1
    requires Walked(c, t, o, col1 - carried, r)
    ensures ColumnAt(c, t, line1, col1, r) <==> !(carried != Column(c, t[..o]) && GoesOn(c, t, o, col1 - carried))
  {
    hide Lines, Column;
    LineAround(c, t, o);
    var start := o - Column(c, t[..o]);
    if Walked(c, t, start, col1, r) { assert ColumnAt(c, t, line1, col1, r); }
    if s: nat :| LineStart(c, t, line1, s) && Walked(c, t, s, col1, r) { LineStartUnique(c, t, line1, s, start); }
  }

  /** The state of the page loop of eb_goto_pos. */
  ghost predicate Seeking(c: Coding, t: seq<byte>, cuts: seq<nat>, p: nat, offset: nat, line: nat, col: nat, line1: nat, col1: nat) {
    && IsCuts(t, cuts) && p < |cuts| && offset == cuts[p] && line == Lines(c, t[..offset]) <= line1
    && col == Carried(c, t, cuts, p) && Column(c, t[..offset]) <= col
    && (line == line1 ==> col <= col1) && (p > 0 && line == line1 ==> col < col1)
    && forall i :: 0 <= i < p ==> !Taken(c, t, cuts, i, line1, col1)
  }

  /** What page p adds. */
  lemma NextPos(g: Ground, ps: seq<Page>, cuts: seq<nat>, p: nat)
    requires AllOk(g, ps) && p < |ps| && IsCuts(Flat(g, ps), cuts) && cuts == Cuts(ps)
    ensures PageOk(g, ps[p]) && cuts[p + 1] == cuts[p] + ps[p].size
    ensures var c, t := g.coding, Flat(g, ps);
      var here := PosOf(c, PageBytes(g.file, ps[p]));
      && PosOf(c, t[..cuts[p + 1]]) == Advance(PosOf(c, t[..cuts[p]]), here)
      && Carried(c, t, cuts, p + 1) == Carried(c, t, cuts, p) + here.col
      && Lines(c, t[..cuts[p + 1]]) <= Lines(c, t)
  {
    hide Flat, PosOf, Lines, Column;
    var c, t := g.coding, Flat(g, ps);
    WholePage(g, ps, p);
    PosConcat(c, t[..cuts[p]], PageBytes(g.file, ps[p]));
    LinesMonotone(c, t, cuts[p + 1]);
    PageWindow(g, ps, p, 0, ps[p].size);
    assert PageBytes(g.file, ps[p])[0..ps[p].size] == PageBytes(g.file, ps[p]);
    PosParts(c, PageBytes(g.file, ps[p]));
  }

  lemma PosParts(c: Coding, s: seq<byte>)
    ensures PosOf(c, s) == Pos(Lines(c, s), Column(c, s))
  {
  }

  lemma CutsOf(g: Ground, ps: seq<Page>)
    requires AllOk(g, ps)
    ensures IsCuts(Flat(g, ps), Cuts(ps))
  {
    hide Flat, PageOk;
    AllPages(g, ps);
    forall i, j | 0 <= i <= j <= |ps| ensures Size(ps[..i]) <= Size(ps[..j]) <= |Flat(g, ps)| {
      SizeUpTo(ps, i, j);
      SizeUpTo(ps, j, |ps|);
    }
  }

  lemma SizeUpTo(ps: seq<Page>, i: nat, j: nat)
    requires i <= j <= |ps|
    ensures Size(ps[..i]) <= Size(ps[..j])
  {
    assert ps[..j] == ps[..i] + ps[i..j];
    SizeConcat(ps[..i], ps[i..j]);
  }

  lemma SameCuts(ps: seq<Page>, qs: seq<Page>)
    requires SameSizes(ps, qs)
    ensures Cuts(ps) == Cuts(qs)
  {
    forall i | 0 <= i <= |ps| ensures Size(ps[..i]) == Size(qs[..i]) { SameSizesSize(ps[..i], qs[..i]); }
  }

  /** At the end of the text the last line is long enough never to mislead. */
  lemma EndOfLine(c: Coding, t: seq<byte>, line1: nat, col1: nat)
    requires Lines(c, t) == line1 && Column(c, t) <= col1
    ensures ColumnAt(c, t, line1, col1, |t|)
  {
    hide Lines, Column;
    LineAround(c, t, |t|);
    assert t[..|t|] == t;
    assert Walked(c, t, |t| - Column(c, t), col1, |t|);
  }

  lemma StartSeeking(c: Coding, t: seq<byte>, cuts: seq<nat>, line1: nat, col1: nat)
    requires IsCuts(t, cuts)
    ensures Seeking(c, t, cuts, 0, 0, 0, 0, line1, col1)
  {
    assert t[..0] == [];
  }

  lemma CutsLength(ps: seq<Page>)
    ensures |Cuts(ps)| == |ps| + 1
  {
  }

  lemma CutAt(ps: seq<Page>, p: nat)
    requires p < |ps|
    ensures |Cuts(ps)| == |ps| + 1 && Cuts(ps)[p] == Size(ps[..p]) && Cuts(ps)[p + 1] == Size(ps[..p + 1])
  {
  }

  lemma NextSeeking(c: Coding, t: seq<byte>, cuts: seq<nat>, p: nat, offset: nat, line: nat, col: nat, line1: nat, col1: nat, here: Pos)
    requires Seeking(c, t, cuts, p, offset, line, col, line1, col1) && p + 1 < |cuts|
    requires PosOf(c, t[..cuts[p + 1]]) == Advance(PosOf(c, t[..cuts[p]]), here)
    requires Carried(c, t, cuts, p + 1) == Carried(c, t, cuts, p) + here.col
    ensures var line2, col2 := line + here.line, col + here.col;
      && Lines(c, t[..cuts[p + 1]]) == line2
      && if line2 > line1 || (line2 == line1 && col2 >= col1) then FirstTaken(c, t, cuts, p, line1, col1)
         else Seeking(c, t, cuts, p + 1, cuts[p + 1], line2, col2, line1, col1)
  {
    hide Lines, Column, Carried, IsCuts;
  }

  /** The line starts in the page taken. */
  lemma SeekLands(c: Coding, t: seq<byte>, cuts: seq<nat>, p: nat, line1: nat, col1: nat, start: nat, r: nat)
    requires IsCuts(t, cuts) && FirstTaken(c, t, cuts, p, line1, col1) && Lines(c, t[..cuts[p]]) < line1
    requires LineStart(c, t, line1, start) && Walked(c, t, start, col1, r)
    ensures ColumnAt(c, t, line1, col1, r) && !Misled(c, t, cuts, line1, col1) && (col1 == 0 ==> r == start)
  {
    hide Lines, Column, Carried, IsCuts, Taken;
  }

  /** The page taken begins inside the line. */
  lemma TakenLands(c: Coding, t: seq<byte>, cuts: seq<nat>, p: nat, col: nat, line1: nat, col1: nat, r: nat)
    requires IsCuts(t, cuts) && FirstTaken(c, t, cuts, p, line1, col1)
    requires Seeking(c, t, cuts, p, cuts[p], line1, col, line1, col1) && Walked(c, t, cuts[p], col1 - col, r)
    ensures ColumnAt(c, t, line1, col1, r) <==> !Misled(c, t, cuts, line1, col1)
    ensures col1 == 0 ==> LineStart(c, t, line1, r)
  {
    hide Lines, Column, Carried, Taken, ColumnAt;
    TakenInLine(c, t, line1, col1, cuts[p], col, r);
    assert Misled(c, t, cuts, line1, col1) <==> MisledIn(c, t, cuts, p, line1, col1);
  }

  lemma NoneTaken(c: Coding, t: seq<byte>, cuts: seq<nat>, p: nat, line: nat, col: nat, line1: nat, col1: nat)
    requires Seeking(c, t, cuts, p, |t|, line, col, line1, col1) && p + 1 == |cuts|
    ensures !Misled(c, t, cuts, line1, col1)
    ensures line1 <= Lines(c, t) ==> ColumnAt(c, t, line1, col1, |t|) && (col1 == 0 ==> LineStart(c, t, line1, |t|))
  {
    hide Lines, Column, Carried, Taken, ColumnAt;
    assert t[..|t|] == t;
    if line1 <= Lines(c, t) { EndOfLine(c, t, line1, col1); }
  }

  /** Bytes without a line end. */
  lemma {:induction false} PlainColumn(c: Coding, s: seq<byte>)
    requires forall i :: 0 <= i < |s| ==> s[i] != Newline(c)
    ensures Column(c, s) == |s| && Lines(c, s) == 0
  {
    if s != [] { PlainColumn(c, s[..|s| - 1]); }
  }

  /** A text in one page does not mislead. */
  lemma OnePage(c: Coding, t: seq<byte>, cuts: seq<nat>, line1: nat, col1: nat)
    requires IsCuts(t, cuts) && |cuts| <= 2
    ensures !Misled(c, t, cuts, line1, col1)
  {
    assert t[..0] == [];
  }

  /** eb_goto_pos: it finds the column of the line unless the column carried
      from earlier pages misleads it, and never at column 0. */
  method GotoPos(b: PagedBuffer, line1: nat, col1: nat) returns (offset: nat)
    requires b.Valid() && !b.coding.utf8 && b.coding.eol != Dos
    modifies b`pages, b`curPage, b`curOffset
    ensures b.Valid() && b.Text() == old(b.Text()) && offset <= |b.Text()| && IsCuts(b.Text(), Cuts(old(b.pages)))
    ensures line1 > Lines(b.coding, b.Text()) ==> offset == |b.Text()|
    ensures line1 <= Lines(b.coding, b.Text()) ==>
      (ColumnAt(b.coding, b.Text(), line1, col1, offset) <==> !Misled(b.coding, b.Text(), Cuts(old(b.pages)), line1, col1))
    ensures col1 == 0 && line1 <= Lines(b.coding, b.Text()) ==> LineStart(b.coding, b.Text(), line1, offset)
  {
    hide Flat, PageOk, PosOf, Lines, Column, Misled, Cuts, Taken, Carried, ColumnAt, FirstTaken, Walked;
    ghost var g, c, t, cuts := b.G(), b.coding, b.Text(), Cuts(b.pages);
    CutsOf(g, b.pages);
    StartSeeking(c, t, cuts, line1, col1);
    CutsLength(b.pages);
    var line: nat, col: nat, p := 0, 0, 0;
    offset := 0;
    while p < |b.pages|
      invariant b.Valid() && b.G() == g && b.Text() == t && 0 <= p <= |b.pages| && Cuts(b.pages) == cuts && IsCuts(t, cuts)
      invariant Seeking(c, t, cuts, p, offset, line, col, line1, col1)
      decreases |b.pages| - p
    {
      ghost var before := b.pages;
      var here := PagePos(b, p);
      SameCuts(before, b.pages);
      CutsLength(b.pages);
      NextPos(g, b.pages, cuts, p);
      NextSeeking(c, t, cuts, p, offset, line, col, line1, col1, here);
      var line2, col2 := line + here.line, col + here.col;
      if line2 > line1 || (line2 == line1 && col2 >= col1) {
        ghost var from, carried, lineStart := offset, col, line < line1;
        if line < line1 {
          CutAt(b.pages, p);
          var at := SeekLine(b, p, line, line1);
          offset := offset + at;
          line, col := line1, 0;
        }
        ghost var start := offset;
        offset := SkipColumns(b, offset, col, col1);
        if lineStart {
          SeekLands(c, t, cuts, p, line1, col1, start, offset);
        } else {
          TakenLands(c, t, cuts, p, carried, line1, col1, offset);
        }
        return;
      }
      line, col := line2, col2;
      offset := offset + b.pages[p].size;
      p := p + 1;
    }
    CutsLength(b.pages);
    AllPages(g, b.pages);
    offset := b.totalSize;
    NoneTaken(c, t, cuts, p, line, col, line1, col1);
  }

  /** A file of four pages whose only line end begins the second one. */
  ghost predicate LongLine(c: Coding, t: seq<byte>, cuts: seq<nat>) {
    && |t| == 4 * MAX_PAGE_SIZE && (forall i :: 0 <= i < |t| ==> (t[i] == Newline(c) <==> i == MAX_PAGE_SIZE))
    && |cuts| == 5 && forall i :: 0 <= i < 5 ==> cuts[i] == MAX_PAGE_SIZE * i
  }

  lemma LongLineCounts(c: Coding, t: seq<byte>, cuts: seq<nat>)
    requires LongLine(c, t, cuts)
    ensures Lines(c, t[..MAX_PAGE_SIZE]) == 0 && LineStart(c, t, 1, MAX_PAGE_SIZE + 1)
    ensures PosOf(c, t[..2 * MAX_PAGE_SIZE]) == Pos(1, MAX_PAGE_SIZE - 1) && Lines(c, t[..3 * MAX_PAGE_SIZE]) == 1 && Lines(c, t) == 1
    ensures IsCuts(t, cuts) && Carried(c, t, cuts, 1) == MAX_PAGE_SIZE && Carried(c, t, cuts, 2) == 2 * MAX_PAGE_SIZE - 1
    ensures Carried(c, t, cuts, 3) == 3 * MAX_PAGE_SIZE - 1
  {
    var n := MAX_PAGE_SIZE;
    PlainColumn(c, t[..n]);
    LinesTake(c, t, n);
    assert t[..n + 1] + t[n + 1..2 * n] == t[..2 * n] && t[..n + 1] + t[n + 1..3 * n] == t[..3 * n] && t[..n + 1] + t[n + 1..] == t;
    PlainColumn(c, t[n + 1..2 * n]);
    PlainColumn(c, t[n + 1..3 * n]);
    PlainColumn(c, t[n + 1..]);
    PosConcat(c, t[..n + 1], t[n + 1..2 * n]);
    PosConcat(c, t[..n + 1], t[n + 1..3 * n]);
    PosConcat(c, t[..n + 1], t[n + 1..]);
    LongLineCarried(c, t, cuts);
  }

  lemma LongLineCarried(c: Coding, t: seq<byte>, cuts: seq<nat>)
    requires LongLine(c, t, cuts)
    ensures IsCuts(t, cuts) && Carried(c, t, cuts, 1) == MAX_PAGE_SIZE && Carried(c, t, cuts, 2) == 2 * MAX_PAGE_SIZE - 1
    ensures Carried(c, t, cuts, 3) == 3 * MAX_PAGE_SIZE - 1
  {
    var n := MAX_PAGE_SIZE;
    var s := t[n..2 * n];
    assert t[n..n + 1] + t[n + 1..2 * n] == s;
    PlainColumn(c, t[0..n]);
    PlainColumn(c, t[n + 1..2 * n]);
    PlainColumn(c, t[2 * n..3 * n]);
    PosConcat(c, t[n..n + 1], t[n + 1..2 * n]);
    assert t[n..n + 1] == [t[n]] && Column(c, [t[n]]) == 0;
    hide Column, Lines;
    assert Carried(c, t, cuts, 0) == 0;
    assert Carried(c, t, cuts, 1) == Carried(c, t, cuts, 0) + Column(c, t[cuts[0]..cuts[1]]);
    assert Carried(c, t, cuts, 2) == Carried(c, t, cuts, 1) + Column(c, t[cuts[1]..cuts[2]]);
    assert Carried(c, t, cuts, 3) == Carried(c, t, cuts, 2) + Column(c, t[cuts[2]..cuts[3]]);
  }

  lemma LongLineMisled(c: Coding, t: seq<byte>, cuts: seq<nat>)
    requires LongLine(c, t, cuts)
    ensures IsCuts(t, cuts) && Lines(c, t) == 1 && Misled(c, t, cuts, 1, 2 * MAX_PAGE_SIZE)
    ensures ColumnAt(c, t, 1, 2 * MAX_PAGE_SIZE, 3 * MAX_PAGE_SIZE + 1)
  {
    var n := MAX_PAGE_SIZE;
    LongLineCounts(c, t, cuts);
    hide Lines, Column, Carried;
    assert !Taken(c, t, cuts, 0, 1, 2 * n) && !Taken(c, t, cuts, 1, 1, 2 * n) && Taken(c, t, cuts, 2, 1, 2 * n);
    assert FirstTaken(c, t, cuts, 2, 1, 2 * n) && MisledIn(c, t, cuts, 2, 1, 2 * n);
    assert Walked(c, t, n + 1, 2 * n, 3 * n + 1);
  }

  /** Loading such a file and going to column 8192 of line 1, which is there,
      ends at another place. */
  method MisledOnFile(c: Coding) returns (b: PagedBuffer, offset: nat)
    requires !c.utf8 && c.eol == Unix
    ensures b.Valid() && b.coding == c
    ensures ColumnAt(c, b.Text(), 1, 2 * MAX_PAGE_SIZE, 3 * MAX_PAGE_SIZE + 1) && !ColumnAt(c, b.Text(), 1, 2 * MAX_PAGE_SIZE, offset)
  {
    hide Flat, PageOk, Lines, Column, Misled, ColumnAt;
    var file := new byte[4 * MAX_PAGE_SIZE](i => if i == MAX_PAGE_SIZE then LF else 97);
    b := new PagedBuffer.FromMapping(c, file);
    assert |b.pages| == 4;
    LongLineMisled(c, b.Text(), Cuts(b.pages));
    offset := GotoPos(b, 1, 2 * MAX_PAGE_SIZE);
  }

  lemma LinesConcat(c: Coding, s: seq<byte>, t: seq<byte>)
    ensures Lines(c, s + t) == Lines(c, s) + Lines(c, t)
  {
    PosConcat(c, s, t);
  }

  lemma LinesMonotone(c: Coding, t: seq<byte>, o: nat)
    requires o <= |t|
    ensures Lines(c, t[..o]) <= Lines(c, t)
  {
    LinesConcat(c, t[..o], t[o..]);
    assert t == t[..o] + t[o..];
  }

  lemma LineStartNil(c: Coding, s: seq<byte>)
    ensures Lines(c, s[..0]) == 0
  {
  }

  /** get_chars_func and goto_char_func of the charset. */
  method BlockChars(c: Coding, buf: seq<byte>) returns (n: nat)
    ensures n == Chars(c, buf)
  {
    if c.utf8 { n := GetCharsUtf8(c, buf); } else { n := GetChars8(c, buf); }
  }

  method BlockGoto(c: Coding, buf: seq<byte>, pos: nat) returns (at: nat)
    ensures IsChar(c, buf, pos, at)
  {
    if c.utf8 { at := GotoCharUtf8(c, buf, pos); } else { at := GotoChar8(c, buf, pos); }
  }

  /** The characters of page p, counted at most once between two edits. */
  method PageChars(b: PagedBuffer, p: nat) returns (n: nat)
    requires b.Valid() && p < |b.pages|
    modifies b`pages
    ensures b.Valid() && b.Text() == old(b.Text()) && SameSizes(b.pages, old(b.pages)) && Size(b.pages[..p]) == Size(old(b.pages)[..p])
    ensures PageOk(b.G(), b.pages[p]) && n == Chars(b.coding, PageBytes(b.G().file, b.pages[p]))
  {
    hide Flat, PosOf, Chars;
    if b.pages[p].chars.Stale? {
      var counted := BlockChars(b.coding, DataOf(b.mapping, b.pages[p]));
      Refresh(b, p, b.pages[p].(chars := Fresh(counted)));
    }
    n := b.pages[p].chars.value;
  }

  lemma NextChars(g: Ground, ps: seq<Page>, p: nat)
    requires AllOk(g, ps) && p < |ps|
    ensures Size(ps[..p + 1]) == Size(ps[..p]) + ps[p].size <= |Flat(g, ps)| && PageOk(g, ps[p])
    ensures var c, t := g.coding, Flat(g, ps);
      && Chars(c, t[..Size(ps[..p + 1])]) == Chars(c, t[..Size(ps[..p])]) + Chars(c, PageBytes(g.file, ps[p]))
      && Chars(c, t[..Size(ps[..p + 1])]) <= Chars(c, t)
  {
    hide Flat, Chars;
    WholePage(g, ps, p);
    CharsConcat(g.coding, Flat(g, ps)[..Size(ps[..p])], PageBytes(g.file, ps[p]));
    CharsPrefix(g.coding, Flat(g, ps), Size(ps[..p + 1]));
  }

  /** A character found in page p is that character of the text. */
  lemma CharInPage(g: Ground, ps: seq<Page>, p: nat, pos: nat, at: nat)
    requires AllOk(g, ps) && p < |ps| && Size(ps[..p]) <= |Flat(g, ps)| && PageOk(g, ps[p])
    requires IsChar(g.coding, PageBytes(g.file, ps[p]), pos, at) && pos < Chars(g.coding, PageBytes(g.file, ps[p]))
    ensures IsChar(g.coding, Flat(g, ps), Chars(g.coding, Flat(g, ps)[..Size(ps[..p])]) + pos, Size(ps[..p]) + at)
  {
    hide Flat, PageOk, Chars, PageBytes;
    PageFits(g, ps, p);
    var c, t, o, data := g.coding, Flat(g, ps), Size(ps[..p]), PageBytes(g.file, ps[p]);
    PageWindow(g, ps, p, at, at + 1);
    assert data[at] == data[at..at + 1][0] == t[o + at..o + at + 1][0] == t[o + at];
    PrefixPage(g, ps, p, at);
    CharsConcat(c, t[..o], data[..at]);
    CharsPrefix(c, t, o + at);
  }

  /** eb_goto_char. */
  method GotoChar(b: PagedBuffer, pos: nat) returns (offset: nat)
    requires b.Valid()
    modifies b`pages
    ensures b.Valid() && b.Text() == old(b.Text())
    ensures IsChar(b.coding, b.Text(), pos, offset)
  {
    hide Flat, PageOk, Chars, IsChar;
    ghost var g, c, t := b.G(), b.coding, b.Text();
    AllPages(g, b.pages);
    if !b.coding.utf8 && b.coding.eol != Dos {
      offset := Min(pos, b.totalSize);
      CharsEach(c, t, pos);
      return;
    }
    CharsNil(c);
    var p, left: nat := 0, pos;
    offset := 0;
    while p < |b.pages|
      invariant b.Valid() && b.G() == g && b.Text() == t && 0 <= p <= |b.pages|
      invariant offset == Size(b.pages[..p]) <= |t| && left + Chars(c, t[..offset]) == pos
      decreases |b.pages| - p
    {
      var n := PageChars(b, p);
      PageFits(g, b.pages, p);
      NextChars(g, b.pages, p);
      if left < n {
        var at := BlockGoto(b.coding, DataOf(b.mapping, b.pages[p]), left);
        CharInPage(g, b.pages, p, left, at);
        offset := offset + at;
        return;
      }
      left := left - n;
      offset := offset + b.pages[p].size;
      p := p + 1;
    }
    AllPages(g, b.pages);
    CharEnd(c, t, pos);
  }

  lemma CharsEach(c: Coding, t: seq<byte>, pos: nat)
    requires !c.utf8 && c.eol != Dos
    ensures IsChar(c, t, pos, Min(pos, |t|))
  {
    AllCounted(c, t);
    AllCounted(c, t[..Min(pos, |t|)]);
  }

  lemma CharsNil(c: Coding)
    ensures Chars(c, []) == 0
  {
  }

  lemma CharEnd(c: Coding, t: seq<byte>, pos: nat)
    requires Chars(c, t) <= pos
    ensures IsChar(c, t, pos, |t|)
  {
  }

  /** Where the start of the character around offset o is looked for. */
  function RoundDown(t: seq<byte>, o: nat): (r: nat)
    ensures r <= o
  {
    if 0 < o < |t| && Trailing(t[o]) then RoundDown(t, o - 1) else o
  }

  /** eb_get_char_offset. */
  method GetCharOffset(b: PagedBuffer, offset: int) returns (pos: nat)
    requires b.Valid()
    modifies b`pages, b`curPage, b`curOffset
    ensures b.Valid() && b.Text() == old(b.Text())
    ensures var t := b.Text();
      var o := if offset < 0 then 0 else Min(offset, |t|);
      pos == Chars(b.coding, t[..if b.coding.utf8 then RoundDown(t, o) else o])
  {
    hide Flat, PageOk, Chars;
    ghost var g, c, t := b.G(), b.coding, b.Text();
    AllPages(g, b.pages);
    var o: nat := if offset < 0 then 0 else offset;
    if !b.coding.utf8 && b.coding.eol != Dos {
      AllCounted(c, t[..Min(o, b.totalSize)]);
      return Min(o, b.totalSize);
    }
    if b.coding.utf8 { o := RoundOffset(b, o); }
    pos := CountBefore(b, o);
  }

  /** Backtrack over trailing bytes. */
  method RoundOffset(b: PagedBuffer, from: nat) returns (o: nat)
    requires b.Valid()
    modifies b`curPage, b`curOffset
    ensures b.Valid() && Min(o, |b.Text()|) == RoundDown(b.Text(), Min(from, |b.Text()|))
  {
    hide Flat, PageOk;
    ghost var t, g := b.Text(), b.G();
    o := from;
    while o > 0
      invariant b.Valid() && b.G() == g && b.Text() == t && o <= from
      invariant RoundDown(t, Min(o, |t|)) == RoundDown(t, Min(from, |t|))
      invariant o < from ==> o < |t|
    {
      var c := ReadOneByte(b, o);
      if c < 0 || !Trailing(c) { break; }
      o := o - 1;
    }
  }

  /** The page loop of eb_get_char_offset. */
  method CountBefore(b: PagedBuffer, offset: nat) returns (pos: nat)
    requires b.Valid()
    modifies b`pages
    ensures b.Valid() && b.Text() == old(b.Text()) && pos == Chars(b.coding, b.Text()[..Min(offset, |b.Text()|)])
  {
    hide Flat, PageOk, Chars;
    ghost var g, c, t := b.G(), b.coding, b.Text();
    AllPages(g, b.pages);
    CharsNil(c);
    pos := 0;
    var p, o: nat := 0, offset;
    while p < |b.pages|
      invariant b.Valid() && b.G() == g && b.Text() == t && 0 <= p <= |b.pages|
      invariant o + Size(b.pages[..p]) == offset && Size(b.pages[..p]) <= |t| && pos == Chars(c, t[..Size(b.pages[..p])])
      decreases |b.pages| - p
    {
      var n := PageChars(b, p);
      PageFits(g, b.pages, p);
      NextChars(g, b.pages, p);
      if o < b.pages[p].size {
        var data := DataOf(b.mapping, b.pages[p]);
        var k := BlockChars(b.coding, data[..o]);
        PrefixPage(g, b.pages, p, o);
        CharsConcat(c, t[..Size(b.pages[..p])], data[..o]);
        pos := pos + k;
        return;
      }
      pos := pos + n;
      o := o - b.pages[p].size;
      p := p + 1;
    }
    AllPages(g, b.pages);
  }

  /** A character position survives the way to an offset and back. */
  method CharRoundTrip(b: PagedBuffer, pos: nat) returns (back: nat)
    requires b.Valid()
    modifies b
    ensures b.Valid() && b.Text() == old(b.Text()) && b.coding == old(b.coding)
    ensures back == Min(pos, Chars(b.coding, b.Text()))
  {
    hide Flat, PageOk, Chars;
    var o := GotoChar(b, pos);
    back := GetCharOffset(b, o);
    assert b.Text()[..|b.Text()|] == b.Text();
  }

  /** A line number survives the way to an offset and back. */
  method LineRoundTrip(b: PagedBuffer, line: nat) returns (back: Pos)
    requires b.Valid() && !b.coding.utf8 && b.coding.eol != Dos
    modifies b
    ensures b.Valid() && b.Text() == old(b.Text()) && b.coding == old(b.coding)
    ensures back == if line <= Lines(b.coding, b.Text()) then Pos(line, 0) else PosOf(b.coding, b.Text())
  {
    hide Flat, PageOk, PosOf, Lines;
    var o := GotoPos(b, line, 0);
    back := GetPos(b, o);
    if line <= Lines(b.coding, b.Text()) {
      LineStartColumn(b.coding, b.Text(), line, o);
    } else {
      assert b.Text()[..|b.Text()|] == b.Text();
    }
  }
}
