/** Characters, columns and tab stops (extras.c): how a text looks, and which blanks
    look the same. The text is decoded by eb_nextc, here a parameter: any charset
    in which the bytes of space and tab are those of ASCII. */
module TabLayout {
  import opened Bytes
  import opened Counting

  const TAB: byte := 9
  const SPACE: byte := 32

  /** eb_nextc looks at two characters at most. */
  const LOOKAHEAD: int := 12

  /** A character and the number of its bytes. */
  datatype Glyph = Glyph(c: int, n: nat)

  /** A tab width, the screen width of each character (qe_wcwidth), and the
      decoder of the bytes from an offset on. */
  datatype Ruler = Ruler(tw: nat, width: int -> nat, dec: seq<byte> -> Glyph)

  /** eb_nextc on the bytes from an offset on: it takes at least one byte and
      stays inside the text. */
  function Next(r: Ruler, s: seq<byte>): (g: Glyph)
    requires s != []
    ensures 1 <= g.n <= |s|
  {
    var g := r.dec(s);
    if 1 <= g.n <= |s| then g else g.(n := |s|)
  }

  predicate StartsBlank(r: Ruler, s: seq<byte>) {
    s != [] && (Next(r, s).c == SPACE || Next(r, s).c == TAB)
  }

  /** The bytes of space and tab are these characters, and no longer character
      has a tab byte inside. (There may be other forms of both.) */
  ghost predicate BlanksAlone(r: Ruler) {
    forall s :: s != [] ==>
      && (s[0] == SPACE ==> Next(r, s) == Glyph(SPACE, 1)) && (s[0] == TAB ==> Next(r, s) == Glyph(TAB, 1))
      && (forall i :: 0 < i < Next(r, s).n ==> s[i] != TAB)
  }

  /** It looks a limited way ahead. */
  ghost predicate LooksAhead(r: Ruler) {
    forall s :: |s| > LOOKAHEAD ==> Next(r, s) == Next(r, s[..LOOKAHEAD])
  }

  /** A character that ends before a blank does not depend on what follows it,
      as long as that is a blank. */
  ghost predicate EndsAtBlank(r: Ruler) {
    forall u, p, q :: u != [] && StartsBlank(r, p) && StartsBlank(r, q) && Next(r, u + p).n <= |u| ==> Next(r, u + q) == Next(r, u + p)
  }

  ghost predicate RulerOk(r: Ruler) {
    r.tw > 0 && r.width(SPACE as int) == 1 && BlanksAlone(r) && LooksAhead(r) && EndsAtBlank(r)
  }

  /** tw of both commands. */
  function TabWidth(tabWidth: int): nat {
    if tabWidth > 0 then tabWidth else 8
  }

  function Spaces(n: nat): (s: seq<byte>)
    ensures |s| == n
  {
    seq(n, _ => SPACE)
  }

  /** n spaces of a layout. */
  function Gap(n: nat): (s: seq<int>)
    ensures |s| == n
  {
    seq(n, _ => SPACE as int)
  }

  function ToStop(r: Ruler, col: nat): (n: nat)
    requires r.tw > 0
    ensures 0 < n <= r.tw
  {
    r.tw - col % r.tw
  }

  /** The column after a character. */
  function After(r: Ruler, col: nat, c: int): nat
    requires r.tw > 0
  {
    if c == CR || c == LF then 0 else if c == TAB then col + ToStop(r, col) else col + r.width(c)
  }

  /** The layout of a line and what follows it, from a column on: its
      characters, each tab replaced by the spaces it stands for. */
  ghost function Expand(r: Ruler, col: nat, s: seq<byte>): seq<int>
    requires r.tw > 0
    decreases |s|
  {
    if s == [] then []
    else
      var g := Next(r, s);
      (if g.c == TAB then Gap(ToStop(r, col)) else [g.c]) + Expand(r, After(r, col, g.c), s[g.n..])
  }

  /** Position k of s is between two characters. */
  ghost predicate Between(r: Ruler, s: seq<byte>, k: nat)
    requires r.tw > 0
    decreases |s|
  {
    k == 0 || (s != [] && Next(r, s).n <= k <= |s| && Between(r, s[Next(r, s).n..], k - Next(r, s).n))
  }

  /** The column at such a position, and the layout up to it. */
  ghost function ColAt(r: Ruler, col: nat, s: seq<byte>, k: nat): nat
    requires r.tw > 0 && Between(r, s, k)
    decreases |s|
  {
    if k == 0 then col else ColAt(r, After(r, col, Next(r, s).c), s[Next(r, s).n..], k - Next(r, s).n)
  }

  ghost function Head(r: Ruler, col: nat, s: seq<byte>, k: nat): seq<int>
    requires r.tw > 0 && Between(r, s, k)
    decreases |s|
  {
    if k == 0 then []
    else
      var g := Next(r, s);
      (if g.c == TAB then Gap(ToStop(r, col)) else [g.c]) + Head(r, After(r, col, g.c), s[g.n..], k - g.n)
  }

  lemma {:induction false} ExpandCut(r: Ruler, col: nat, s: seq<byte>, k: nat)
    requires r.tw > 0 && Between(r, s, k)
    ensures k <= |s| && Expand(r, col, s) == Head(r, col, s, k) + Expand(r, ColAt(r, col, s, k), s[k..])
    decreases |s|
  {
    if k > 0 {
      var g := Next(r, s);
      ExpandCut(r, After(r, col, g.c), s[g.n..], k - g.n);
      assert s[g.n..][k - g.n..] == s[k..];
    } else {
      assert s[0..] == s;
    }
  }

  /** One more character. */
  lemma {:induction false} BetweenNext(r: Ruler, col: nat, s: seq<byte>, k: nat)
    requires r.tw > 0 && Between(r, s, k) && k < |s|
    ensures 1 <= Next(r, s[k..]).n <= |s| - k && Between(r, s, k + Next(r, s[k..]).n)
    ensures ColAt(r, col, s, k + Next(r, s[k..]).n) == After(r, ColAt(r, col, s, k), Next(r, s[k..]).c)
    decreases |s|
  {
    var g := Next(r, s);
    if k > 0 {
      BetweenNext(r, After(r, col, g.c), s[g.n..], k - g.n);
      assert s[g.n..][k - g.n..] == s[k..];
    } else {
      assert s[0..] == s;
    }
  }

  /** What comes before a blank is read the same before another blank. */
  lemma {:induction false} SameBefore(r: Ruler, col: nat, u: seq<byte>, p: seq<byte>, q: seq<byte>)
    requires RulerOk(r) && Between(r, u + p, |u|) && StartsBlank(r, p) && StartsBlank(r, q)
    ensures Between(r, u + q, |u|)
    ensures ColAt(r, col, u + q, |u|) == ColAt(r, col, u + p, |u|)
    ensures Head(r, col, u + q, |u|) == Head(r, col, u + p, |u|)
    decreases |u|
  {
    hide BlanksAlone, LooksAhead, EndsAtBlank, Next;
    if u != [] {
      SameGlyph(r, u, p, q);
      var g := Next(r, u + p);
      var v := u[g.n..];
      assert (u + p)[g.n..] == v + p && (u + q)[g.n..] == v + q;
      SameBefore(r, After(r, col, g.c), v, p, q);
    }
  }

  /** No character that begins at from..to is a tab, in whatever form. */
  ghost predicate NoTabs(r: Ruler, s: seq<byte>, from: int, to: int)
    decreases |s|
  {
    s == [] || to <= 0
    || ((from <= 0 ==> Next(r, s).c != TAB) && NoTabs(r, s[Next(r, s).n..], from - Next(r, s).n, to - Next(r, s).n))
  }

  lemma {:induction false} NoTabsAt(r: Ruler, s: seq<byte>, from: int, to: int, k: nat)
    requires r.tw > 0 && NoTabs(r, s, from, to) && Between(r, s, k) && from <= k < to && k < |s|
    ensures Next(r, s[k..]).c != TAB
    decreases |s|
  {
    if k == 0 {
      assert s[0..] == s;
    } else {
      var n := Next(r, s).n;
      NoTabsAt(r, s[n..], from - n, to - n, k - n);
      assert s[n..][k - n..] == s[k..];
    }
  }

  lemma {:induction false} NoTabsThen(r: Ruler, s: seq<byte>, from: int, k: nat, more: int)
    requires r.tw > 0 && Between(r, s, k) && k <= |s| && NoTabs(r, s, from, k) && NoTabs(r, s[k..], from - k, more)
    ensures NoTabs(r, s, from, k + more)
    decreases |s|
  {
    hide Next;
    if k == 0 {
      assert s[0..] == s;
    } else {
      var n := Next(r, s).n;
      assert s[n..][k - n..] == s[k..];
      NoTabsThen(r, s[n..], from - n, k - n, more);
    }
  }

  lemma {:induction false} NoTabsKept(r: Ruler, u: seq<byte>, p: seq<byte>, q: seq<byte>, from: int)
    requires RulerOk(r) && Between(r, u + p, |u|) && StartsBlank(r, p) && StartsBlank(r, q) && NoTabs(r, u + p, from, |u|)
    ensures NoTabs(r, u + q, from, |u|)
    decreases |u|
  {
    hide BlanksAlone, LooksAhead, EndsAtBlank, Next;
    if u != [] {
      SameGlyph(r, u, p, q);
      var n := Next(r, u + p).n;
      var v := u[n..];
      assert (u + p)[n..] == v + p && (u + q)[n..] == v + q;
      NoTabsKept(r, v, p, q, from - n);
    }
  }

  lemma {:induction false} NoTabsInSpaces(r: Ruler, n: nat, rest: seq<byte>, from: int)
    requires RulerOk(r)
    ensures NoTabs(r, Spaces(n) + rest, from, n)
    decreases n
  {
    hide BlanksAlone, LooksAhead, EndsAtBlank, Next;
    if n > 0 {
      var s := Spaces(n) + rest;
      AloneAt(r, s);
      assert s[1..] == Spaces(n - 1) + rest;
      NoTabsInSpaces(r, n - 1, rest, from - 1);
    }
  }

  lemma SameGlyph(r: Ruler, u: seq<byte>, p: seq<byte>, q: seq<byte>)
    requires RulerOk(r) && u != [] && StartsBlank(r, p) && StartsBlank(r, q) && Next(r, u + p).n <= |u|
    ensures Next(r, u + q) == Next(r, u + p)
  {
    hide Next, BlanksAlone, LooksAhead;
  }

  // Blanks

  lemma ExpandStep(r: Ruler, col: nat, s: seq<byte>)
    requires r.tw > 0 && s != []
    ensures var g := Next(r, s);
      Expand(r, col, s) == (if g.c == TAB then Gap(ToStop(r, col)) else [g.c]) + Expand(r, After(r, col, g.c), s[g.n..])
  {
    hide Next, ToStop, After;
  }

  lemma AloneAt(r: Ruler, s: seq<byte>)
    requires RulerOk(r) && s != []
    ensures (s[0] == SPACE ==> Next(r, s) == Glyph(SPACE, 1)) && (s[0] == TAB ==> Next(r, s) == Glyph(TAB, 1))
    ensures forall i :: 0 < i < Next(r, s).n ==> s[i] != TAB
    ensures r.tw > 0 && r.width(SPACE as int) == 1
  {
    hide Next, EndsAtBlank, LooksAhead;
  }

  lemma JoinGap(a: nat, b: nat, rest: seq<int>)
    ensures Gap(a) + (Gap(b) + rest) == Gap(a + b) + rest
  {
    assert Gap(a) + Gap(b) == Gap(a + b);
  }

  lemma {:induction false} SpacesExpand(r: Ruler, col: nat, n: nat, rest: seq<byte>)
    requires RulerOk(r)
    ensures Expand(r, col, Spaces(n) + rest) == Gap(n) + Expand(r, col + n, rest)
    decreases n
  {
    hide Expand, BlanksAlone, LooksAhead, EndsAtBlank, Next;
    if n == 0 {
      assert Spaces(0) + rest == rest;
      assert Gap(0) + Expand(r, col, rest) == Expand(r, col, rest);
    } else {
      var s := Spaces(n) + rest;
      assert s[1..] == Spaces(n - 1) + rest;
      AloneAt(r, s);
      ExpandStep(r, col, s);
      SpacesExpand(r, col + 1, n - 1, rest);
      JoinGap(1, n - 1, Expand(r, col + n, rest));
      assert Gap(1) == [SPACE as int];
    }
  }

  lemma TabExpand(r: Ruler, col: nat, s: seq<byte>)
    requires r.tw > 0 && s != [] && Next(r, s).c == TAB
    ensures Expand(r, col, s) == Gap(ToStop(r, col)) + Expand(r, col + ToStop(r, col), s[Next(r, s).n..])
  {
    hide Expand, Next, ToStop;
    ExpandStep(r, col, s);
  }

  /** The first k bytes of s are blanks that look like n spaces. */
  ghost predicate BlankRun(r: Ruler, col: nat, s: seq<byte>, k: nat, n: nat)
    requires r.tw > 0
  {
    && k <= |s| && (k > 0 ==> StartsBlank(r, s)) && Between(r, s, k) && ColAt(r, col, s, k) == col + n
    && Expand(r, col, s) == Gap(n) + Expand(r, col + n, s[k..])
  }

  lemma NoBlank(r: Ruler, col: nat, s: seq<byte>)
    requires r.tw > 0
    ensures BlankRun(r, col, s, 0, 0)
  {
    hide Expand;
    assert s[0..] == s;
    assert Gap(0) + Expand(r, col, s) == Expand(r, col, s);
  }

  /** One more blank: a space, or a tab up to its stop. */
  lemma NextBlank(r: Ruler, col: nat, s: seq<byte>, k: nat, n: nat)
    requires RulerOk(r) && BlankRun(r, col, s, k, n) && k < |s| && StartsBlank(r, s[k..])
    ensures var g := Next(r, s[k..]);
      BlankRun(r, col, s, k + g.n, n + if g.c == TAB then ToStop(r, col + n) else 1)
  {
    hide Expand, BlanksAlone, LooksAhead, EndsAtBlank, Next, Between, ColAt, ToStop;
    var g := Next(r, s[k..]);
    var m := if g.c == TAB then ToStop(r, col + n) else 1;
    ExpandStep(r, col + n, s[k..]);
    BetweenNext(r, col, s, k);
    assert s[k..][g.n..] == s[k + g.n..];
    assert Gap(1) == [SPACE as int];
    JoinGap(n, m, Expand(r, col + n + m, s[k + g.n..]));
    if k == 0 { assert s[0..] == s; }
  }

  /** Columns inside one tab stop. */
  lemma SameStop(tw: nat, col: nat, n: nat)
    requires tw > 0 && col % tw + n < tw
    ensures (col + n) % tw == col % tw + n
  {
    Remainder(tw, col / tw, col % tw + n, col + n);
  }

  lemma NextStop(tw: nat, col: nat, n: nat)
    requires tw > 0 && col % tw + n == tw
    ensures (col + n) % tw == 0
  {
    Remainder(tw, col / tw + 1, 0, col + n);
  }

  lemma Remainder(d: int, q: int, m: int, x: int)
    requires d > 0 && 0 <= m < d && x == q * d + m
    ensures x % d == m
  {
    var k := x / d - q;
    assert k * d == m - x % d by {
      assert x == (x / d) * d + x % d;
      assert k * d == (x / d) * d - q * d;
    }
    assert k == 0 by {
      assert k >= 1 ==> k * d >= d;
      assert k <= -1 ==> k * d <= -d;
    }
  }
}
