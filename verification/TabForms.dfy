/** The form that do_tabify leaves (extras.c): no two spaces that end at a tab stop
    and could be a tab, and no space in front of a tab that reaches the same stop
    without it. */
module TabForms {
  import opened Bytes
  import opened TabLayout

  predicate Blank(c: int) { c == SPACE || c == TAB }

  /** The first character of s, at column col, and the one behind it, if that
      begins before `to`: a space that does not reach a stop is followed neither
      by a tab nor by a space that does. */
  ghost predicate Tidy(r: Ruler, col: nat, s: seq<byte>, to: int)
    requires r.tw > 0 && s != []
  {
    var g := Next(r, s);
    g.c == SPACE && (col + 1) % r.tw != 0 && g.n < to && g.n < |s| ==>
      var h := Next(r, s[g.n..]);
      h.c != TAB && !(h.c == SPACE && (col + 2) % r.tw == 0)
  }

  /** All characters that begin at from .. to are tidy. */
  ghost predicate Neat(r: Ruler, col: nat, s: seq<byte>, from: int, to: int)
    requires r.tw > 0
    decreases |s|
  {
    s == [] || to <= 0
    || ((from <= 0 ==> Tidy(r, col, s, to)) && Neat(r, After(r, col, Next(r, s).c), s[Next(r, s).n..], from - Next(r, s).n, to - Next(r, s).n))
  }

  /** The last character before k begins at `from` or later and is a space that does
      not reach a stop. */
  ghost predicate OpenEnd(r: Ruler, col: nat, s: seq<byte>, from: int, k: int)
    requires r.tw > 0
    decreases |s|
  {
    k > 0 && s != [] &&
    var g := Next(r, s);
    if g.n >= k then from <= 0 && g.c == SPACE && (col + 1) % r.tw != 0
    else OpenEnd(r, After(r, col, g.c), s[g.n..], from - g.n, k - g.n)
  }

  /** The same, character by character. */
  ghost predicate TabNormal(r: Ruler, t: seq<byte>, bol: nat, start: nat, stop: int)
    requires r.tw > 0 && bol <= |t|
  {
    forall p: nat :: bol <= p < |t| && start <= p < stop && Between(r, t[bol..], p - bol) ==>
      Tidy(r, ColAt(r, 0, t[bol..], p - bol), t[p..], stop - p)
  }

  lemma {:induction false} NeatRest(r: Ruler, col: nat, s: seq<byte>, from: int, to: int, k: nat)
    requires r.tw > 0 && Neat(r, col, s, from, to) && Between(r, s, k) && k <= |s|
    ensures Neat(r, ColAt(r, col, s, k), s[k..], from - k, to - k)
    decreases |s|
  {
    hide Next, Tidy, After;
    if k == 0 {
      assert s[0..] == s;
    } else if to > 0 {
      var n := Next(r, s).n;
      NeatRest(r, After(r, col, Next(r, s).c), s[n..], from - n, to - n, k - n);
      assert s[n..][k - n..] == s[k..];
    }
  }

  lemma {:induction false} NeatAll(r: Ruler, col: nat, s: seq<byte>, from: int, to: int)
    requires r.tw > 0
    requires forall k: nat :: k < |s| && from <= k < to && Between(r, s, k) ==> Tidy(r, ColAt(r, col, s, k), s[k..], to - k)
    ensures Neat(r, col, s, from, to)
    decreases |s|
  {
    hide Next, Tidy, After;
    if s != [] && to > 0 {
      var n, col1 := Next(r, s).n, After(r, col, Next(r, s).c);
      var u := s[n..];
      assert s[0..] == s && Between(r, s, 0);
      forall k: nat | k < |u| && from - n <= k < to - n && Between(r, u, k) ensures Tidy(r, ColAt(r, col1, u, k), u[k..], to - n - k) {
        assert Between(r, s, k + n) && ColAt(r, col, s, k + n) == ColAt(r, col1, u, k);
        assert u[k..] == s[k + n..];
      }
      NeatAll(r, col1, u, from - n, to - n);
    }
  }

  lemma NormalIsNeat(r: Ruler, t: seq<byte>, bol: nat, start: nat, stop: int)
    requires r.tw > 0 && bol <= start && bol <= |t|
    ensures TabNormal(r, t, bol, start, stop) <==> Neat(r, 0, t[bol..], start - bol, stop - bol)
  {
    hide Next, Tidy, After, Neat, Between, ColAt;
    var s := t[bol..];
    if Neat(r, 0, s, start - bol, stop - bol) {
      forall p: nat | bol <= p < |t| && start <= p < stop && Between(r, s, p - bol)
        ensures Tidy(r, ColAt(r, 0, s, p - bol), t[p..], stop - p)
      {
        NeatRest(r, 0, s, start - bol, stop - bol, p - bol);
        assert s[p - bol..] == t[p..];
        FirstTidy(r, ColAt(r, 0, s, p - bol), t[p..], start - p, stop - p);
      }
    }
    if TabNormal(r, t, bol, start, stop) {
      forall k: nat | k < |s| && start - bol <= k < stop - bol && Between(r, s, k) ensures Tidy(r, ColAt(r, 0, s, k), s[k..], stop - bol - k) {
        assert s[k..] == t[bol + k..] && bol + k - bol == k;
      }
      NeatAll(r, 0, s, start - bol, stop - bol);
    }
  }

  lemma FirstTidy(r: Ruler, col: nat, s: seq<byte>, from: int, to: int)
    requires r.tw > 0 && Neat(r, col, s, from, to) && s != [] && from <= 0 < to
    ensures Tidy(r, col, s, to)
  {
  }

  lemma {:induction false} NeatLess(r: Ruler, col: nat, s: seq<byte>, from: int, to: int, less: int)
    requires r.tw > 0 && Neat(r, col, s, from, to) && less <= to
    ensures Neat(r, col, s, from, less)
    decreases |s|
  {
    hide Next, After;
    if s != [] && less > 0 {
      var n := Next(r, s).n;
      NeatLess(r, After(r, col, Next(r, s).c), s[n..], from - n, to - n, less - n);
    }
  }

  /** What may follow the last character before k. */
  ghost predicate MayFollow(r: Ruler, col: nat, s: seq<byte>)
    requires r.tw > 0
  {
    s == [] || (Next(r, s).c != TAB && !(Next(r, s).c == SPACE && (col + 1) % r.tw == 0))
  }

  lemma {:induction false} NeatThen(r: Ruler, col: nat, s: seq<byte>, from: int, k: nat, more: int)
    requires RulerOk(r) && Between(r, s, k) && k <= |s| && Neat(r, col, s, from, k)
    requires Neat(r, ColAt(r, col, s, k), s[k..], from - k, more)
    requires OpenEnd(r, col, s, from, k) && more > 0 ==> MayFollow(r, ColAt(r, col, s, k), s[k..])
    ensures Neat(r, col, s, from, k + more)
    decreases |s|
  {
    hide BlanksAlone, LooksAhead, EndsAtBlank, Next;
    if k == 0 {
      assert s[0..] == s;
    } else {
      var n, col1 := Next(r, s).n, After(r, col, Next(r, s).c);
      assert s[n..][k - n..] == s[k..];
      NeatThen(r, col1, s[n..], from - n, k - n, more);
      if from <= 0 && k + more > 0 && n == k { SpaceCol(r, col); }
    }
  }

  lemma SpaceCol(r: Ruler, col: nat)
    requires RulerOk(r)
    ensures After(r, col, SPACE) == col + 1
  {
    hide BlanksAlone, LooksAhead, EndsAtBlank;
  }

  lemma {:induction false} OpenThen(r: Ruler, col: nat, s: seq<byte>, from: int, k: nat, more: int)
    requires r.tw > 0 && Between(r, s, k) && k < |s| && more > 0
    ensures OpenEnd(r, col, s, from, k + more) <==> OpenEnd(r, ColAt(r, col, s, k), s[k..], from - k, more)
    decreases |s|
  {
    hide Next, After;
    if k == 0 {
      assert s[0..] == s;
    } else {
      var n := Next(r, s).n;
      assert s[n..][k - n..] == s[k..];
      OpenThen(r, After(r, col, Next(r, s).c), s[n..], from - n, k - n, more);
    }
  }

  /** What comes before a blank is as neat before another blank. */
  lemma {:induction false} NeatKept(r: Ruler, col: nat, u: seq<byte>, p: seq<byte>, q: seq<byte>, from: int)
    requires RulerOk(r) && Between(r, u + p, |u|) && StartsBlank(r, p) && StartsBlank(r, q)
    ensures Neat(r, col, u + p, from, |u|) ==> Neat(r, col, u + q, from, |u|)
    ensures OpenEnd(r, col, u + p, from, |u|) <==> OpenEnd(r, col, u + q, from, |u|)
    decreases |u|
  {
    hide BlanksAlone, LooksAhead, EndsAtBlank, Next, After;
    if u != [] {
      SameGlyph(r, u, p, q);
      var g := Next(r, u + p);
      var v := u[g.n..];
      assert (u + p)[g.n..] == v + p && (u + q)[g.n..] == v + q;
      NeatKept(r, After(r, col, g.c), v, p, q, from - g.n);
      if v != [] { SameGlyph(r, v, p, q); }
    }
  }

  // Runs of spaces

  /** The first k bytes are spaces. */
  ghost predicate OnlySpaces(r: Ruler, s: seq<byte>, k: int)
    decreases |s|
  {
    k == 0 || (s != [] && Next(r, s).c == SPACE && Next(r, s).n <= k && OnlySpaces(r, s[Next(r, s).n..], k - Next(r, s).n))
  }

  lemma {:induction false} OnlySpacesMore(r: Ruler, s: seq<byte>, k: nat)
    requires OnlySpaces(r, s, k) && k < |s| && Next(r, s[k..]).c == SPACE
    ensures OnlySpaces(r, s, k + Next(r, s[k..]).n)
    decreases |s|
  {
    hide Next;
    if k == 0 {
      assert s[0..] == s;
    } else {
      var n := Next(r, s).n;
      assert s[n..][k - n..] == s[k..];
      OnlySpacesMore(r, s[n..], k - n);
    }
  }

  /** A step inside a tab cell. */
  lemma InCell(r: Ruler, col: nat, n: nat)
    requires r.tw > 0 && 0 < n < ToStop(r, col)
    ensures (col + n) % r.tw != 0 && (n > 1 ==> n - 1 < ToStop(r, col + 1)) && ToStop(r, col + 1) == ToStop(r, col) - 1
  {
    SameStop(r.tw, col, n);
    SameStop(r.tw, col, 1);
  }

  lemma {:induction false} SpacesAhead(r: Ruler, col: nat, s: seq<byte>, k: nat)
    requires RulerOk(r) && OnlySpaces(r, s, k) && Between(r, s, k)
    ensures ColAt(r, col, s, k) >= col && (k > 0 ==> ColAt(r, col, s, k) > col)
    decreases |s|
  {
    hide BlanksAlone, LooksAhead, EndsAtBlank, Next, After;
    if k > 0 {
      SpaceCol(r, col);
      SpacesAhead(r, col + 1, s[Next(r, s).n..], k - Next(r, s).n);
    }
  }

  lemma {:induction false} SpacesNeat(r: Ruler, col: nat, s: seq<byte>, from: int, k: nat)
    requires RulerOk(r) && OnlySpaces(r, s, k) && Between(r, s, k) && ColAt(r, col, s, k) - col < ToStop(r, col)
    ensures Neat(r, col, s, from, k)
    decreases |s|
  {
    hide BlanksAlone, LooksAhead, EndsAtBlank, Next, After, ToStop;
    if k > 0 {
      var n := Next(r, s).n;
      SpaceCol(r, col);
      SpacesAhead(r, col, s, k);
      InCell(r, col, ColAt(r, col, s, k) - col);
      if n < k {
        SpacesAhead(r, col + 1, s[n..], k - n);
        InCell(r, col, 2);
      }
      SpacesNeat(r, col + 1, s[n..], from - n, k - n);
    }
  }

  /** Spaces inside a cell and a blank that reaches the stop are not neat. */
  lemma {:induction false} BrokenRun(r: Ruler, col: nat, s: seq<byte>, from: int, to: int, k: nat)
    requires RulerOk(r) && OnlySpaces(r, s, k) && Between(r, s, k) && 0 < k < |s| && k < to && from <= 0
    requires ColAt(r, col, s, k) - col < ToStop(r, col)
    requires Next(r, s[k..]).c == TAB || (Next(r, s[k..]).c == SPACE && (ColAt(r, col, s, k) + 1) % r.tw == 0)
    ensures !Neat(r, col, s, from, to)
    decreases |s|
  {
    hide BlanksAlone, LooksAhead, EndsAtBlank, Next, After, ToStop;
    var n := Next(r, s).n;
    SpaceCol(r, col);
    SpacesAhead(r, col, s, k);
    InCell(r, col, ColAt(r, col, s, k) - col);
    if n == k {
      InCell(r, col, 1);
    } else {
      assert s[n..][k - n..] == s[k..];
      BrokenRun(r, col + 1, s[n..], from - n, to - n, k - n);
    }
  }

  // The state of the loop

  /** Where the loop of do_tabify is with the form: everything before offset is
      neat, an open space before it is not followed by a blank, a change has made
      the text shorter, and a text that was in form has not changed. */
  ghost predicate Tidied(r: Ruler, t0: seq<byte>, t: seq<byte>, bol: nat, offset: nat, col: nat, start: nat, stop: int, stop0: int)
    requires r.tw > 0
  {
    && bol <= offset <= |t| && bol <= |t0| && Between(r, t[bol..], offset - bol) && col == ColAt(r, 0, t[bol..], offset - bol)
    && Neat(r, 0, t[bol..], start - bol, offset - bol)
    && (OpenEnd(r, 0, t[bol..], start - bol, offset - bol) && offset < stop ==> offset < |t| && !Blank(Next(r, t[offset..]).c))
    && |t| - stop == |t0| - stop0 && stop <= stop0 && (stop == stop0 ==> t == t0)
    && (Neat(r, 0, t0[bol..], start - bol, stop0 - bol) ==> t == t0)
  }

  lemma TidyStart(r: Ruler, t: seq<byte>, bol: nat, start: nat, stop: int)
    requires r.tw > 0 && bol <= |t|
    ensures Tidied(r, t, t, bol, bol, 0, start, stop, stop)
  {
  }

  /** The next character goes on from the part before it. */
  lemma Extend(r: Ruler, t: seq<byte>, bol: nat, offset: nat, col: nat, start: nat, more: nat)
    requires RulerOk(r) && bol <= offset < |t| && Between(r, t[bol..], offset - bol) && col == ColAt(r, 0, t[bol..], offset - bol)
    requires Neat(r, 0, t[bol..], start - bol, offset - bol) && Neat(r, col, t[offset..], start - offset, more) && more > 0
    requires OpenEnd(r, 0, t[bol..], start - bol, offset - bol) ==> MayFollow(r, col, t[offset..])
    ensures Neat(r, 0, t[bol..], start - bol, offset + more - bol)
    ensures OpenEnd(r, 0, t[bol..], start - bol, offset + more - bol) <==> OpenEnd(r, col, t[offset..], start - offset, more)
  {
    hide Neat, OpenEnd, Between, ColAt, BlanksAlone, LooksAhead, EndsAtBlank, Next;
    var s, k := t[bol..], offset - bol;
    assert s[k..] == t[offset..];
    NeatThen(r, 0, s, start - bol, k, more);
    OpenThen(r, 0, s, start - bol, k, more);
  }

  lemma OneChar(r: Ruler, col: nat, s: seq<byte>, from: int)
    requires r.tw > 0 && s != []
    ensures Neat(r, col, s, from, Next(r, s).n)
    ensures OpenEnd(r, col, s, from, Next(r, s).n) <==> from <= 0 && Next(r, s).c == SPACE && (col + 1) % r.tw != 0
  {
    hide Next, After;
  }

  /** Passing over a character that starts no run. */
  lemma TidyNext(r: Ruler, t0: seq<byte>, t: seq<byte>, bol: nat, offset: nat, col: nat, start: nat, stop: int, stop0: int)
    requires RulerOk(r) && Tidied(r, t0, t, bol, offset, col, start, stop, stop0) && offset < stop <= |t|
    requires Next(r, t[offset..]).c != SPACE || offset < start || (col + 1) % r.tw == 0
    ensures var g := Next(r, t[offset..]);
      Tidied(r, t0, t, bol, offset + g.n, After(r, col, g.c), start, stop, stop0)
  {
    hide Neat, OpenEnd, BlanksAlone, LooksAhead, EndsAtBlank, Next, After, Between, ColAt;
    var g := Next(r, t[offset..]);
    OneChar(r, col, t[offset..], start - offset);
    Extend(r, t, bol, offset, col, start, g.n);
    BetweenNext(r, 0, t[bol..], offset - bol);
    assert t[bol..][offset - bol..] == t[offset..];
  }

  /** Passing over spaces that stay. */
  lemma TidyRun(r: Ruler, t0: seq<byte>, t: seq<byte>, bol: nat, offset: nat, col: nat, start: nat, stop: int, stop0: int, k: nat, n: nat)
    requires RulerOk(r) && Tidied(r, t0, t, bol, offset, col, start, stop, stop0) && start <= offset < stop <= |t|
    requires 0 < k && BlankRun(r, col, t[offset..], k, n) && OnlySpaces(r, t[offset..], k) && n < ToStop(r, col)
    requires offset + k < stop ==> !Blank(Next(r, t[offset + k..]).c)
    ensures Tidied(r, t0, t, bol, offset + k, col + n, start, stop, stop0)
  {
    hide Neat, OpenEnd, BlanksAlone, LooksAhead, EndsAtBlank, Next, After, Between, ColAt, Expand, ToStop;
    SpacesNeat(r, col, t[offset..], start - offset, k);
    FirstSpace(r, t[offset..], k);
    Extend(r, t, bol, offset, col, start, k);
    assert t[bol..][offset - bol..] == t[offset..];
    BetweenBoth(r, 0, t[bol..], offset - bol, k);
  }

  lemma FirstSpace(r: Ruler, s: seq<byte>, k: nat)
    requires OnlySpaces(r, s, k) && k > 0
    ensures s != [] && Next(r, s).c == SPACE
  {
    hide Next;
  }

  lemma {:induction false} BetweenBoth(r: Ruler, col: nat, s: seq<byte>, i: nat, k: nat)
    requires r.tw > 0 && i <= |s| && Between(r, s, i) && Between(r, s[i..], k)
    ensures Between(r, s, i + k) && ColAt(r, col, s, i + k) == ColAt(r, ColAt(r, col, s, i), s[i..], k)
    decreases |s|
  {
    hide Next, After;
    if i == 0 {
      assert s[0..] == s;
    } else {
      var g := Next(r, s);
      assert s[g.n..][i - g.n..] == s[i..];
      BetweenBoth(r, After(r, col, g.c), s[g.n..], i - g.n, k);
    }
  }

  /** A run and the blank that reaches the stop: the text was not in form. */
  lemma NotInForm(r: Ruler, t0: seq<byte>, t: seq<byte>, bol: nat, offset: nat, col: nat, start: nat, stop: int, stop0: int, k: nat, n: nat)
    requires RulerOk(r) && Tidied(r, t0, t, bol, offset, col, start, stop, stop0) && start <= offset && offset + k < stop <= |t|
    requires 0 < k && BlankRun(r, col, t[offset..], k, n) && OnlySpaces(r, t[offset..], k) && n < ToStop(r, col)
    requires Next(r, t[offset + k..]).c == TAB || (Next(r, t[offset + k..]).c == SPACE && (col + n + 1) % r.tw == 0)
    ensures !Neat(r, 0, t0[bol..], start - bol, stop0 - bol)
  {
    hide Neat, OpenEnd, BlanksAlone, LooksAhead, EndsAtBlank, Next, After, Between, ColAt, Expand, ToStop;
    if Neat(r, 0, t0[bol..], start - bol, stop0 - bol) {
      assert t[bol..][offset - bol..] == t[offset..] && t[offset..][k..] == t[offset + k..];
      NeatRest(r, 0, t[bol..], start - bol, stop - bol, offset - bol);
      BrokenRun(r, col, t[offset..], start - offset, stop - offset, k);
    }
  }

  /** Blanks at offset give way to something that starts with a tab: a tab alone, or
      what was behind them. */
  lemma TidyTab(r: Ruler, t0: seq<byte>, t: seq<byte>, bol: nat, offset: nat, col: nat, start: nat, stop: int, stop0: int, q: seq<byte>)
    requires RulerOk(r) && Tidied(r, t0, t, bol, offset, col, start, stop, stop0) && offset < stop <= |t|
    requires Blank(Next(r, t[offset..]).c) && q != [] && Next(r, q).c == TAB && |q| < |t| - offset
    requires !Neat(r, 0, t0[bol..], start - bol, stop0 - bol)
    ensures Tidied(r, t0, t[..offset] + q, bol, offset + Next(r, q).n, After(r, col, TAB), start, stop - (|t| - offset - |q|), stop0)
  {
    hide Neat, OpenEnd, BlanksAlone, LooksAhead, EndsAtBlank, Next, After, Between, ColAt, Tidy, Head;
    var u, p, v, n := t[bol..offset], t[offset..], t[..offset] + q, Next(r, q).n;
    assert t[bol..] == u + p && v[bol..] == u + q && v[offset..] == q && v[bol..][offset - bol..] == q;
    SameBefore(r, 0, u, p, q);
    NeatKept(r, 0, u, p, q, start - bol);
    OneChar(r, col, q, start - offset);
    Extend(r, v, bol, offset, col, start, n);
    BetweenNext(r, 0, v[bol..], offset - bol);
  }

  /** At the end of the loop. */
  lemma TidyEnd(r: Ruler, t0: seq<byte>, t: seq<byte>, bol: nat, offset: nat, col: nat, start: nat, stop: int, stop0: int)
    requires RulerOk(r) && Tidied(r, t0, t, bol, offset, col, start, stop, stop0) && stop <= offset && bol <= start
    ensures TabNormal(r, t, bol, start, stop) && |t| <= |t0| && (t == t0 <==> TabNormal(r, t0, bol, start, stop0))
  {
    hide Neat, OpenEnd, BlanksAlone, LooksAhead, EndsAtBlank, Next, After, Between, ColAt, Tidy, TabNormal;
    NeatLess(r, 0, t[bol..], start - bol, offset - bol, stop - bol);
    NormalIsNeat(r, t, bol, start, stop);
    NormalIsNeat(r, t0, bol, start, stop0);
  }
}
