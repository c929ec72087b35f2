/** The counting and seeking functions of charset.c for one byte charsets and
    UTF-8, each a loop over one block of bytes, and what they count. */
module Counting {
  import opened Bytes

  datatype Eol = Unix | Dos | Mac

  /** The part of CharsetDecodeState the counting functions look at: a one byte
      charset or UTF-8, and the kind of line end. */
  datatype Coding = Coding(utf8: bool, eol: Eol)

  const LF: byte := 10
  const CR: byte := 13

  /** eol_char. */
  function Newline(c: Coding): byte {
    if c.eol == Unix then LF else CR
  }

  predicate Trailing(b: byte) {
    0x80 <= b < 0xc0
  }

  /** The bytes that start a character, as the code counts them. */
  predicate Counted(c: Coding, b: byte) {
    !(c.utf8 && Trailing(b)) && !(c.eol == Dos && b == LF)
  }

  /** Characters in a block. */
  function Chars(c: Coding, s: seq<byte>): nat {
    if s == [] then 0
    else Chars(c, s[..|s| - 1]) + (if Counted(c, s[|s| - 1]) then 1 else 0)
  }

  /** Line ends in a block. */
  function Lines(c: Coding, s: seq<byte>): nat {
    if s == [] then 0
    else Lines(c, s[..|s| - 1]) + (if s[|s| - 1] == Newline(c) then 1 else 0)
  }

  /** Bytes after the last line end of a block. */
  function Column(c: Coding, s: seq<byte>): nat {
    if s == [] || s[|s| - 1] == Newline(c) then 0
    else Column(c, s[..|s| - 1]) + 1
  }

  datatype Pos = Pos(line: nat, col: nat)

  function PosOf(c: Coding, s: seq<byte>): Pos {
    Pos(Lines(c, s), Column(c, s))
  }

  /** How the position after two blocks follows from the positions after each. */
  function Advance(p: Pos, q: Pos): Pos {
    Pos(p.line + q.line, if q.line > 0 then q.col else p.col + q.col)
  }

  /** Lines end with line feeds, or with carriage returns where the charset says
      so. */
  lemma {:induction false} LinesCount(c: Coding, s: seq<byte>)
    ensures Lines(c, s) == multiset(s)[if c.eol == Unix then 10 else 13]
  {
    if s != [] {
      LinesCount(c, s[..|s| - 1]);
      assert s == s[..|s| - 1] + [s[|s| - 1]];
    }
  }

  lemma {:induction false} PosConcat(c: Coding, s: seq<byte>, t: seq<byte>)
    ensures PosOf(c, s + t) == Advance(PosOf(c, s), PosOf(c, t))
  {
    if t == [] {
      assert s + t == s;
    } else {
      var u := t[..|t| - 1];
      assert (s + t)[..|s + t| - 1] == s + u;
      PosConcat(c, s, u);
    }
  }

  lemma {:induction false} CharsConcat(c: Coding, s: seq<byte>, t: seq<byte>)
    ensures Chars(c, s + t) == Chars(c, s) + Chars(c, t)
  {
    if t == [] {
      assert s + t == s;
    } else {
      var u := t[..|t| - 1];
      assert (s + t)[..|s + t| - 1] == s + u;
      CharsConcat(c, s, u);
    }
  }

  /** One more byte. */
  lemma CharsTake(c: Coding, s: seq<byte>, i: nat)
    requires i < |s|
    ensures Chars(c, s[..i + 1]) == Chars(c, s[..i]) + if Counted(c, s[i]) then 1 else 0
  {
    assert s[..i + 1][..i] == s[..i];
  }

  lemma LinesTake(c: Coding, s: seq<byte>, i: nat)
    requires i < |s|
    ensures Lines(c, s[..i + 1]) == Lines(c, s[..i]) + if s[i] == Newline(c) then 1 else 0
    ensures Column(c, s[..i + 1]) == if s[i] == Newline(c) then 0 else Column(c, s[..i]) + 1
  {
    assert s[..i + 1][..i] == s[..i];
  }

  lemma {:induction false} NoNewline(c: Coding, s: seq<byte>, i: nat, j: nat)
    requires i <= j <= |s| && forall k :: i <= k < j ==> s[k] != Newline(c)
    ensures Lines(c, s[..j]) == Lines(c, s[..i]) && Column(c, s[..j]) == Column(c, s[..i]) + j - i
  {
    if i < j {
      NoNewline(c, s, i, j - 1);
      LinesTake(c, s, j - 1);
    }
  }

  /** memchr(s + from, x, |s| - from), as an index, or |s|. */
  method FindByte(s: seq<byte>, from: nat, x: byte) returns (i: nat)
    requires from <= |s|
    ensures from <= i <= |s| && (i < |s| ==> s[i] == x)
    ensures forall k :: from <= k < i ==> s[k] != x
  {
    i := from;
    while i < |s| && s[i] != x
      invariant from <= i <= |s| && forall k :: from <= k < i ==> s[k] != x
    {
      i := i + 1;
    }
  }

  /** charset_get_pos_8bit, Unix and Mac line ends. */
  method GetPos8(c: Coding, buf: seq<byte>) returns (r: Pos)
    requires c.eol != Dos
    ensures r == PosOf(c, buf)
  {
    var line: nat, p: nat, lp: nat := 0, 0, 0;
    assert buf[..0] == [] && buf[..|buf|] == buf;
    while true
      invariant p == lp <= |buf| && line == Lines(c, buf[..p]) && Column(c, buf[..p]) == 0
      decreases |buf| - p
    {
      var q := FindByte(buf, p, Newline(c));
      NoNewline(c, buf, p, q);
      if q == |buf| { break; }
      LinesTake(c, buf, q);
      p := q + 1;
      lp := p;
      line := line + 1;
    }
    r := Pos(line, |buf| - lp);
  }

  /** charset_goto_line_8bit: the byte after the n-th line end. */
  method GotoLine8(c: Coding, buf: seq<byte>, nlines: nat) returns (at: nat)
    requires c.eol != Dos
    ensures at <= |buf| && Lines(c, buf[..at]) <= nlines
    ensures at == 0 || buf[at - 1] == Newline(c)
    ensures nlines <= Lines(c, buf) ==> Lines(c, buf[..at]) == nlines
    ensures nlines > Lines(c, buf) ==> Lines(c, buf[..at]) == Lines(c, buf)
  {
    var left: nat := nlines;
    var p := 0;
    at := 0;
    assert buf[..0] == [] && buf[..|buf|] == buf;
    while left > 0
      invariant p == at <= |buf| && left + Lines(c, buf[..at]) == nlines
      invariant at == 0 || buf[at - 1] == Newline(c)
      decreases left
    {
      var q := FindByte(buf, p, Newline(c));
      NoNewline(c, buf, p, q);
      if q == |buf| { break; }
      LinesTake(c, buf, q);
      p := q + 1;
      at := p;
      left := left - 1;
    }
    PosConcat(c, buf[..at], buf[at..]);
    assert buf[..at] + buf[at..] == buf;
  }

  /** charset_get_chars_8bit. */
  method GetChars8(c: Coding, buf: seq<byte>) returns (count: nat)
    requires !c.utf8
    ensures count == Chars(c, buf)
  {
    assert buf[..0] == [] && buf[..|buf|] == buf;
    if c.eol != Dos {
      AllCounted(c, buf);
      return |buf|;
    }
    var n: int := |buf|;
    for i := 0 to |buf|
      invariant n == |buf| - i + Chars(c, buf[..i])
    {
      CharsTake(c, buf, i);
      if buf[i] == LF { n := n - 1; }
    }
    count := n;
  }

  lemma {:induction false} AllCounted(c: Coding, s: seq<byte>)
    requires !c.utf8 && c.eol != Dos
    ensures Chars(c, s) == |s|
  {
    if s != [] { AllCounted(c, s[..|s| - 1]); }
  }

  /** charset_get_chars_utf8. */
  method GetCharsUtf8(c: Coding, buf: seq<byte>) returns (count: nat)
    requires c.utf8
    ensures count == Chars(c, buf)
  {
    count := 0;
    assert buf[..0] == [] && buf[..|buf|] == buf;
    for i := 0 to |buf|
      invariant count == Chars(c, buf[..i])
    {
      CharsTake(c, buf, i);
      var b := buf[i];
      if b == LF && c.eol == Dos { continue; }
      count := count + (if Trailing(b) then 0 else 1);
    }
  }

  /** Where character number pos starts, or the end of a shorter block. */
  ghost predicate IsChar(c: Coding, s: seq<byte>, pos: nat, at: nat) {
    at <= |s| &&
    (if pos < Chars(c, s) then at < |s| && Counted(c, s[at]) && Chars(c, s[..at]) == pos else at == |s|)
  }

  lemma CharsPrefix(c: Coding, s: seq<byte>, at: nat)
    requires at <= |s|
    ensures Chars(c, s[..at]) <= Chars(c, s)
    ensures at < |s| && Counted(c, s[at]) ==> Chars(c, s[..at]) < Chars(c, s)
  {
    assert s[..at] + s[at..] == s;
    CharsConcat(c, s[..at], s[at..]);
    if at < |s| && Counted(c, s[at]) {
      CharsTake(c, s, at);
      assert s[..at + 1] + s[at + 1..] == s;
      CharsConcat(c, s[..at + 1], s[at + 1..]);
    }
  }

  /** charset_goto_char_8bit. */
  method GotoChar8(c: Coding, buf: seq<byte>, pos: nat) returns (at: nat)
    requires !c.utf8
    ensures IsChar(c, buf, pos, at)
  {
    if c.eol != Dos {
      at := if pos < |buf| then pos else |buf|;
      AllCounted(c, buf);
      AllCounted(c, buf[..at]);
      return;
    }
    var chars := 0;
    at := 0;
    assert buf[..0] == [] && buf[..|buf|] == buf;
    while at < |buf|
      invariant at <= |buf| && chars == Chars(c, buf[..at]) <= pos
    {
      CharsTake(c, buf, at);
      if buf[at] != LF {
        if chars >= pos { break; }
        chars := chars + 1;
      }
      at := at + 1;
    }
    CharsPrefix(c, buf, at);
  }

  /** charset_goto_char_utf8. */
  method GotoCharUtf8(c: Coding, buf: seq<byte>, pos: nat) returns (at: nat)
    requires c.utf8
    ensures IsChar(c, buf, pos, at)
  {
    var chars := 0;
    at := 0;
    assert buf[..0] == [] && buf[..|buf|] == buf;
    while at < |buf|
      invariant at <= |buf| && chars == Chars(c, buf[..at]) <= pos
    {
      CharsTake(c, buf, at);
      var b := buf[at];
      if !Trailing(b) && !(b == LF && c.eol == Dos) {
        if chars >= pos { break; }
        chars := chars + 1;
      }
      at := at + 1;
    }
    CharsPrefix(c, buf, at);
  }
}
