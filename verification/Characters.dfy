/** Character positions and the UTF-8 codec (charset.c, buffer.c, cutils.c): on
    encoded text the counted bytes are the characters. */
module Characters {
  import opened Bytes
  import opened Counting
  import opened Utf8
  import opened Pages
  import opened PagedText
  import opened Positions

  predicate Codes31(cs: seq<int>) {
    forall i :: 0 <= i < |cs| ==> 0 <= cs[i] < TWO31
  }

  /** The bytes of a code behind the first one lie between 0x80 and 0xbf, and the
      first one does not. */
  lemma {:induction false} TrailRange(c: nat, n: nat)
    ensures forall i :: 0 <= i < n ==> 0x80 <= Trail(c, n)[i] <= 0xbf
    decreases n
  {
    if n > 0 {
      TrailRange(c, n - 1);
      assert 0 <= c / Pow64(n - 1) % 64 <= 63;
      var s, t := Trail(c, n), Trail(c, n - 1);
      forall i | 0 <= i < n ensures 0x80 <= s[i] <= 0xbf { if i > 0 { assert s[i] == t[i - 1]; } }
    }
  }

  lemma EncodeRange(c: int)
    requires 0 <= c < TWO31
    ensures var s := Encode(c);
      (s[0] < 0x80 || s[0] >= 0xc0) && forall i :: 0 < i < |s| ==> 0x80 <= s[i] <= 0xbf
  {
    EncodeIs(c);
    TrailRange(c, Extra(c));
    hide Trail, Pow64;
  }

  /** Only the code LF has the byte LF. */
  lemma EncodeLf(c: int)
    requires 0 <= c < TWO31
    ensures Encode(c)[0] == 10 <==> c == 10
  {
    EncodeIs(c);
  }

  lemma {:induction false} NoneCounted(c: Coding, s: seq<byte>)
    requires c.utf8 && forall i :: 0 <= i < |s| ==> 0x80 <= s[i] <= 0xbf
    ensures Chars(c, s) == 0
  {
    if s != [] { NoneCounted(c, s[..|s| - 1]); }
  }

  /** A code is one character, but for a line feed behind DOS line ends. */
  lemma EncodeChars(c: Coding, code: int)
    requires c.utf8 && 0 <= code < TWO31
    ensures Chars(c, Encode(code)) == if c.eol == Dos && code == 10 then 0 else 1
  {
    var s := Encode(code);
    EncodeRange(code);
    EncodeLf(code);
    hide Encode;
    assert s == s[..1] + s[1..];
    NoneCounted(c, s[1..]);
    CharsConcat(c, s[..1], s[1..]);
    CharsTake(c, s, 0);
    assert s[..0] == [];
  }

  /** The number of line feeds. */
  function Feeds(cs: seq<int>): nat { multiset(cs)[10] }

  /** The characters of a text: its codes, but for DOS line ends the line feeds. */
  lemma {:induction false} TextChars(c: Coding, cs: seq<int>)
    requires c.utf8 && Codes31(cs)
    ensures Chars(c, EncodeAll(cs)) == |cs| - if c.eol == Dos then Feeds(cs) else 0
  {
    if cs != [] {
      hide Encode;
      TextChars(c, cs[1..]);
      EncodeChars(c, cs[0]);
      CharsConcat(c, Encode(cs[0]), EncodeAll(cs[1..]));
      assert cs == [cs[0]] + cs[1..];
    }
  }

  /** The characters of a text in which CR LF is one character. */
  function Units(cs: seq<int>): nat {
    if cs == [] then 0
    else if |cs| >= 2 && cs[0] == 13 && cs[1] == 10 then 1 + Units(cs[2..])
    else 1 + Units(cs[1..])
  }

  /** Every line feed follows a carriage return. */
  predicate Paired(cs: seq<int>) {
    forall i :: 0 <= i < |cs| && cs[i] == 10 ==> i > 0 && cs[i - 1] == 13
  }

  lemma {:induction false} UnitsFeeds(cs: seq<int>)
    ensures Units(cs) >= |cs| - Feeds(cs) && (Units(cs) == |cs| - Feeds(cs) <==> Paired(cs))
    decreases |cs|
  {
    if cs != [] {
      if |cs| >= 2 && cs[0] == 13 && cs[1] == 10 {
        var t := cs[2..];
        UnitsFeeds(t);
        assert cs == [13] + ([10] + t);
        PairedRest(cs, 2);
      } else {
        var t := cs[1..];
        UnitsFeeds(t);
        assert cs == [cs[0]] + t;
        if cs[0] != 10 { PairedRest(cs, 1); }
      }
    }
  }

  lemma PairedRest(cs: seq<int>, k: nat)
    requires 0 < k <= |cs| && (forall i :: 0 <= i < k && cs[i] == 10 ==> i > 0 && cs[i - 1] == 13)
    requires k < |cs| && cs[k] == 10 ==> cs[k - 1] != 13
    ensures Paired(cs) <==> Paired(cs[k..])
  {
    var t := cs[k..];
    if Paired(cs) {
      forall i | 0 <= i < |t| && t[i] == 10 ensures i > 0 && t[i - 1] == 13 { assert cs[i + k] == 10; }
    }
    if Paired(t) {
      forall i | 0 <= i < |cs| && cs[i] == 10 ensures i > 0 && cs[i - 1] == 13 {
        if i >= k { assert t[i - k] == 10; }
      }
    }
  }

  /** For DOS line ends each CR LF counts as one character, exactly in texts in
      which no line feed stands alone. */
  lemma DosChars(cs: seq<int>)
    requires Codes31(cs)
    ensures Chars(Coding(true, Dos), EncodeAll(cs)) == Units(cs) <==> Paired(cs)
  {
    TextChars(Coding(true, Dos), cs);
    UnitsFeeds(cs);
  }

  // On a buffer

  lemma {:induction false} EncodeAllConcat(a: seq<int>, b: seq<int>)
    requires Codes31(a) && Codes31(b)
    ensures Codes31(a + b) && EncodeAll(a + b) == EncodeAll(a) + EncodeAll(b)
  {
    hide Encode;
    if a == [] {
      assert a + b == b;
    } else {
      EncodeAllConcat(a[1..], b);
      assert (a + b)[0] == a[0] && (a + b)[1..] == a[1..] + b;
    }
  }

  /** Where code k begins, and what is counted there. */
  lemma CodeAt(c: Coding, cs: seq<int>, k: nat)
    requires c.utf8 && c.eol != Dos && Codes31(cs) && k <= |cs|
    ensures var t, o := EncodeAll(cs), |EncodeAll(cs[..k])|;
      o <= |t| && Chars(c, t[..o]) == k && Chars(c, t) == |cs| && (k < |cs| ==> o < |t| && !(0x80 <= t[o] <= 0xbf)) && (k == |cs| ==> o == |t|)
  {
    hide Encode;
    assert cs == cs[..k] + cs[k..];
    EncodeAllConcat(cs[..k], cs[k..]);
    TextChars(c, cs[..k]);
    TextChars(c, cs);
    var t, o := EncodeAll(cs), |EncodeAll(cs[..k])|;
    assert t[..o] == EncodeAll(cs[..k]);
    if k < |cs| {
      EncodeRange(cs[k]);
      assert t[o..] == EncodeAll(cs[k..]);
      assert cs[k..][0] == cs[k];
      assert t[o] == t[o..][0] == Encode(cs[k])[0];
    }
  }

  /** A counted byte is found by its rank. */
  lemma RankUnique(c: Coding, t: seq<byte>, o: nat, q: nat)
    requires o < |t| && q < |t| && Counted(c, t[o]) && Counted(c, t[q]) && Chars(c, t[..o]) == Chars(c, t[..q])
    ensures o == q
  {
    if o < q { RankLess(c, t, o, q); }
    if q < o { RankLess(c, t, q, o); }
  }

  lemma RankLess(c: Coding, t: seq<byte>, o: nat, q: nat)
    requires o < q <= |t| && Counted(c, t[o])
    ensures Chars(c, t[..o]) < Chars(c, t[..q])
  {
    CharsTake(c, t, o);
    assert t[..q] == t[..o + 1] + t[o + 1..q];
    CharsConcat(c, t[..o + 1], t[o + 1..q]);
  }

  lemma CodeFound(c: Coding, cs: seq<int>, k: nat, at: nat)
    requires c.utf8 && c.eol != Dos && Codes31(cs) && k <= |cs| && IsChar(c, EncodeAll(cs), k, at)
    ensures at == |EncodeAll(cs[..k])|
  {
    hide Encode, EncodeAll, Chars;
    CodeAt(c, cs, k);
    if k < |cs| { RankUnique(c, EncodeAll(cs), at, |EncodeAll(cs[..k])|); }
  }

  lemma CodeBoundary(c: Coding, cs: seq<int>, k: nat)
    requires c.utf8 && c.eol != Dos && Codes31(cs) && k <= |cs|
    ensures var t, o := EncodeAll(cs), |EncodeAll(cs[..k])|;
      o <= |t| && RoundDown(t, o) == o && Chars(c, t[..o]) == k
  {
    hide Encode, EncodeAll, Chars;
    CodeAt(c, cs, k);
  }

  /** On a UTF-8 text eb_goto_char finds the first byte of character k, and
      eb_get_char_offset gives k there. */
  method GotoCode(b: PagedBuffer, ghost cs: seq<int>, k: nat) returns (offset: nat, back: nat)
    requires b.Valid() && b.coding.utf8 && b.coding.eol != Dos && Codes31(cs) && b.Text() == EncodeAll(cs) && k <= |cs|
    modifies b
    ensures b.Valid() && b.Text() == EncodeAll(cs) && offset == |EncodeAll(cs[..k])| && back == k
  {
    hide Flat, PageOk, Encode, EncodeAll, Chars;
    ghost var c := b.coding;
    offset := GotoChar(b, k);
    CodeFound(c, cs, k, offset);
    CodeBoundary(c, cs, k);
    back := GetCharOffset(b, offset);
  }
}
