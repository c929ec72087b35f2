/** The memory of saved states (state_stack of libregexp.c): records of a fixed
    number of words, one after the other, in a block that grows by half. */
module RegexStates {
  import opened RegexMachine

  /** A header of five words, the captures, and the counters. */
  function StateSize(captures: nat, depth: nat): nat { 5 + captures + depth }

  function KindCode(k: Kind): int {
    match k
    case SplitState => 0
    case LookState => 1
    case NegLookState => 2
    case GreedyState => 3
  }

  function Header(t: Saved): seq<int> {
    [KindCode(t.kind), |t.stack|, t.count, t.pos, t.pc]
  }

  /** The record of a saved state stands at o. */
  ghost predicate RecordAt(s: seq<int>, o: nat, captures: nat, depth: nat, t: Saved) {
    && |t.caps| == captures && |t.stack| <= depth && o + StateSize(captures, depth) <= |s|
    && s[o..o + 5] == Header(t)
    && s[o + 5..o + 5 + captures] == t.caps
    && s[o + 5 + captures..o + 5 + captures + |t.stack|] == t.stack
  }

  lemma RecordKept(s: seq<int>, u: seq<int>, o: nat, captures: nat, depth: nat, t: Saved)
    requires RecordAt(s, o, captures, depth, t) && o + StateSize(captures, depth) <= |u|
    requires forall i :: o <= i < o + StateSize(captures, depth) ==> u[i] == s[i]
    ensures RecordAt(u, o, captures, depth, t)
  {
    assert u[o..o + 5] == s[o..o + 5];
    assert u[o + 5..o + 5 + captures] == s[o + 5..o + 5 + captures];
    var c := o + 5 + captures;
    assert u[c..c + |t.stack|] == s[c..c + |t.stack|];
  }

  /** Where record k starts. */
  function Offset(w: nat, k: nat): nat { k * w }

  lemma OffsetOrder(w: nat, j: nat, k: nat)
    requires j < k
    ensures Offset(w, j) + w <= Offset(w, k)
  {
    assert k * w == j * w + w + (k - j - 1) * w;
    assert (k - j - 1) * w >= 0;
  }

  ghost predicate Records(s: seq<int>, captures: nat, depth: nat, ts: seq<Saved>) {
    forall k :: 0 <= k < |ts| ==> RecordAt(s, Offset(StateSize(captures, depth), k), captures, depth, ts[k])
  }

  /** Records survive whatever happens behind them. */
  lemma RecordsKept(s: seq<int>, u: seq<int>, captures: nat, depth: nat, ts: seq<Saved>)
    requires Records(s, captures, depth, ts) && Offset(StateSize(captures, depth), |ts|) <= |u|
    requires forall i :: 0 <= i < Offset(StateSize(captures, depth), |ts|) && i < |s| ==> u[i] == s[i]
    ensures Records(u, captures, depth, ts)
  {
    hide Offset;
    forall k | 0 <= k < |ts| ensures RecordAt(u, Offset(StateSize(captures, depth), k), captures, depth, ts[k]) {
      OffsetOrder(StateSize(captures, depth), k, |ts|);
      RecordKept(s, u, Offset(StateSize(captures, depth), k), captures, depth, ts[k]);
    }
  }

  lemma RecordsMore(s: seq<int>, captures: nat, depth: nat, ts: seq<Saved>, t: Saved)
    requires Records(s, captures, depth, ts) && RecordAt(s, Offset(StateSize(captures, depth), |ts|), captures, depth, t)
    ensures Records(s, captures, depth, ts + [t])
  {
    hide Offset, RecordAt;
  }

  class StateStack {
    const captures: nat
    const depth: nat
    var mem: array<int>
    var size: nat
    var len: nat
    /** The saved states that the records stand for. */
    ghost var contents: seq<Saved>

    ghost predicate Valid()
      reads this, mem
    {
      && mem.Length == Offset(StateSize(captures, depth), size) && |contents| == len <= size
      && Records(mem[..], captures, depth, contents)
    }

    constructor (captures: nat, depth: nat)
      ensures Valid() && fresh(mem) && contents == [] && this.captures == captures && this.depth == depth
    {
      this.captures, this.depth := captures, depth;
      mem := new int[0];
      size, len, contents := 0, 0, [];
    }

    /** Reallocation of a full block. */
    method Grow()
      requires Valid() && len == size
      modifies this`mem, this`size
      ensures Valid() && fresh(mem) && len < size
    {
      hide Offset, Records;
      var newSize := size * 3 / 2;
      if newSize < 8 { newSize := 8; }
      OffsetOrder(StateSize(captures, depth), len, newSize);
      var block := new int[Offset(StateSize(captures, depth), newSize)];
      ghost var was := mem[..];
      for i := 0 to mem.Length
        modifies block
        invariant forall k :: 0 <= k < i ==> block[k] == mem[k]
      {
        block[i] := mem[i];
      }
      RecordsKept(mem[..], block[..], captures, depth, contents);
      mem, size := block, newSize;
    }

    /** push_state: the record holds a copy of the captures and of the counters,
        and the records before it keep theirs when the block moves. */
    method Push(kind: Kind, pc: int, pos: nat, capture: array<int>, stack: array<int>, stackLen: nat, count: nat)
      requires Valid() && capture.Length == captures && stackLen <= stack.Length && stackLen <= depth && mem != capture && mem != stack
      modifies this`mem, this`size, this`len, this`contents, mem
      ensures Valid() && contents == old(contents) + [Saved(kind, pc, pos, capture[..], stack[..stackLen], count)]
      ensures mem == old(mem) || fresh(mem)
    {
      hide Offset, Records;
      if len + 1 > size { Grow(); }
      ghost var t := Saved(kind, pc, pos, capture[..], stack[..stackLen], count);
      ghost var was := mem[..];
      OffsetOrder(StateSize(captures, depth), len, size);
      Fill(Offset(StateSize(captures, depth), len), kind, pc, pos, capture, stack, stackLen, count);
      RecordsKept(was, mem[..], captures, depth, contents);
      RecordsMore(mem[..], captures, depth, contents, t);
      len := len + 1;
      contents := contents + [t];
    }

    lemma OffsetIn()
      requires Valid() && len > 0
      ensures Offset(StateSize(captures, depth), len - 1) + StateSize(captures, depth) <= mem.Length
      ensures RecordAt(mem[..], Offset(StateSize(captures, depth), len - 1), captures, depth, Top(contents))
    {
      hide Offset, RecordAt;
      OffsetOrder(StateSize(captures, depth), len - 1, size);
    }

    /** Write one record. */
    method Fill(o: nat, kind: Kind, pc: int, pos: nat, capture: array<int>, stack: array<int>, stackLen: nat, count: nat)
      requires capture.Length == captures && stackLen <= stack.Length && stackLen <= depth && mem != capture && mem != stack
      requires o + StateSize(captures, depth) <= mem.Length
      modifies mem
      ensures RecordAt(mem[..], o, captures, depth, Saved(kind, pc, pos, capture[..], stack[..stackLen], count))
      ensures forall i :: 0 <= i < mem.Length && !(o <= i < o + StateSize(captures, depth)) ==> mem[i] == old(mem[i])
    {
      mem[o], mem[o + 1], mem[o + 2], mem[o + 3], mem[o + 4] := KindCode(kind), stackLen, count, pos, pc;
      for i := 0 to captures
        invariant forall k :: 0 <= k < i ==> mem[o + 5 + k] == capture[k]
        invariant mem[o] == KindCode(kind) && mem[o + 1] == stackLen && mem[o + 2] == count && mem[o + 3] == pos && mem[o + 4] == pc
        invariant forall i :: 0 <= i < mem.Length && !(o <= i < o + StateSize(captures, depth)) ==> mem[i] == old(mem[i])
      {
        mem[o + 5 + i] := capture[i];
      }
      ghost var half := mem[..o + 5 + captures];
      var c := o + 5 + captures;
      for i := 0 to stackLen
        invariant forall k :: 0 <= k < i ==> mem[c + k] == stack[k]
        invariant mem[..c] == half
        invariant forall i :: 0 <= i < mem.Length && !(o <= i < o + StateSize(captures, depth)) ==> mem[i] == old(mem[i])
      {
        mem[c + i] := stack[i];
      }
      FilledRecord(mem[..], half, o, Saved(kind, pc, pos, capture[..], stack[..stackLen], count));
    }

    lemma FilledRecord(s: seq<int>, half: seq<int>, o: nat, t: Saved)
      requires |t.caps| == captures && |t.stack| <= depth && o + StateSize(captures, depth) <= |s|
      requires half == s[..o + 5 + captures] && forall k :: 0 <= k < 5 ==> half[o + k] == Header(t)[k]
      requires forall k :: 0 <= k < captures ==> half[o + 5 + k] == t.caps[k]
      requires forall k :: 0 <= k < |t.stack| ==> s[o + 5 + captures + k] == t.stack[k]
      ensures RecordAt(s, o, captures, depth, t)
    {
    }

    /** The header of the last record. */
    method Peek() returns (kind: Kind, stackLen: nat, count: nat, pos: nat, pc: int)
      requires Valid() && len > 0
      ensures var t := Top(contents); t.kind == kind && |t.stack| == stackLen <= depth && t.count == count && t.pos == pos && t.pc == pc
    {
      hide Offset, Records;
      OffsetIn();
      var o := Offset(StateSize(captures, depth), len - 1);
      ghost var t := Top(contents);
      assert forall k :: 0 <= k < 5 ==> mem[o + k] == mem[..][o..o + 5][k] == Header(t)[k];
      assert mem[o] == Header(t)[0] && mem[o + 1] == Header(t)[1] && mem[o + 2] == Header(t)[2] && mem[o + 3] == Header(t)[3] && mem[o + 4] == Header(t)[4];
      kind := if mem[o] == 0 then SplitState else if mem[o] == 1 then LookState else if mem[o] == 2 then NegLookState else GreedyState;
      stackLen, count, pos, pc := mem[o + 1], mem[o + 2], mem[o + 3], mem[o + 4];
    }

    /** The two memcpy that take the captures and the counters back. */
    method CopyCaptures(capture: array<int>)
      requires Valid() && len > 0 && capture.Length == captures && capture != mem
      modifies capture
      ensures Valid() && capture[..] == Top(contents).caps
    {
      hide Offset, Records;
      OffsetIn();
      var o := Offset(StateSize(captures, depth), len - 1) + 5;
      ghost var t := Top(contents);
      for i := 0 to captures
        modifies capture
        invariant forall k :: 0 <= k < i ==> capture[k] == t.caps[k]
      {
        assert mem[o + i] == mem[..][o..o + captures][i];
        capture[i] := mem[o + i];
      }
    }

    method CopyCounters(stack: array<int>, n: nat)
      requires Valid() && len > 0 && n == |Top(contents).stack| <= stack.Length && stack != mem
      modifies stack
      ensures Valid() && stack[..n] == Top(contents).stack
    {
      hide Offset, Records;
      OffsetIn();
      var o := Offset(StateSize(captures, depth), len - 1) + 5 + captures;
      ghost var t := Top(contents);
      for i := 0 to n
        modifies stack
        invariant forall k :: 0 <= k < i ==> stack[k] == t.stack[k]
      {
        assert mem[o + i] == mem[..][o..o + n][i];
        stack[i] := mem[o + i];
      }
    }

    method Drop()
      requires Valid() && len > 0
      modifies this`len, this`contents
      ensures Valid() && contents == Pop(old(contents))
    {
      hide Offset, RecordAt;
      len := len - 1;
      contents := Pop(contents);
    }

    /** One iteration of a greedy loop less. */
    method Lower(pos: nat, count: nat)
      requires Valid() && len > 0
      modifies this`contents, mem
      ensures Valid() && contents == Pop(old(contents)) + [Top(old(contents)).(pos := pos, count := count)]
    {
      hide Offset, Records;
      OffsetIn();
      var o := Offset(StateSize(captures, depth), len - 1);
      ghost var was, t, rest := mem[..], Top(contents).(pos := pos, count := count), Pop(contents);
      RecordsLess(was, captures, depth, contents);
      mem[o + 2] := count;
      mem[o + 3] := pos;
      RecordsKept(was, mem[..], captures, depth, rest);
      LoweredRecord(was, mem[..], o, captures, depth, Top(contents), t);
      RecordsMore(mem[..], captures, depth, rest, t);
      contents := rest + [t];
    }
  }

  lemma RecordsLess(s: seq<int>, captures: nat, depth: nat, ts: seq<Saved>)
    requires Records(s, captures, depth, ts) && ts != []
    ensures Records(s, captures, depth, Pop(ts))
  {
    hide Offset, RecordAt;
  }

  lemma LoweredRecord(s: seq<int>, u: seq<int>, o: nat, captures: nat, depth: nat, t: Saved, t': Saved)
    requires RecordAt(s, o, captures, depth, t) && t' == t.(pos := t'.pos, count := t'.count)
    requires u == s[o + 2 := t'.count][o + 3 := t'.pos]
    ensures RecordAt(u, o, captures, depth, t')
  {
    assert u[o + 5..o + 5 + captures] == s[o + 5..o + 5 + captures];
    var c := o + 5 + captures;
    assert u[c..c + |t.stack|] == s[c..c + |t.stack|];
    assert u[o..o + 5] == s[o..o + 5][2 := t'.count][3 := t'.pos];
  }
}
