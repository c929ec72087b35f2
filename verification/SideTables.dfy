/** What is kept in step with a text through its callbacks: registered offsets
    and the style buffer (buffer.c). A ghost table tells for each byte of the
    text which byte of a chosen start it is, or -1 for a byte inserted or
    written since. */
module SideTables {
  import opened Bytes
  import opened Counting
  import opened Pages
  import opened PagedText
  import PagedOps
  import opened UndoRecords

  /** A registered offset; edge says that text inserted at it goes before it. */
  datatype Point = Point(pos: int, edge: bool)

  /** eb_offset_callback. */
  function Moved(p: Point, op: Op, offset: int, size: int): Point {
    match op
    case OpInsert =>
      var q := if p.pos > offset then p.(pos := p.pos + size) else p;
      if q.pos == offset && q.edge then q.(pos := q.pos + size) else q
    case OpDelete =>
      if p.pos > offset then
        if p.pos - size < offset then p.(pos := offset) else p.(pos := p.pos - size)
      else p
    case OpWrite => p
  }

  /** The edit lies inside a text of n units. */
  predicate Within(n: nat, op: Op, offset: nat, size: nat) {
    if op == OpInsert then offset <= n else offset + size <= n
  }

  /** n times -1. */
  function Unknown(n: nat): seq<int> {
    seq(n, _ => -1)
  }

  /** Every byte is the byte at the same place of the start. */
  function Same(n: nat): seq<int> {
    seq(n, i => i)
  }

  /** Where the bytes come from after one more edit. */
  function Traced(origin: seq<int>, op: Op, offset: nat, size: nat): (r: seq<int>)
    requires Within(|origin|, op, offset, size)
    ensures |r| == match op case OpInsert => |origin| + size case OpDelete => |origin| - size case OpWrite => |origin|
  {
    match op
    case OpInsert => origin[..offset] + Unknown(size) + origin[offset..]
    case OpDelete => origin[..offset] + origin[offset + size..]
    case OpWrite => origin[..offset] + Unknown(size) + origin[offset + size..]
  }

  /** The offset lies in the text, and it has before it exactly the surviving
      bytes that it had before it at the start, when it was at from. */
  ghost predicate Divides(origin: seq<int>, from: int, pos: int) {
    && 0 <= pos <= |origin|
    && forall i :: 0 <= i < |origin| && origin[i] >= 0 ==> (i < pos <==> origin[i] < from)
  }

  /** Where a registered offset ends up, said by the text before it: an insert in
      front of it comes before it, one behind it does not, and one right at it does
      exactly for an edge; a delete takes its bytes out of the text before it. */
  lemma MovedInsert(t: seq<byte>, p: Point, offset: nat, d: seq<byte>)
    requires offset <= |t| && 0 <= p.pos <= |t|
    ensures var q := Moved(p, OpInsert, offset, |d|).pos;
      && 0 <= q <= |t| + |d|
      && Inserted(t, offset, d)[..q] == (if offset < p.pos || (offset == p.pos && p.edge) then t[..offset] + d + t[offset..p.pos] else t[..p.pos])
  {
    var u, q := Inserted(t, offset, d), Moved(p, OpInsert, offset, |d|).pos;
    if offset < p.pos || (offset == p.pos && p.edge) { assert u[..q] == t[..offset] + d + t[offset..p.pos]; } else { assert u[..q] == t[..p.pos]; }
  }

  lemma MovedDelete(t: seq<byte>, p: Point, offset: nat, size: nat)
    requires offset + size <= |t| && 0 <= p.pos <= |t|
    ensures var q := Moved(p, OpDelete, offset, size).pos;
      && 0 <= q <= |t| - size
      && Deleted(t, offset, size)[..q] ==
           if p.pos <= offset then t[..p.pos] else if p.pos <= offset + size then t[..offset] else t[..offset] + t[offset + size..p.pos]
  {
    var u, q := Deleted(t, offset, size), Moved(p, OpDelete, offset, size).pos;
    if p.pos <= offset { assert u[..q] == t[..p.pos]; }
    else if p.pos <= offset + size { assert u[..q] == t[..offset]; }
    else { assert u[..q] == t[..offset] + t[offset + size..p.pos]; }
  }

  lemma MovedDivides(origin: seq<int>, p: Point, from: int, op: Op, offset: nat, size: nat)
    requires Within(|origin|, op, offset, size) && Divides(origin, from, p.pos)
    ensures Divides(Traced(origin, op, offset, size), from, Moved(p, op, offset, size).pos)
  {
    var t, q := Traced(origin, op, offset, size), Moved(p, op, offset, size).pos;
    forall i | 0 <= i < |t| && t[i] >= 0
      ensures i < q <==> t[i] < from
    {
      if i < offset {
        assert t[i] == origin[i];
      } else if op == OpInsert {
        assert i >= offset + size && t[i] == origin[i - size];
      } else if op == OpDelete {
        assert t[i] == origin[i + size];
      } else {
        assert t[i] == origin[i];
      }
    }
  }

  /** The text holds the bytes that the table says. */
  ghost predicate Survives<T>(start: seq<T>, origin: seq<int>, t: seq<T>) {
    && |origin| == |t|
    && forall i :: 0 <= i < |t| && origin[i] >= 0 ==> origin[i] < |start| && t[i] == start[origin[i]]
  }

  /** The text changes as the callback says. */
  ghost predicate Edited<T>(t: seq<T>, op: Op, offset: nat, size: nat, u: seq<T>) {
    && Within(|t|, op, offset, size)
    && |u| == (match op case OpInsert => |t| + size case OpDelete => |t| - size case OpWrite => |t|)
    && u[..offset] == t[..offset]
    && (match op
        case OpInsert => u[offset + size..] == t[offset..]
        case OpDelete => u[offset..] == t[offset + size..]
        case OpWrite => u[offset + size..] == t[offset + size..])
  }

  lemma EditedSurvives<T>(start: seq<T>, origin: seq<int>, t: seq<T>, op: Op, offset: nat, size: nat, u: seq<T>)
    requires Survives(start, origin, t) && Edited(t, op, offset, size, u)
    ensures Survives(start, Traced(origin, op, offset, size), u)
  {
    var r := Traced(origin, op, offset, size);
    var gone, come := (if op == OpInsert then 0 else size), (if op == OpDelete then 0 else size);
    forall i | 0 <= i < |u| && r[i] >= 0
      ensures r[i] < |start| && u[i] == start[r[i]]
    {
      if i < offset {
        assert u[..offset][i] == t[..offset][i] && r[i] == origin[i];
      } else {
        assert i >= offset + come;
        var k := i - come + gone;
        assert u[offset + come..][i - offset - come] == t[offset + gone..][i - offset - come];
        assert r[i] == origin[k] && u[i] == t[k];
      }
    }
  }

  // Styles

  /** style_bytes for style_shift. */
  function Width(shift: nat): nat
    requires shift <= 3
  {
    match shift case 0 => 1 case 1 => 2 case 2 => 4 case _ => 8
  }

  /** Style values of w bytes, and the bytes they make. */
  predicate Cells(cells: seq<seq<byte>>, w: nat) {
    forall i :: 0 <= i < |cells| ==> |cells[i]| == w
  }

  function Join(cells: seq<seq<byte>>): seq<byte> {
    if cells == [] then [] else cells[0] + Join(cells[1..])
  }

  lemma {:induction false} JoinConcat(a: seq<seq<byte>>, b: seq<seq<byte>>)
    ensures Join(a + b) == Join(a) + Join(b)
  {
    if a == [] {
      assert a + b == b;
    } else {
      assert (a + b)[1..] == a[1..] + b;
      JoinConcat(a[1..], b);
    }
  }

  lemma {:induction false} JoinSize(a: seq<seq<byte>>, w: nat)
    requires Cells(a, w)
    ensures |Join(a)| == |a| * w
  {
    if a != [] {
      JoinSize(a[1..], w);
      assert |a| * w == (|a| - 1) * w + w;
    }
  }

  function Repeat(style: seq<byte>, n: nat): (cells: seq<seq<byte>>)
    ensures |cells| == n && Cells(cells, |style|)
  {
    seq(n, _ => style)
  }

  /** An edit of the style values. */
  function Restyled(cells: seq<seq<byte>>, op: Op, offset: nat, size: nat, style: seq<byte>): (r: seq<seq<byte>>)
    requires Within(|cells|, op, offset, size)
  {
    match op
    case OpInsert => cells[..offset] + Repeat(style, size) + cells[offset..]
    case OpDelete => cells[..offset] + cells[offset + size..]
    case OpWrite => cells[..offset] + Repeat(style, size) + cells[offset + size..]
  }

  lemma RestyledEdited(cells: seq<seq<byte>>, op: Op, offset: nat, size: nat, style: seq<byte>)
    requires Within(|cells|, op, offset, size)
    ensures Edited(cells, op, offset, size, Restyled(cells, op, offset, size, style))
    ensures Cells(cells, |style|) ==> Cells(Restyled(cells, op, offset, size, style), |style|)
  {
    var r := Restyled(cells, op, offset, size, style);
    assert r[..offset] == cells[..offset];
    match op
    case OpInsert => assert r[offset + size..] == cells[offset..];
    case OpDelete => assert r[offset..] == cells[offset + size..];
    case OpWrite => assert r[offset + size..] == cells[offset + size..];
  }

  /** The bytes of style values cut in two. */
  lemma JoinCut(cells: seq<seq<byte>>, w: nat, k: nat)
    requires Cells(cells, w) && k <= |cells|
    ensures k * w <= |Join(cells)| == |cells| * w
    ensures Join(cells)[..k * w] == Join(cells[..k]) && Join(cells)[k * w..] == Join(cells[k..])
  {
    hide Join;
    JoinSize(cells[..k], w);
    JoinSize(cells, w);
    assert cells == cells[..k] + cells[k..];
    JoinConcat(cells[..k], cells[k..]);
  }

  /** An edit of the style buffer is an edit of the style values. */
  lemma RestyledBytes(cells: seq<seq<byte>>, op: Op, offset: nat, size: nat, style: seq<byte>)
    requires Within(|cells|, op, offset, size) && Cells(cells, |style|)
    ensures var w, st, r := |style|, Join(cells), Join(Restyled(cells, op, offset, size, style));
      && |Join(Repeat(style, size))| == size * w && |st| == |cells| * w
      && (op == OpInsert ==> offset * w <= |st| && r == Inserted(st, offset * w, Join(Repeat(style, size))))
      && (op == OpDelete ==> offset * w + size * w <= |st| && r == Deleted(st, offset * w, size * w))
      && (op == OpWrite ==> offset * w + size * w <= |st| && r == Overwritten(st, offset * w, Join(Repeat(style, size))))
  {
    hide Join, Cells, Repeat, Inserted, Deleted, Overwritten;
    JoinSize(Repeat(style, size), |style|);
    JoinSize(cells, |style|);
    match op
    case OpInsert => InsertedCells(cells, |style|, offset, Repeat(style, size));
    case OpDelete => DeletedCells(cells, |style|, offset, size);
    case OpWrite => WrittenCells(cells, |style|, offset, Repeat(style, size));
  }

  lemma InsertedCells(cells: seq<seq<byte>>, w: nat, offset: nat, fill: seq<seq<byte>>)
    requires Cells(cells, w) && offset <= |cells|
    ensures offset * w <= |Join(cells)|
    ensures Join(cells[..offset] + fill + cells[offset..]) == Inserted(Join(cells), offset * w, Join(fill))
  {
    hide Join, Cells;
    JoinSpliced(cells, w, offset, offset, fill);
  }

  lemma DeletedCells(cells: seq<seq<byte>>, w: nat, offset: nat, size: nat)
    requires Cells(cells, w) && offset + size <= |cells|
    ensures offset * w + size * w <= |Join(cells)|
    ensures Join(cells[..offset] + cells[offset + size..]) == Deleted(Join(cells), offset * w, size * w)
  {
    hide Join, Cells;
    assert cells[..offset] + [] + cells[offset + size..] == cells[..offset] + cells[offset + size..];
    Distributes(offset, size, w);
    JoinSpliced(cells, w, offset, offset + size, []);
    JoinNone();
  }

  lemma WrittenCells(cells: seq<seq<byte>>, w: nat, offset: nat, fill: seq<seq<byte>>)
    requires Cells(cells, w) && Cells(fill, w) && offset + |fill| <= |cells|
    ensures |Join(fill)| == |fill| * w && offset * w + |fill| * w <= |Join(cells)|
    ensures Join(cells[..offset] + fill + cells[offset + |fill|..]) == Overwritten(Join(cells), offset * w, Join(fill))
  {
    hide Join, Cells, Overwritten;
    JoinSize(fill, w);
    Distributes(offset, |fill|, w);
    JoinSpliced(cells, w, offset, offset + |fill|, fill);
    OverwrittenIs(Join(cells), offset * w, Join(fill), (offset + |fill|) * w);
  }

  lemma OverwrittenIs(t: seq<byte>, x: nat, d: seq<byte>, y: nat)
    requires y == x + |d| && y <= |t|
    ensures Overwritten(t, x, d) == t[..x] + d + t[y..]
  {
  }

  lemma Distributes(a: nat, b: nat, w: nat)
    ensures (a + b) * w == a * w + b * w
  {
  }

  lemma JoinNone()
    ensures Join([]) == []
  {
  }

  /** Style values put in the place of others, as bytes. */
  lemma JoinSpliced(cells: seq<seq<byte>>, w: nat, from: nat, to: nat, fill: seq<seq<byte>>)
    requires Cells(cells, w) && from <= to <= |cells|
    ensures from * w <= to * w <= |Join(cells)| == |cells| * w
    ensures Join(cells[..from] + fill + cells[to..]) == Join(cells)[..from * w] + Join(fill) + Join(cells)[to * w..]
  {
    hide Join, Cells;
    assert (to - from) * w == to * w - from * w && (to - from) * w >= 0;
    JoinCut(cells, w, from);
    JoinCut(cells, w, to);
    JoinConcat(cells[..from], fill);
    JoinConcat(cells[..from] + fill, cells[to..]);
  }

  /** What one pass of the loop of eb_set_style covers. */
  lemma ChunkFits(shift: nat, left: nat)
    requires shift <= 3 && left > 0
    ensures var w := Width(shift);
      var len := Min(left * w, 256);
      0 < len / w <= left && (len / w) * w == len
  {
  }

  /** The bytes of an insert or a write. */
  function Put(t: seq<byte>, op: Op, o: nat, d: seq<byte>): (r: seq<byte>)
    requires if op == OpInsert then o <= |t| else o + |d| <= |t|
    ensures |r| == |t| + if op == OpInsert then |d| else 0
  {
    if op == OpInsert then Inserted(t, o, d) else Overwritten(t, o, d)
  }

  lemma PutMore(t: seq<byte>, op: Op, o: nat, style: seq<byte>, k: nat, m: nat)
    requires if op == OpInsert then o <= |t| else o + (k + m) * |style| <= |t|
    ensures var d, e, all := Join(Repeat(style, k)), Join(Repeat(style, m)), Join(Repeat(style, k + m));
      && |d| == k * |style| && |e| == m * |style| && |all| == (k + m) * |style| && |d| + |e| == |all|
      && Put(Put(t, op, o, d), op, o + |d|, e) == Put(t, op, o, all)
  {
    hide Join;
    var d, e, w := Repeat(style, k), Repeat(style, m), |style|;
    JoinSize(d, w);
    JoinSize(e, w);
    JoinSize(Repeat(style, k + m), w);
    assert (k + m) * w == k * w + m * w;
    assert Repeat(style, k + m) == d + e;
    JoinConcat(d, e);
    if op == OpInsert { InsertTwice(t, o, Join(d), Join(e)); } else { OverwriteTwice(t, o, Join(d), Join(e)); }
  }

  lemma PutNothing(t: seq<byte>, op: Op, o: nat, style: seq<byte>)
    requires o <= |t|
    ensures Join(Repeat(style, 0)) == [] && Put(t, op, o, []) == t
  {
  }

  lemma PutCall(t: seq<byte>, op: Op, o: nat, d: seq<byte>)
    requires if op == OpInsert then o <= |t| else o + |d| <= |t|
    ensures Put(t, op, o, d) == if op == OpInsert then PagedOps.InsertAnywhere(t, o, d) else PagedOps.WriteAnywhere(t, o, d)
  {
  }

  /** The side tables of a text as one value: registered offsets, origins, and
      style values when the text is styled. */
  datatype Side = Side(points: seq<Point>, origin: seq<int>, cells: seq<seq<byte>>, styled: bool, style: seq<byte>)

  predicate SideOk(sd: Side) {
    sd.styled ==> |sd.cells| == |sd.origin|
  }

  /** The side tables after the callbacks of one edit. */
  function Told(sd: Side, op: Op, offset: nat, size: nat): (r: Side)
    requires SideOk(sd) && Within(|sd.origin|, op, offset, size)
    ensures SideOk(r) && r.styled == sd.styled && |r.points| == |sd.points|
  {
    Side(seq(|sd.points|, k requires 0 <= k < |sd.points| => Moved(sd.points[k], op, offset, size)),
         Traced(sd.origin, op, offset, size),
         if sd.styled then Restyled(sd.cells, op, offset, size, sd.style) else sd.cells,
         sd.styled, sd.style)
  }

  /** The offsets divide the surviving bytes as they did at the start, and
      untouched bytes keep their style. */
  ghost predicate InStep(start: Side, sd: Side) {
    && |sd.points| == |start.points|
    && (forall k :: 0 <= k < |sd.points| ==> Divides(sd.origin, start.points[k].pos, sd.points[k].pos))
    && (sd.styled ==> Survives(start.cells, sd.origin, sd.cells))
  }

  lemma ToldInStep(start: Side, sd: Side, op: Op, offset: nat, size: nat)
    requires SideOk(sd) && Within(|sd.origin|, op, offset, size) && InStep(start, sd)
    ensures InStep(start, Told(sd, op, offset, size))
  {
    hide Restyled, Traced, Moved, Edited, Survives, Divides;
    var r := Told(sd, op, offset, size);
    forall k | 0 <= k < |r.points|
      ensures Divides(r.origin, start.points[k].pos, r.points[k].pos)
    {
      MovedDivides(sd.origin, sd.points[k], start.points[k].pos, op, offset, size);
    }
    if sd.styled {
      RestyledEdited(sd.cells, op, offset, size, sd.style);
      EditedSurvives(start.cells, sd.origin, sd.cells, op, offset, size, r.cells);
    }
  }

  class Watchers {
    var points: seq<Point>
    const styled: bool
    const shift: nat
    const styles: PagedBuffer
    var curStyle: seq<byte>
    ghost var origin: seq<int>
    ghost var startPoints: seq<Point>
    ghost var cells: seq<seq<byte>>
    ghost var startCells: seq<seq<byte>>

    ghost function State(): Side
      reads this
    {
      Side(points, origin, cells, styled, curStyle)
    }

    /** The side tables at the chosen start. */
    ghost function Start(): Side
      reads this
    {
      Side(startPoints, [], startCells, styled, curStyle)
    }

    ghost predicate Styled()
      reads this, styles, styles.mapping
    {
      && shift <= 3 && |curStyle| == Width(shift) && styles.Valid()
      && Cells(cells, Width(shift)) && styles.Text() == Join(cells)
    }

    ghost predicate Valid()
      reads this, styles, styles.mapping
    {
      SideOk(State()) && InStep(Start(), State()) && (styled ==> Styled())
    }

    /** Registered offsets and, when wanted, a style buffer for a text of n
        bytes (eb_create_style_buffer). */
    constructor (pts: seq<Point>, wanted: bool, width: nat, n: nat)
      requires width <= 3 && forall k :: 0 <= k < |pts| ==> 0 <= pts[k].pos <= n
      ensures Valid() && points == pts && origin == Same(n) && startPoints == points && startCells == cells
      ensures fresh(styles) && fresh(styles.mapping)
      ensures styled == wanted && shift == width && |curStyle| == Width(width)
    {
      points, startPoints, styled, shift := pts, pts, wanted, width;
      styles := new PagedBuffer(Coding(false, Unix));
      curStyle := seq(Width(width), _ => 0);
      origin, cells := Same(n), [];
      new;
      SetStyle(OpInsert, 0, n);
      startCells := cells;
    }

    /** The loop of eb_set_style, by chunks of at most 256 bytes. */
    method PutStyles(op: Op, offset: nat, size: nat)
      requires Styled() && op != OpDelete && Within(|cells|, op, offset, size)
      modifies styles
      ensures styles.Valid() && styles.Text() == Join(Restyled(cells, op, offset, size, curStyle))
    {
      hide Flat, PageOk, Join, Restyled, Put, Cells, Repeat;
      var w := Width(shift);
      ghost var st := styles.Text();
      RestyledIsPut(cells, op, offset, size, curStyle);
      var at, left := offset * w, size * w;
      ghost var k: nat := 0;
      PutNothing(st, op, at, curStyle);
      while left > 0
        invariant styles.Valid() && k <= size && left == (size - k) * w && at == offset * w + k * w
        invariant |Join(Repeat(curStyle, k))| == k * w && k * w <= size * w
        invariant styles.Text() == Put(st, op, offset * w, Join(Repeat(curStyle, k)))
        decreases left
      {
        ChunkFits(shift, size - k);
        var len := Min(left, 256);
        StillInside(offset, size, k, len / w, w);
        PutMore(st, op, offset * w, curStyle, k, len / w);
        PutChunk(op, at, len / w);
        at, left, k := at + len, left - len, k + len / w;
      }
    }

    /** One chunk of m styles. */
    method PutChunk(op: Op, at: nat, m: nat)
      requires styles.Valid() && op != OpDelete && |Join(Repeat(curStyle, m))| == m * |curStyle|
      requires if op == OpInsert then at <= |styles.Text()| else at + |Join(Repeat(curStyle, m))| <= |styles.Text()|
      modifies styles
      ensures styles.Valid() && styles.Text() == Put(old(styles.Text()), op, at, Join(Repeat(curStyle, m)))
    {
      hide Flat, PageOk, Join, Put;
      var buf := FillBuffer(m);
      PutCall(styles.Text(), op, at, buf);
      if op == OpWrite {
        var _ := PagedOps.Write(styles, at, buf);
      } else {
        var _ := PagedOps.Insert(styles, at, buf);
      }
    }

    /** The chunk: m copies of the current style. */
    method FillBuffer(m: nat) returns (buf: seq<byte>)
      ensures buf == Join(Repeat(curStyle, m))
    {
      buf := [];
      for i := 0 to m
        invariant buf == Join(Repeat(curStyle, i))
      {
        JoinConcat(Repeat(curStyle, i), [curStyle]);
        assert Join([curStyle]) == curStyle + Join([]);
        assert Repeat(curStyle, i + 1) == Repeat(curStyle, i) + [curStyle];
        buf := buf + curStyle;
      }
    }

    /** eb_set_style for a one byte charset. */
    method SetStyle(op: Op, offset: nat, size: nat)
      requires styled ==> Styled() && Within(|cells|, op, offset, size)
      modifies this`cells, styles
      ensures styled ==> Styled() && cells == Restyled(old(cells), op, offset, size, curStyle)
      ensures !styled ==> cells == old(cells)
    {
      hide Flat, PageOk, Join, Restyled, Cells;
      if !styled { return; }
      var w := Width(shift);
      RestyledBytes(cells, op, offset, size, curStyle);
      RestyledEdited(cells, op, offset, size, curStyle);
      if size == 0 {
        RestyledNothing(cells, op, offset, curStyle);
      } else if op == OpDelete {
        var _ := PagedOps.Delete(styles, offset * w, size * w);
        assert size * w > 0;
      } else {
        PutStyles(op, offset, size);
      }
      cells := Restyled(cells, op, offset, size, curStyle);
    }

    /** The callback loop of eb_addlog: offsets and styles. */
    method Notify(op: Op, offset: nat, size: nat)
      requires Valid() && Within(|origin|, op, offset, size)
      modifies this`points, this`origin, this`cells, styles
      ensures Valid() && State() == Told(old(State()), op, offset, size)
    {
      hide Flat, PageOk, Join, Restyled, Cells, Edited, Traced, Survives, Divides, InStep;
      var moved := points;
      for i := 0 to |points|
        invariant |moved| == |points|
        invariant forall k :: 0 <= k < i ==> moved[k] == Moved(points[k], op, offset, size)
        invariant forall k :: i <= k < |points| ==> moved[k] == points[k]
      {
        moved := moved[i := Moved(moved[i], op, offset, size)];
      }
      ghost var told := Told(State(), op, offset, size);
      ToldInStep(Start(), State(), op, offset, size);
      SetStyle(op, offset, size);
      points := moved;
      origin := Traced(origin, op, offset, size);
      assert points == told.points;
    }
  }

  lemma StillInside(offset: nat, size: nat, k: nat, m: nat, w: nat)
    requires k + m <= size
    ensures offset * w + (k + m) * w <= offset * w + size * w && (k + m) * w == k * w + m * w
    ensures (size - (k + m)) * w == (size - k) * w - m * w
  {
    assert (k + m) * w <= size * w;
  }

  lemma RestyledIsPut(cells: seq<seq<byte>>, op: Op, offset: nat, size: nat, style: seq<byte>)
    requires Within(|cells|, op, offset, size) && Cells(cells, |style|) && op != OpDelete
    ensures |Join(Repeat(style, size))| == size * |style|
    ensures if op == OpInsert then offset * |style| <= |Join(cells)| else offset * |style| + size * |style| <= |Join(cells)|
    ensures Join(Restyled(cells, op, offset, size, style)) == Put(Join(cells), op, offset * |style|, Join(Repeat(style, size)))
  {
    hide Join, Restyled, Cells, Repeat;
    RestyledBytes(cells, op, offset, size, style);
  }

  lemma RestyledNothing(cells: seq<seq<byte>>, op: Op, offset: nat, style: seq<byte>)
    requires offset <= |cells|
    ensures Restyled(cells, op, offset, 0, style) == cells
  {
  }
}
