/** The patterns that libregexp.c compiles, the flags they are compiled under,
    and the character tests that patterns and opcodes share. */
module RegexSyntax {
  import opened Bytes

  /** quant_max of an unbounded quantifier (INT32_MAX). */
  const INF: int := 0x7fff_ffff
  const CAPTURE_COUNT_MAX: int := 255
  const STACK_SIZE_MAX: int := 255

  /** A parsed pattern. `Cat(l, t)` is an alternative `l` followed by one more
      term, `Alt(d, a)` a disjunction followed by `|` and one more alternative;
      `Group` captures, and captures are numbered in textual order. */
  datatype Node =
    | Empty
    | Chr(c: int)
    | AnyChar
    | Class(points: seq<int>)
    | Bol
    | Eol
    | WordB(negated: bool)
    | BackRef(n: int)
    | Cat(left: Node, right: Node)
    | Alt(left: Node, right: Node)
    | Group(body: Node)
    | Look(negative: bool, behind: bool, body: Node)
    | Quant(body: Node, min: int, max: int, greedy: bool)

  /** Compilation flags, with the case folding of lre_canonicalize. */
  datatype Env = Env(ignoreCase: bool, multiline: bool, dotall: bool, sticky: bool, canon: int -> int)

  /** A subject string with 8 bit or plain 16 bit characters, and what lre_exec
      derives from the characters around it. */
  datatype Ctx = Ctx(env: Env, text: seq<int>, notBol: bool, notEol: bool, notBow: bool, notEow: bool)

  /** Number of capturing groups of a pattern. */
  function NCaps(r: Node): nat {
    match r
    case Cat(a, b) => NCaps(a) + NCaps(b)
    case Alt(a, b) => NCaps(a) + NCaps(b)
    case Group(b) => 1 + NCaps(b)
    case Look(_, _, b) => NCaps(b)
    case Quant(b, _, _, _) => NCaps(b)
    case _ => 0
  }

  /** The points of a CharRange: pairs low, high+1 in increasing order. */
  predicate SortedPoints(points: seq<int>) {
    && |points| % 2 == 0
    && (forall i :: 0 <= i < |points| ==> 0 <= points[i] <= UINT32_MAX)
    && (forall i, j :: 0 <= i < j < |points| ==> points[i] <= points[j])
    && (forall i :: 0 <= i < |points| / 2 ==> points[2 * i] < points[2 * i + 1])
  }

  /** Membership in the set of characters a CharRange stands for. */
  ghost predicate InClass(points: seq<int>, c: int) {
    exists i :: 0 <= i < |points| / 2 && points[2 * i] <= c < points[2 * i + 1]
  }

  /** What the parser guarantees about the pieces of a pattern. */
  predicate WellFormed(r: Node) {
    match r
    case Chr(c) => 0 <= c <= 0x10ffff
    case Class(points) => SortedPoints(points)
    case BackRef(n) => 0 <= n < CAPTURE_COUNT_MAX
    case Cat(a, b) => WellFormed(a) && WellFormed(b)
    case Alt(a, b) => WellFormed(a) && WellFormed(b)
    case Group(b) => WellFormed(b)
    case Look(_, _, b) => WellFormed(b)
    case Quant(b, min, max, _) => WellFormed(b) && 0 <= min <= max <= INF
    case _ => true
  }

  /** Folding maps characters to characters. */
  ghost predicate WellFormedEnv(e: Env) {
    forall c :: 0 <= c <= 0x10ffff ==> 0 <= e.canon(c) <= 0x10ffff
  }

  ghost predicate WellFormedCtx(x: Ctx) {
    && WellFormedEnv(x.env)
    && forall i :: 0 <= i < |x.text| ==> 0 <= x.text[i] < TWO16
  }

  function Fold(e: Env, c: int): int {
    if e.ignoreCase then e.canon(c) else c
  }

  predicate IsLineTerminator(c: int) {
    c == 10 || c == 13 || c == 0x2028 || c == 0x2029
  }

  predicate IsWordChar(c: int) {
    (48 <= c <= 57) || (97 <= c <= 122) || (65 <= c <= 90) || c == 95
  }

  predicate AtLineStart(x: Ctx, pos: nat) {
    if pos == 0 then !x.notBol
    else x.env.multiline && pos <= |x.text| && IsLineTerminator(x.text[pos - 1])
  }

  predicate AtLineEnd(x: Ctx, pos: nat) {
    if pos == |x.text| then !x.notEol
    else x.env.multiline && pos < |x.text| && IsLineTerminator(x.text[pos])
  }

  predicate WordBefore(x: Ctx, pos: nat) {
    if pos == 0 then x.notBow else pos <= |x.text| && IsWordChar(x.text[pos - 1])
  }

  predicate WordAfter(x: Ctx, pos: nat) {
    if pos >= |x.text| then x.notEow else IsWordChar(x.text[pos])
  }

  predicate AtWordBoundary(x: Ctx, pos: nat) {
    WordBefore(x, pos) != WordAfter(x, pos)
  }
}
