/** lre_compile: the header, the program and the stack size. */
module RegexMain {
  import opened Bytes
  import opened RegexSyntax
  import opened Bytecode
  import opened RegexEmit
  import opened RegexTyping
  import opened RegexInvariant
  import opened RegexAnalysis
  import opened RegexEncodable
  import opened RegexCompiler

  const HEADER_LEN: int := 7

  datatype CompileResult = CompileError | Compiled(bytes: seq<byte>)

  /** The flag bits of libregexp.h that concern compilation and execution. */
  predicate FlagsMatch(flags: byte, e: Env) {
    && e.ignoreCase == (flags / 2 % 2 == 1)
    && e.multiline == (flags / 4 % 2 == 1)
    && e.dotall == (flags / 8 % 2 == 1)
    && e.sticky == (flags / 32 % 2 == 1)
  }

  /** The layout of a compiled pattern. */
  ghost predicate IsImage(bytes: seq<byte>, flags: byte, e: Env, r: Node) {
    && AllEncodable(Program(e, r))
    && |bytes| == HEADER_LEN + Len(Program(e, r))
    && bytes[0] == flags
    && bytes[1] == 1 + NCaps(r)
    && bytes[2] == MaxDepth(Program(e, r))
    && GetU32(bytes, 3) == Len(Program(e, r))
    && Lies(bytes, HEADER_LEN, Encode(Program(e, r)))
  }

  predicate Fits(e: Env, r: Node) {
    SizesFit(e, r, false, 1) && Len(Program(e, r)) < TWO31
  }

  lemma ProgramEncodable(e: Env, r: Node)
    requires WellFormed(r) && WellFormedEnv(e) && Compilable(r, 1) && SizesFit(e, r, false, 1)
    ensures AllEncodable(Program(e, r))
    ensures var c := Emit(e, r, false, 1);
      AllEncodable(c) && Encode(Program(e, r)) == PrefixBytes(e.sticky) + [11, 0] + Encode(c) + [12, 0, 10]
  {
    hide Encode, Len, Emit, AllEncodable, WellFormedEnv, PrefixBytes;
    var c := Emit(e, r, false, 1);
    EmitEncodable(e, r, false, 1);
    EndBytes();
    PrefixEncoded(e.sticky);
    EncodeConcat(Prefix(e.sticky), [SaveStart(0)]);
    EncodeConcat(Prefix(e.sticky) + [SaveStart(0)], c);
    EncodeConcat(Prefix(e.sticky) + [SaveStart(0)] + c, [SaveEnd(0), Match]);
  }

  lemma EndBytes()
    ensures AllEncodable([SaveStart(0)]) && Encode([SaveStart(0)]) == [11, 0]
    ensures AllEncodable([SaveEnd(0), Match]) && Encode([SaveEnd(0), Match]) == [12, 0, 10]
  {
    Encode1Is(SaveStart(0));
    Encode1Is(SaveEnd(0));
    Encode1Is(Match);
    EncodeConcat([SaveEnd(0)], [Match]);
    assert [SaveEnd(0)] + [Match] == [SaveEnd(0), Match];
  }

  function PrefixBytes(sticky: bool): seq<byte> {
    if sticky then [] else OpU32(8, 6) + [4] + [7] + Disp(-11)
  }

  lemma PrefixEncoded(sticky: bool)
    ensures AllEncodable(Prefix(sticky)) && Encode(Prefix(sticky)) == PrefixBytes(sticky)
  {
    hide Encode, Disp, U32;
    if sticky {
      EncodeNil();
    } else {
      var a, b, c := SplitGotoFirst(6), Any, Goto(-11);
      assert Prefix(false) == [a] + ([b] + [c]);
      EncodableOne(c);
      Encode1Is(c);
      EncodeCons(b, [c]);
      EncodeCons(a, [b] + [c]);
      NonNegativeDisp(6);
      assert Encode1(b) == [4];
    }
  }

  /** The program part, after an open header. */
  method EmitProgram(s: Compiler, r: Node, ghost header: seq<byte>) returns (ok: bool)
    requires s.Valid() && s.code.Contents() == header && s.captureCount == 1
    requires WellFormed(r) && WellFormedEnv(s.env) && SizesFit(s.env, r, false, 1)
    modifies s, s.code, s.code.buf
    ensures s.Valid() && (s.code.buf == old(s.code.buf) || fresh(s.code.buf))
    ensures ok <==> Compilable(r, 1)
    ensures ok ==> s.captureCount == 1 + NCaps(r) <= CAPTURE_COUNT_MAX && AllEncodable(Program(s.env, r))
    ensures ok ==> s.code.Contents() == header + Encode(Program(s.env, r))
  {
    hide Encode, Len, Emit, Compilable, AllEncodable, WellFormedEnv, SizesFit, PrefixBytes, Program, WellFormed, NCaps;
    var prefix := PrefixBytes(s.env.sticky);
    s.EmitBytes(prefix);
    s.EmitBytes([11, 0]);
    ok := s.Compile(r, false);
    if ok {
      s.EmitBytes([12, 0, 10]);
      ProgramEncodable(s.env, r);
      Joined(header, prefix, [11, 0], Encode(Emit(s.env, r, false, 1)), [12, 0, 10]);
    }
  }

  lemma Joined(h: seq<byte>, a: seq<byte>, b: seq<byte>, c: seq<byte>, d: seq<byte>)
    ensures h + a + b + c + d == h + (a + b + c + d)
  {
  }

  lemma Overwritten(s: seq<byte>, a: seq<byte>, x: seq<byte>, y: seq<byte>, b: seq<byte>)
    requires |x| == |y| && s == a + x + b
    ensures s[..|a|] + y + s[|a| + |y|..] == a + y + b
  {
  }

  /** Fill in the header. */
  method Seal(s: Compiler, flags: byte, depth: byte, ghost program: seq<byte>) returns (bytes: seq<byte>)
    requires s.Valid() && s.code.Contents() == ([flags, 0, 0] + U32(0)) + program && |program| < TWO31 && s.captureCount < 256
    modifies s.code.buf
    ensures |bytes| == HEADER_LEN + |program|
    ensures bytes[0] == flags && bytes[1] == s.captureCount && bytes[2] == depth && GetU32(bytes, 3) == |program|
    ensures Lies(bytes, HEADER_LEN, program)
  {
    hide U32, Lies;
    var count, len := s.captureCount, s.code.size - HEADER_LEN;
    ghost var open := s.code.Contents();
    assert open == [flags] + [0, 0] + (U32(0) + program);
    Overwritten(open, [flags], [0, 0], [count, depth], U32(0) + program);
    s.code.Store(1, [count, depth]);
    ghost var counted := s.code.Contents();
    assert counted == [flags, count, depth] + U32(0) + program;
    Overwritten(counted, [flags, count, depth], U32(0), U32(len), program);
    s.code.Store(3, U32(len));
    bytes := s.code.Contents();
    HeaderImage(bytes, flags, count, depth, len, program);
  }

  /** lre_compile on a parsed pattern: it fails exactly when there are too many
      captures, too many ranges in a class, or too deep a nesting of counters. */
  method LreCompile(flags: byte, env: Env, r: Node) returns (res: CompileResult)
    requires WellFormed(r) && WellFormedEnv(env) && FlagsMatch(flags, env) && Fits(env, r)
    ensures res.Compiled? <==> Compilable(r, 1) && MaxDepth(Program(env, r)) <= STACK_SIZE_MAX
    ensures res.Compiled? ==> IsImage(res.bytes, flags, env, r)
  {
    hide Encode, Len, Emit, Compilable, AllEncodable, MaxDepth, Typed, WellFormedEnv, SizesFit, U32, Program, WellFormed, NCaps, Lies, GetU32;
    var s := new Compiler(env);
    s.EmitBytes([flags, 0, 0]);
    s.EmitBytes(U32(0));
    ghost var header := [flags, 0, 0] + U32(0);
    assert s.code.Contents() == header;
    var ok := EmitProgram(s, r, header);
    if !ok { return CompileError; }
    ghost var program := Program(env, r);
    EncodeLen(program);
    ProgramTyped(env, r);
    var instrs := s.code.Contents()[HEADER_LEN..];
    assert instrs == Encode(program);
    var stackSize := ComputeStackSize(instrs, program);
    MaxNonNegative(program);
    if stackSize < 0 { return CompileError; }
    var bytes := Seal(s, flags, stackSize, Encode(program));
    res := Compiled(bytes);
  }

  lemma MaxNonNegative(c: seq<Instr>)
    ensures MaxDepth(c) >= 0
  {
  }

  lemma ProgramTyped(e: Env, r: Node)
    requires WellFormed(r)
    ensures Typed(Program(e, r))
  {
    hide Typed, Depth, Emit, Prefix, Program;
    ProgramIs(e, r);
    PrefixTyped(e.sticky);
    EmitTyped(e, Group(r), false, 0);
    TypedConcat(Prefix(e.sticky), Emit(e, Group(r), false, 0));
    TypedPlain(Match);
    TypedConcat(ProgramBody(e, r), [Match]);
  }

  lemma HeaderImage(bytes: seq<byte>, flags: byte, count: byte, depth: byte, len: nat, program: seq<byte>)
    requires len == |program| < TWO32
    requires |bytes| == HEADER_LEN + |program| && bytes[..3] == [flags, count, depth] && bytes[3..7] == U32(len) && bytes[7..] == program
    ensures bytes[0] == flags && bytes[1] == count && bytes[2] == depth && GetU32(bytes, 3) == len && Lies(bytes, HEADER_LEN, program)
  {
    var h := bytes[..3];
    assert h[0] == bytes[0] && h[1] == bytes[1] && h[2] == bytes[2];
    Field32(len, bytes, 3);
    assert bytes[HEADER_LEN..HEADER_LEN + |program|] == bytes[7..];
  }
}
