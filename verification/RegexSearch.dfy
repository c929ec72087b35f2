/** Compiling a pattern and running the result: lre_compile followed by
    lre_exec (libregexp.c). */
module RegexSearch {
  import opened Bytes
  import opened RegexSyntax
  import opened RegexSemantics
  import opened RegexEmit
  import opened RegexCorrectness
  import opened RegexProgram
  import opened RegexEncodable
  import opened RegexMain
  import opened RegexExec

  datatype Answer = Rejected | Nothing | Captures(caps: seq<int>)

  /** For every supported pattern (RegexAdvance.CheckedSupported gives a test on
      the pattern alone), every subject and every start, the answer is the first
      match of the leftmost attempt that has one. */
  method Search(flags: byte, x: Ctx, r: Node, start: nat) returns (answer: Answer)
    requires WellFormed(r) && WellFormedCtx(x) && FlagsMatch(flags, x.env) && Fits(x.env, r) && start <= |x.text|
    requires Supported(x, false, r, 1)
    ensures answer.Rejected? <==> !(Compilable(r, 1) && MaxDepth(Program(x.env, r)) <= STACK_SIZE_MAX)
    ensures var found := Found(x, r, Res(start, Nulls(2 * (1 + NCaps(r)))));
      !answer.Rejected? ==> answer == if found == [] then Nothing else Captures(found[0].caps)
    ensures answer.Captures? ==> Captured(x, r, start, answer.caps)
  {
    hide Captured, WellFormed, Found, IsImage, MaxDepth, Program, Compilable, Supported, Fits, Nulls, NCaps;
    var res := LreCompile(flags, x.env, r);
    if res.CompileError? { return Rejected; }
    var matched, caps := LreExec(x, res.bytes, start, r, flags);
    answer := if matched then Captures(caps) else Nothing;
  }
}
