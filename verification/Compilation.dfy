// Compiling a script and running it, from end to end.
module Compilation {
  import opened BinaryCode
  import opened Bytes
  import opened Operands
  import opened Interpreter
  import opened Script
  import opened Validator
  import opened Layout
  import opened Compiler
  import opened Generator
  import opened FoldingBlocks
  import opened Placement

  // Running generated code performs exactly the tests and actions of the validated script, in
  // order, and ends the way it does, whatever precedes the code and whatever the tests yield.
  lemma CompiledBlockRuns(pre: seq<Byte>, vs: seq<VCommand>, result: bool, h: seq<Event>, o: Oracle)
    requires Generable(vs) && |pre| + BlockSize(vs) < OFFSET_LIMIT
    ensures var e := VExec(vs, false, o, h);
            Run(pre + BlockCode(vs, |pre|), Machine(|pre|, result, h), o)
            == (if e.stopped then Stopped else Finished, e.trace)
  {
    hide VFits, Closed, BlockCode, BlockSize, VExec, Has, Run, ChainTail;
    var code := pre + BlockCode(vs, |pre|);
    HasAppended(pre, BlockCode(vs, |pre|));
    var result' := BlockRuns(code, vs, |pre|, false, Machine(|pre|, result, h), o);
    RunAtEnd(code, Machine(|code|, result', VExec(vs, false, o, h).trace), o);
  }

  lemma HasAppended(pre: seq<Byte>, bytes: seq<Byte>)
    ensures Has(pre + bytes, |pre|, bytes)
  {
  }

  // What running a script directly comes to.
  function Direct(cs: seq<Command>, o: Oracle): (Outcome, seq<Event>)
  {
    var e := Exec(cs, false, o, []);
    (if e.stopped then Stopped else Finished, e.trace)
  }

  function Compiled(pre: seq<Byte>, cs: seq<Command>, result: bool, o: Oracle): (Outcome, seq<Event>)
    requires FoldBlock(cs, []).Some?
  {
    Run(pre + BlockCode(FoldBlock(cs, []).value, |pre|), Machine(|pre|, result, []), o)
  }

  // Running the code of a script carries out the tests and actions of the script as written, in
  // order, and ends the way it does, for every outcome of the tests, if and only if the script is
  // decided.
  lemma CompiledScriptIsExactWhenDecided(pre: seq<Byte>, cs: seq<Command>, result: bool)
    requires BlockFits(cs) && FoldBlock(cs, []).Some?
    requires |pre| + BlockSize(FoldBlock(cs, []).value) < OFFSET_LIMIT
    ensures DecidedBlock(cs, false) <==> forall o: Oracle :: Compiled(pre, cs, result, o) == Direct(cs, o)
  {
    hide BlockCode, BlockSize, VExec, Exec, FoldBlock, BlockFits, DecidedBlock, Run;
    var vs := FoldBlock(cs, []).value;
    ScriptGenerable(cs);
    FoldingKeepsTraceExactlyWhenDecided(cs);
    if DecidedBlock(cs, false) {
      forall o: Oracle ensures Compiled(pre, cs, result, o) == Direct(cs, o) {
        CompiledBlockRuns(pre, vs, result, [], o);
      }
    } else {
      var o: Oracle :| VExec(vs, false, o, []) != Exec(cs, false, o, []);
      CompiledBlockRuns(pre, vs, result, [], o);
      assert Compiled(pre, cs, result, o) != Direct(cs, o);
    }
  }

  lemma ScriptGenerable(cs: seq<Command>)
    requires BlockFits(cs) && FoldBlock(cs, []).Some?
    ensures Generable(FoldBlock(cs, []).value)
  {
    hide FoldBlock, BlockFits, Closed, VFits;
    FoldBlockFits(cs, []);
    FoldBlockCloses(cs, [], false, false);
  }

  // The actions of a script and its ending survive folding and code generation, provided tests
  // have no effect on one another.
  lemma CompiledScriptMeaning(pre: seq<Byte>, cs: seq<Command>, result: bool, o: Oracle)
    requires BlockFits(cs) && BlindToTests(o) && FoldBlock(cs, []).Some?
    requires |pre| + BlockSize(FoldBlock(cs, []).value) < OFFSET_LIMIT
    ensures var direct := Exec(cs, false, o, []);
            var run := Run(pre + BlockCode(FoldBlock(cs, []).value, |pre|), Machine(|pre|, result, []), o);
            run.0 == (if direct.stopped then Stopped else Finished) && Actions(run.1) == Actions(direct.trace)
  {
    hide BlockCode, BlockSize, VExec, Exec, FoldBlock, BlockFits, Closed, VFits;
    var vs := FoldBlock(cs, []).value;
    ScriptGenerable(cs);
    CompiledBlockRuns(pre, vs, result, [], o);
    FoldBlockKeepsActions(cs, [], false, o, [], []);
  }

  // Validates a script, generates its code behind what is already in the block, and runs it.
  method CompileAndRun(block: BinaryBlock, cs: seq<Command>, o: Oracle) returns (r: Option<(Outcome, seq<Event>)>)
    requires BlockFits(cs)
    requires FoldBlock(cs, []).Some? ==> |block.data| + BlockSize(FoldBlock(cs, []).value) < OFFSET_LIMIT
    modifies block
    ensures r.Some? <==> FoldBlock(cs, []).Some?
    ensures r.Some? <==> WellPlaced(cs)
    ensures r.Some? ==> var e := VExec(FoldBlock(cs, []).value, false, o, []);
                        r.value == (if e.stopped then Stopped else Finished, e.trace)
    ensures r.Some? && DecidedBlock(cs, false) ==> r.value == Direct(cs, o)
    ensures r.Some? && BlindToTests(o) ==>
              var e := Exec(cs, false, o, []);
              r.value.0 == (if e.stopped then Stopped else Finished) && Actions(r.value.1) == Actions(e.trace)
  {
    hide BlockCode, BlockSize, VExec, Exec, FoldBlock, BlockFits, Closed, VFits, DecidedBlock, WellPlaced;
    ValidatesExactlyWhenPlaced(cs);
    var vs := ValidateBlock(cs);
    if vs.None? { return None; }
    ScriptGenerable(cs);
    var start := |block.data|;
    ghost var pre := block.data;
    GenerateBlock(block, vs.value);
    var interpreter := new Interpreter(block, start);
    var outcome := interpreter.Continue(o);
    CompiledBlockRuns(pre, vs.value, false, [], o);
    FoldingKeepsTraceExactlyWhenDecided(cs);
    if BlindToTests(o) { CompiledScriptMeaning(pre, cs, false, o); }
    r := Some((outcome, interpreter.trace));
  }
}
