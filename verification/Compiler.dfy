/** The compiler's promise: what it emits means what the source means. */
module Compiler {
  import opened Ast
  import opened Machine
  import opened Correctness
  import opened IRGenerator
  import opened Allocation

  method Compile(body: Stmt) returns (code: seq<Instr>)
    ensures Implements(code, body)
    ensures exists p :: SoundFor(p, body) && code == RewriteAll(p, VirtualCode(body))
  {
    var ir := new IR();
    ir.CompileToIR(body);
    RewrittenImplements(body, Placement(ir.vregToPreg, ir.spillMap));
    code := ir.irNodes;
  }
}
