/** The stack-machine code shared by the compiler, the verifier, the optimizer and both VMs. */
module Bytecode {
  import opened Int32

  datatype Opcode =
    | LoadConst | LoadLocal | StoreLocal | LoadGlobal | StoreGlobal
    | Add | Sub | Mul | Div | Neg
    | Eq | Ne | Lt | Gt | Le | Ge
    | And | Or | Not
    | Jump | JumpIfFalse | JumpIfTrue
    | Call | Return
    | ArrayLoad | ArrayStore | ArrayNew | LocalArrayLoad | LocalArrayStore | AllocArray
    | Print | Pop | Dup | Halt

  datatype Instruction = Instruction(opcode: Opcode, arg1: I32, arg2: I32)

  datatype FunctionInfo = FunctionInfo(name: string, id: nat, entryPc: nat, paramCount: nat, localCount: nat)

  datatype GlobalInfo = GlobalInfo(name: string, slot: nat, isArray: bool, arraySize: nat)

  datatype CompiledProgram = CompiledProgram(
    instructions: seq<Instruction>,
    functions: map<nat, FunctionInfo>,
    globals: map<string, GlobalInfo>,
    mainFuncId: nat)
}
