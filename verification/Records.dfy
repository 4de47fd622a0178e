/** The records that the analysis passes hand to one another. */
module Records {
  import opened Common

  /** One decoded instruction. `branchTarget` is present for direct branches and calls. */
  datatype Instruction = Instruction(
    address: nat,
    size: nat,
    mnemonic: string,
    isCall: bool,
    isJump: bool,
    isRet: bool,
    branchTarget: Option<nat>)

  datatype FunctionRecord = FunctionRecord(start: nat, end: nat, source: string)

  datatype Block = Block(start: nat, end: nat, instructionCount: nat)

  datatype EdgeKind = Branch | Fallthrough

  datatype Edge = Edge(from: nat, to: nat, kind: EdgeKind)

  datatype Cfg = Cfg(function_: nat, blocks: seq<Block>, edges: seq<Edge>)

  /** The first block whose half-open range holds the address. */
  function FindBlock(blocks: seq<Block>, address: nat): (r: Option<nat>)
  {
    if blocks == [] then None
    else if blocks[0].start <= address < blocks[0].end then Some(blocks[0].start)
    else FindBlock(blocks[1..], address)
  }
}
