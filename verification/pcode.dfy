/** Raw p-code as the driver passes edit it (src/pcoderaw.rs:22-75, src/opcodes.rs:19-37). */
module Pcode {
  import opened Common

  datatype Space = Ram | Register | Unique | Const | Stack | Join | Iop | Overlay | Other(id: nat)

  datatype Varnode = Varnode(space: Space, offset: nat, size: nat)

  datatype SeqNum = SeqNum(addr: nat, time: nat)

  datatype Op = Op(opcode: int, output: Option<Varnode>, inputs: seq<Varnode>, seqnum: Option<SeqNum>)

  const CPUI_COPY := 1
  const CPUI_BRANCH := 4
  const CPUI_CBRANCH := 5
  const CPUI_BRANCHIND := 6
  const CPUI_CALL := 7
  const CPUI_CALLIND := 8
  const CPUI_RETURN := 10
  const CPUI_INT_ADD := 19
}
