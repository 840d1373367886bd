/** Instruction kinds, as far as control flow and stack effects tell them apart. */
module Opcodes {

  type Byte = b: int | 0 <= b < 256

  /** An operand value: the constant None, an integer such as a jump offset, or anything else. */
  datatype Attr = NoneAttr | IntAttr(n: int) | OtherAttr(id: int)

  /** What a conditional jump tests. */
  datatype Condition = WhenFalse | WhenTrue | WhenNone | WhenNotNone

  /** `Ignored` stands for the internal kinds that recovery skips. */
  datatype Kind =
    | JumpForward
    | JumpBackward
    | JumpBackwardNoInterrupt
    | PopJump(backward: bool, on: Condition)
    | JumpIfOrPop(truth: bool)
    | ForIter
    | Send
    | RaiseVarargs
    | Reraise
    | ReturnValue
    | ReturnGenerator
    | LoadConst
    | LoadClosure
    | LoadGlobal
    | LoadMethod
    | PushNull
    | KwNames
    | Precall
    | Call
    | CallFunctionEx
    | MakeFunction
    | BuildSequence(form: string)
    | BuildTuple
    | BuildMap
    | BuildConstKeyMap
    | BuildSlice
    | FormatValue
    | CollectionAdd(form: string)
    | DictMerge(form: string)
    | MapAdd
    | Copy
    | Swap
    | SetupAnnotations
    | BeforeWith(asynchronous: bool)
    | PopTop
    | Store(form: string)
    | UnpackSequence
    | UnpackEx
    | Ignored(form: string)
    | Other(name: string)

  predicate UnconditionalJump(kind: Kind) {
    kind.JumpForward? || kind.JumpBackward? || kind.JumpBackwardNoInterrupt?
  }

  /** After these no instruction follows on a normal edge. */
  predicate Terminator(kind: Kind) {
    kind.RaiseVarargs? || kind.Reraise? || kind.ReturnValue?
  }

  predicate JumpKind(kind: Kind) {
    UnconditionalJump(kind) || kind.PopJump? || kind.JumpIfOrPop? || kind.ForIter? || kind.Send?
  }
}
