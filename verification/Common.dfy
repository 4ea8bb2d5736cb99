/** Values shared by every part of the model. */
module Common {

  datatype Option<+T> = None | Some(value: T)

  /** Error kinds; Custom stands for any error a rule injects, Joined for errors.Join. */
  datatype Error =
    | Invalid | NotExist | Exist | NotDir | IsDir | NotEmpty | Permission
    | Closed | NegativeOffset | EOF
    | Custom(id: int)
    | Joined(first: Error, second: Error)

  // ----- Machine integers -----

  const TWO_63: int := 0x8000_0000_0000_0000
  const TWO_64: int := 0x1_0000_0000_0000_0000
  const MAX_INT: int := TWO_63 - 1

  predicate IsInt64(x: int) {
    -TWO_63 <= x <= MAX_INT
  }

  /** Two's-complement wrap-around of a 64-bit signed sum. */
  function Wrap64(x: int): (r: int)
    ensures IsInt64(r)
    ensures IsInt64(x) ==> r == x
  {
    (x + TWO_63) % TWO_64 - TWO_63
  }

  // ----- Operations, as error.go numbers them -----

  type Operation = int

  const OpUnknown: Operation := 0
  const OpStat: Operation := 1
  const OpOpen: Operation := 2
  const OpRead: Operation := 3
  const OpWrite: Operation := 4
  const OpSeek: Operation := 5
  const OpClose: Operation := 6
  const OpReadDir: Operation := 7
  const OpMkdir: Operation := 8
  const OpMkdirAll: Operation := 9
  const OpRemove: Operation := 10
  const OpRemoveAll: Operation := 11
  const OpRename: Operation := 12
  const NumOperations: Operation := 13

  predicate ValidOp(op: Operation) {
    OpUnknown < op < NumOperations
  }
}
