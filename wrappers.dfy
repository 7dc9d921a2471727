/** Failure-compatible result types shared by every module of the model, and the
    error kinds the modelled code raises (Python assertions and exceptions). */
module Wrappers {

  datatype Option<+T> = None | Some(value: T) {
    predicate IsFailure() { None? }

    function PropagateFailure<U>(): Option<U>
      requires None?
    {
      None
    }

    function Extract(): T
      requires Some?
    {
      value
    }
  }

  /** Every way an operation of the model can fail; each names the Python
      assertion or exception it stands for. */
  datatype Error =
    | WrongOffset          // macro start or chain reference outside the macro pages
    | WrongMacroOp         // an opcode that is not a MacroControl member
    | TruncatedMacro       // an index or unpack past the end of a macro page
    | OutOfFuel            // the model's bound on followed page chains ran out
    | WrongMacroControl    // a key operand with no Modifier/KeyCode name, or a bad operand size
    | UnknownKey           // a key name that is neither a Modifier nor a KeyCode
    | KeyAlreadyDown
    | KeyNotDown
    | KeysNotReleased
    | BadArgument          // missing number or a value struct.pack refuses
    | UnknownMacroOp       // a text op no branch of the parser accepts
    | InvalidReportRate
    | InvalidRgbMode
    | WrongRgbSize
    | MissingField         // a KeyError on the structured document
    | WrongButtonsSize
    | LayoutIndex          // an IndexError on the page layout
    | ByteRange            // a value bytearray refuses (outside 0..255)
    | ShortData            // struct.unpack on fewer bytes than the format needs
    | UnsupportedDevice
    | MemoryLayoutError    // a directory slot that breaks the page == slot convention
    | ChecksumMismatch
    | WrongPageSize
    | NoReply              // the transport gave nothing back
    | WrongProfileIndex
    | UnsupportedFeature
    | DeviceNotFound
    | WrongKeymap          // a keymap action the encoder does not know
    | PageIndex            // an index past the end of a macro page buffer
    | ZeroProfiles         // the layout planner divides by a profile count of zero
    | MissingPage          // `data[0]` of an empty list of pages to save
    | NoShortPort          // a read from the short port of a device that has none

  datatype Result<+T> = Ok(value: T) | Err(error: Error) {
    predicate IsFailure() { Err? }

    function PropagateFailure<U>(): Result<U>
      requires Err?
    {
      Err(error)
    }

    function Extract(): T
      requires Ok?
    {
      value
    }
  }

  /** `Need(c, e)` fails with `e` unless `c` holds; stands for a Python `assert`. */
  datatype Outcome = Pass | Fail(error: Error) {
    predicate IsFailure() { Fail? }

    function PropagateFailure<U>(): Result<U>
      requires Fail?
    {
      Err(error)
    }
  }

  function Need(condition: bool, error: Error): Outcome
  {
    if condition then Pass else Fail(error)
  }
}
