// Shared outcome types: what the exceptions of subs.py and tools.py become.

module Common {

  datatype Option<+T> = None | Some(value: T)

  /** Why a PrassError was raised (common.py:3). */
  datatype PrassReason =
    | UnsupportedKeyframes          // tools.py:15
    | UnsupportedTimecodes          // tools.py:88
    | InvalidAssScript              // subs.py:136 and subs.py:141
    | NegativeDuration(index: nat)  // subs.py:227, the offending event's position in the script

  /** A PrassError, or the built-in Python exception the source lets escape. */
  datatype Error =
    | Prass(reason: PrassReason)
    | ValueError         // int()/float() refused a string, or an unpacking got the wrong count
    | IndexError         // a list index past the end
    | ZeroDivisionError  // 1.0 / 0
    | RecursionError     // get_frame_time calling itself without end
    | AttributeError     // a method looked up on None
    | TypeError          // iterating over None

  datatype Result<+T> = Ok(value: T) | Err(error: Error) {
    predicate IsFailure() { Err? }
    function PropagateFailure<U>(): Result<U>
      requires Err?
    {
      Err(error)
    }
    function Extract(): T
      requires Ok?
    {
      value
    }
  }

  /** A call that returns nothing but may raise. */
  datatype Outcome = Pass | Fail(error: Error)

  /** Python's int() and float() on a string, which the model does not reimplement. */
  datatype NumberReaders = NumberReaders(readInt: string -> Option<int>, readFloat: string -> Option<real>)
}
