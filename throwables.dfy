/**
 * Java exceptions as values. Only the distinctions the engine's handlers
 * draw are kept: unchecked versus checked, and the wrappers the engine
 * itself creates (`new RuntimeException(e)` and reflection's
 * InvocationTargetException).
 */
module Throwables {

  datatype Throwable =
    | Unchecked(className: string)        // RuntimeException or one of its subclasses
    | Checked(className: string)          // an Exception that is not a RuntimeException
    | Error(className: string)            // java.lang.Error and its subclasses
    | Wrapped(cause: Throwable)           // new RuntimeException(cause)
    | InvocationTarget(target: Throwable) // InvocationTargetException from Method.invoke

  /** True of exactly the throwables a `catch (RuntimeException e)` catches. */
  predicate IsRuntimeException(t: Throwable) {
    t.Unchecked? || t.Wrapped?
  }

  const IOException := Checked("java.io.IOException")
  const SocketException := Checked("java.net.SocketException")
  const EOFException := Checked("java.io.EOFException")
  const ClassNotFoundException := Checked("java.lang.ClassNotFoundException")
  const IllegalArgumentException := Unchecked("java.lang.IllegalArgumentException")
  const IllegalAccessException := Checked("java.lang.IllegalAccessException")
  const NullPointerException := Unchecked("java.lang.NullPointerException")
  const ClassCastException := Unchecked("java.lang.ClassCastException")
  const IndexOutOfBoundsException := Unchecked("java.lang.IndexOutOfBoundsException")
  const ArrayIndexOutOfBoundsException := Unchecked("java.lang.ArrayIndexOutOfBoundsException")
  const NegativeArraySizeException := Unchecked("java.lang.NegativeArraySizeException")
  /** The message-only RuntimeExceptions Runtime.java throws for slot misuse. */
  const TwoRuntimesInOneThread := Unchecked("RuntimeException: attempt to set two runtimes in one thread")
  const NullRuntime := Unchecked("RuntimeException: Failed attempt to get null runtime")
  const ReplaceActiveRuntime := Unchecked("RuntimeException: attempt to replace active runtime")
}
