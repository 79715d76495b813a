/** Types shared by the chat page and its input bar. */
module Common {

  datatype Option<T> = None | Some(value: T)

  /** A browser `File`; only its name is used. */
  datatype File = File(name: string)

  /** A toast notification, by kind: `toast.info`, `toast.success`, `toast.error`. */
  datatype Notice = Info(text: string) | Success(text: string) | Failure(text: string)

  /** Concatenation regrouped; called where the solver needs the instance. */
  lemma AppendAssoc<T>(a: seq<T>, b: seq<T>, c: seq<T>)
    ensures a + b + c == a + (b + c)
  {
  }
}
