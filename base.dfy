/** Types shared by every module of the model. */
module Base {

  /** Row identities. The persistence layer generates them; the model draws them from a counter. */
  type Id = nat

  /** An 8-bit value, as produced by the random-byte source. */
  newtype byte = x: int | 0 <= x < 256

  datatype Option<+T> = None | Some(value: T)

  /** What a server action hands back to the page: a success payload or the error text it shows. */
  datatype Reply<+T> = Ok(value: T) | Err(message: string)

  /** The caller's decoded session cookie. */
  datatype Session = Session(userId: Id, role: string)

  /** A non-empty sequence is its head followed by its tail. */
  lemma HeadTail<T>(s: seq<T>)
    requires |s| > 0
    ensures s == [s[0]] + s[1..]
  {
  }
}
