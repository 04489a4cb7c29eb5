/**
 * The delegate types a listener may have: one per declared arity
 * (Messegers/Callback.cs). A signature stands for the runtime type of a
 * delegate, `Callback<T1, ..., Tn>`: the ordered list of its type arguments.
 */
module Callback {

  /** The name of one type argument of a delegate type. */
  type TypeTag = string

  /** Callback is declared for 0 to 5 parameters and for 7; there is no 6. */
  predicate IsDeclaredArity(n: nat)
  {
    n <= 5 || n == 7
  }

  /** A delegate type: its type arguments, in order. */
  type Signature = s: seq<TypeTag> | IsDeclaredArity(|s|) witness []
}
