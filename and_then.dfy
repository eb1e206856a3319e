/** `AndThen`: choose the next decoder from a decoded value, and run it on the
    same input the first decoder saw. */
module AndThen {
  import opened Values
  import opened Results
  import opened DecoderCore

  /** The caller's block: from a decoded value, the decoder to run next. */
  type Continuation = Value -> Decoder

  /** `AndThen#call`: when the first decoder succeeds with `x`, the decoder
      `k(x)` runs on the original input and its result is returned as it is;
      an error of the first decoder is returned unchanged. Nothing is rescued. */
  function Call(d: Decoder, k: Continuation, v: Value): (o: Decoded)
    ensures !Succeeds(d(v)) ==> o == d(v)
    ensures Succeeds(d(v)) ==> o == k(d(v).value.value)(v)
  {
    Then(d(v), (r: Result<Value, Payload>) =>
      match r
      case Ok(x) => k(x)(v)
      case Err(e) => Returns(Err(e)))
  }

  /** `AndThen.new(decoder) { ... }` */
  function New(d: Decoder, k: Continuation): (r: Decoder)
    ensures forall v :: r(v) == Call(d, k, v)
  {
    v => Call(d, k, v)
  }

  /** When the first decoder returns, the call is `and_then` on its Result
      with the block's decoder applied to the original input. */
  lemma IsResultAndThen(d: Decoder, k: Continuation, v: Value)
    requires d(v).Returns? && forall x :: k(x)(v).Returns?
    ensures Call(d, k, v) == Returns(d(v).value.AndThen(x => k(x)(v).value))
  {
  }

  /** A decoder that always succeeds with `x`, followed by `k`, is `k(x)`. */
  lemma LeftIdentity(x: Value, k: Continuation, v: Value)
    ensures Call(_ => Returns(Ok(x)), k, v) == k(x)(v)
  {
  }

  /** Following a decoder by the decoder that always succeeds with the value
      just decoded changes nothing. */
  lemma RightIdentity(d: Decoder, v: Value)
    ensures Call(d, x => (_ => Returns(Ok(x))), v) == d(v)
  {
  }

  /** Chained continuations can be regrouped. */
  lemma Associative(d: Decoder, k1: Continuation, k2: Continuation, v: Value)
    ensures Call(New(d, k1), k2, v) == Call(d, x => New(k1(x), k2), v)
  {
  }
}
