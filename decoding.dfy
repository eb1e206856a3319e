/** The entry point: run a decoder and turn its error into a String. */
module Decoding {
  import opened Values
  import opened Results
  import opened Failures
  import opened DecoderCore

  /** `decode(decoder, value)`: the decoder's Result with `to_s` applied to
      the error. An `Ok` passes through unchanged, a Failure becomes its
      rendering and a bare String stays as it is. An exception the decoder
      raises is not caught here. */
  function Decode(d: Decoder, v: Value): (o: Outcome<Result<Value, string>>)
    ensures d(v).Raises? <==> o.Raises?
    ensures d(v).Raises? ==> o.exception == d(v).exception
    ensures Succeeds(d(v)) ==> o == Returns(Ok(d(v).value.value))
    ensures Rejects(d(v)) ==> o == Returns(Err(Render(ErrorOf(d(v)))))
  {
    Then(d(v), (r: Result<Value, Payload>) => Returns(r.MapErr(Render)))
  }

  /** A Failure is rendered with its path. */
  lemma FailureIsRendered(d: Decoder, v: Value, f: Failure)
    requires d(v) == Returns(Err(Fail(f)))
    ensures Decode(d, v) == Returns(Err(f.ToS()))
  {
  }

  /** A bare String error keeps its text. */
  lemma PlainIsKept(d: Decoder, v: Value, s: string)
    requires d(v) == Returns(Err(Plain(s)))
    ensures Decode(d, v) == Returns(Err(s))
  {
  }

  /** `decode` succeeds exactly when the decoder does, with the same value. */
  lemma OkPassesThrough(d: Decoder, v: Value)
    ensures (Decode(d, v).Returns? && Decode(d, v).value.Ok?) <==> Succeeds(d(v))
    ensures Succeeds(d(v)) ==> Decode(d, v).value.value == d(v).value.value
  {
  }
}
