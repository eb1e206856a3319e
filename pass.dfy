/** `Pass`: the decoder that returns its input as it is. */
module Pass {
  import opened Values
  import opened Results
  import opened DecoderCore

  /** `Pass#call`: `Ok` of the input, containers included, for every input. */
  function Call(v: Value): (o: Decoded)
    ensures Succeeds(o) && o.value.value == v
    ensures !Rejects(o) && !o.Raises?
  {
    Returns(Ok(v))
  }

  /** `Pass.new` */
  function New(): (r: Decoder)
    ensures forall v :: r(v) == Call(v)
  {
    v => Call(v)
  }
}
