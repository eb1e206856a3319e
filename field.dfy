/** `Field`: decode the value stored under one key of a Hash. */
module Field {
  import Seqs
  import opened Values
  import opened Results
  import opened Failures
  import opened DecoderCore

  /** `value.key?(key)` and `value.fetch(key)`: nothing unless `v` is a Hash
      with a pair for the key, and then the value of the first such pair (see
      `Values.LookupAbsent` and `Values.LookupFound`). */
  function Fetch(v: Value, key: string): Option<Value>
  {
    if v.Hsh? then Lookup(v.pairs, Str(key)) else None
  }

  /** `Field#call`. Its own errors are Failures with an empty path: "expected
      a Hash, got: <inspect>" for a non-Hash and "expected a Hash with key <key>"
      for a missing key (the key is not pushed then). With the key present it
      is the sub-decoder's result on the stored value, with the key pushed
      onto a failing Failure; a bare String error cannot take `push` and
      raises NoMethodError. */
  function Call(key: string, inner: Decoder, v: Value): (o: Decoded)
    ensures !v.Hsh? ==> o == FailWith("expected a Hash, got: " + Inspect(v))
    ensures v.Hsh? && Fetch(v, key).None? ==> o == FailWith("expected a Hash with key " + key)
    ensures Succeeds(o) <==> Fetch(v, key).Some? && Succeeds(inner(Fetch(v, key).value))
    ensures Succeeds(o) ==> o == inner(Fetch(v, key).value)
    ensures Rejects(o) ==> ErrorOf(o).Fail?
    ensures Fetch(v, key).Some? && Rejects(inner(Fetch(v, key).value)) && ErrorOf(inner(Fetch(v, key).value)).Fail? ==>
      o == Returns(Err(Fail(ErrorOf(inner(Fetch(v, key).value)).failure.Push(Key(key)))))
    ensures o.Raises? <==>
      Fetch(v, key).Some? &&
      (inner(Fetch(v, key).value).Raises? ||
       (Rejects(inner(Fetch(v, key).value)) && ErrorOf(inner(Fetch(v, key).value)).Plain?))
    ensures Fetch(v, key).Some? && inner(Fetch(v, key).value).Raises? ==> o == inner(Fetch(v, key).value)
    ensures Fetch(v, key).Some? && Rejects(inner(Fetch(v, key).value)) && ErrorOf(inner(Fetch(v, key).value)).Plain? ==>
      o == Raises(NoMethodError("push", StringClass))
  {
    if v.Hsh? then
      match Lookup(v.pairs, Str(key))
      case Some(w) => Then(inner(w), r => PushSegment(r, Key(key)))
      case None => FailWith("expected a Hash with key " + key)
    else
      FailWith("expected a Hash, got: " + Inspect(v))
  }

  /** `Field.new(key, decoder)`: the key is converted with `String(key)` once,
      when the decoder is built. */
  function New(key: Value, inner: Decoder): (r: Decoder)
    ensures forall v :: r(v) == Call(ToStr(key), inner, v)
  {
    v => Call(ToStr(key), inner, v)
  }

  /** A failing sub-decoder's Failure renders with the key in front. */
  lemma FailureRendersKey(key: string, inner: Decoder, v: Value, f: Failure)
    requires Fetch(v, key).Some? && inner(Fetch(v, key).value) == Returns(Err(Fail(f)))
    ensures Rejects(Call(key, inner, v))
    ensures Render(ErrorOf(Call(key, inner, v))) ==
      "Error at ." + key + (if f.path == [] then "" else "." + Seqs.Join(Texts(Seqs.Reverse(f.path)), ".")) + ": " + f.msg
  {
    PushRendersFirst(f, Key(key));
  }
}
