/** `Map`: run one or more decoders on the same input and, when all succeed,
    apply a transform to their values. Any exception raised while doing so —
    by a sub-decoder or by the transform — is rescued into an `Err`. */
module Map {
  import opened Values
  import opened Results
  import opened Failures
  import opened DecoderCore

  /** The caller's block: it receives the decoded values (splatted in Ruby)
      and returns a value or raises. */
  type Transform = seq<Value> -> Outcome<Value>

  /** `@decoders.map { _1.call(value) }` */
  function Apply(ds: seq<Decoder>, v: Value): (os: seq<Decoded>)
    ensures |os| == |ds| && forall i :: 0 <= i < |ds| ==> os[i] == ds[i](v)
  {
    seq(|ds|, i requires 0 <= i < |ds| => ds[i](v))
  }

  /** Every decoder in `ds` succeeds on `v`. */
  ghost predicate AllSucceed(ds: seq<Decoder>, v: Value)
  {
    forall i :: 0 <= i < |ds| ==> Succeeds(ds[i](v))
  }

  /** The values the decoders produced, in declaration order. */
  function ValuesOf(ds: seq<Decoder>, v: Value): (vs: seq<Value>)
    requires AllSucceed(ds, v)
    ensures |vs| == |ds| && forall i :: 0 <= i < |ds| ==> vs[i] == ds[i](v).value.value
  {
    seq(|ds|, i requires 0 <= i < |ds| => ds[i](v).value.value)
  }

  /** `rescue StandardError => e; err(failure("error in map block: ..."))` */
  function Rescue(e: Exception): (o: Decoded)
    ensures Rejects(o) && ErrorOf(o) == Fail(Failure("error in map block: " + Message(e), []))
  {
    FailWith("error in map block: " + Message(e))
  }

  /** `Map#call`. It never raises. It succeeds exactly when every decoder
      succeeds and the transform returns, with the transform's value of the
      decoded values in order; otherwise, short of an exception, it returns the
      first failing decoder's result unchanged (the transform is not called).
      The first exception raised is turned into "error in map block: ...". */
  function Call(ds: seq<Decoder>, f: Transform, v: Value): (o: Decoded)
    ensures o.Returns?
    ensures Succeeds(o) <==> AllSucceed(ds, v) && f(ValuesOf(ds, v)).Returns?
    ensures Succeeds(o) ==> o.value.value == f(ValuesOf(ds, v)).value
    ensures AllSucceed(ds, v) && f(ValuesOf(ds, v)).Raises? ==> o == Rescue(f(ValuesOf(ds, v)).exception)
    ensures (forall i :: 0 <= i < |ds| ==> ds[i](v).Returns?) && !AllSucceed(ds, v) ==>
      exists j :: 0 <= j < |ds| && Rejects(ds[j](v)) && o == ds[j](v) &&
                  forall i :: 0 <= i < j ==> Succeeds(ds[i](v))
    ensures forall j :: 0 <= j < |ds| && ds[j](v).Raises? && (forall i :: 0 <= i < j ==> ds[i](v).Returns?) ==>
      o == Rescue(ds[j](v).exception)
  {
    var outs := Apply(ds, v);
    match Sequence(outs)
    case Raises(e) =>
      assert forall j :: 0 <= j < |ds| && ds[j](v).Raises? && (forall i :: 0 <= i < j ==> ds[i](v).Returns?) ==>
        ds[j](v).exception == e;
      Rescue(e)
    case Returns(rs) =>
      match All(rs)
      case Err(e) =>
        assert Rejects(Returns(Err(e)));
        Returns(Err(e))
      case Ok(vs) =>
        assert vs == ValuesOf(ds, v);
        match f(vs)
        case Returns(x) => Returns(Ok(x))
        case Raises(e) => Rescue(e)
  }

  /** `Map.new(decoder, *decoders) { ... }`: at least one decoder. */
  function New(ds: seq<Decoder>, f: Transform): (r: Decoder)
    requires |ds| >= 1
    ensures forall v :: r(v) == Call(ds, f, v)
  {
    v => Call(ds, f, v)
  }

  /** With a single decoder and a transform that does not raise, `Map` is
      `map` on the decoder's Result. */
  lemma SingleIsResultMap(d: Decoder, f: Value -> Value, v: Value)
    requires d(v).Returns?
    ensures Call([d], xs => Returns(if |xs| == 1 then f(xs[0]) else Nil), v) == Returns(d(v).value.Map(f))
  {
    var g: Transform := xs => Returns(if |xs| == 1 then f(xs[0]) else Nil);
    if Succeeds(d(v)) {
      assert AllSucceed([d], v);
      assert ValuesOf([d], v) == [d(v).value.value];
    } else {
      assert [d][0] == d;
    }
  }
}
