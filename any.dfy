/** `Any`: try decoders in declaration order and keep the first success. The
    search is lazy, so once a decoder succeeds the later ones are not run. */
module Any {
  import opened Values
  import opened Results
  import opened DecoderCore

  /** The fixed error, a bare String; the sub-decoders' errors are dropped. */
  const NoneMatched: string := "None of the decoders matched"

  /** `Any#call`: the first result that is not an `Err` — a success, or an
      exception, which stops the search — and the fixed error when every
      decoder returns an `Err`. */
  function Call(ds: seq<Decoder>, v: Value): (o: Decoded)
    ensures (forall i :: 0 <= i < |ds| ==> Rejects(ds[i](v))) ==> o == PlainErr(NoneMatched)
    ensures Rejects(o) ==> o == PlainErr(NoneMatched)
    ensures !Rejects(o) ==>
      exists i :: 0 <= i < |ds| && o == ds[i](v) && forall j :: 0 <= j < i ==> Rejects(ds[j](v))
    ensures Succeeds(o) <==>
      exists i :: 0 <= i < |ds| && Succeeds(ds[i](v)) && forall j :: 0 <= j < i ==> Rejects(ds[j](v))
    ensures FirstNonReject(ds, v, o)
    decreases |ds|
  {
    if ds == [] then PlainErr(NoneMatched)
    else if !Rejects(ds[0](v)) then ds[0](v)
    else
      var o := Call(ds[1..], v);
      assert forall i :: 1 <= i < |ds| ==> ds[i] == ds[1..][i - 1];
      assert !Rejects(o) ==>
        exists i :: 0 <= i < |ds| && o == ds[i](v) && forall j :: 0 <= j < i ==> Rejects(ds[j](v)) by {
        if !Rejects(o) {
          var i :| 0 <= i < |ds[1..]| && o == ds[1..][i](v) && forall j :: 0 <= j < i ==> Rejects(ds[1..][j](v));
          assert o == ds[i + 1](v);
        }
      }
      FirstNonRejectInTail(ds, v, o);
      assert (exists i :: 0 <= i < |ds| && Succeeds(ds[i](v)) && forall j :: 0 <= j < i ==> Rejects(ds[j](v))) ==>
        Succeeds(o) by {
        if exists i :: 0 <= i < |ds| && Succeeds(ds[i](v)) && forall j :: 0 <= j < i ==> Rejects(ds[j](v)) {
          var i :| 0 <= i < |ds| && Succeeds(ds[i](v)) && forall j :: 0 <= j < i ==> Rejects(ds[j](v));
          assert i > 0;
          assert Succeeds(ds[1..][i - 1](v));
        }
      }
      o
  }

  /** `o` is the result of the first decoder in `ds` that does not reject. */
  ghost predicate FirstNonReject(ds: seq<Decoder>, v: Value, o: Decoded)
  {
    forall i :: 0 <= i < |ds| && !Rejects(ds[i](v)) && (forall j :: 0 <= j < i ==> Rejects(ds[j](v))) ==> o == ds[i](v)
  }

  /** When the first decoder rejects, the first decoder that does not reject
      is the first such decoder of the rest. */
  lemma FirstNonRejectInTail(ds: seq<Decoder>, v: Value, o: Decoded)
    requires |ds| >= 1 && Rejects(ds[0](v)) && FirstNonReject(ds[1..], v, o)
    ensures FirstNonReject(ds, v, o)
  {
    forall i | 0 <= i < |ds| && !Rejects(ds[i](v)) && (forall j :: 0 <= j < i ==> Rejects(ds[j](v)))
      ensures o == ds[i](v)
    {
      assert i > 0;
      assert forall j :: 0 <= j < i - 1 ==> Rejects(ds[1..][j](v));
      assert !Rejects(ds[1..][i - 1](v));
    }
  }

  /** `Any.new(decoder, *decoders)`: at least one decoder. */
  function New(ds: seq<Decoder>): (r: Decoder)
    requires |ds| >= 1
    ensures forall v :: r(v) == Call(ds, v)
  {
    v => Call(ds, v)
  }

  /** When no decoder raises, `Any` succeeds exactly when some decoder does. */
  lemma {:induction false} OkIffSomeOk(ds: seq<Decoder>, v: Value)
    requires forall i :: 0 <= i < |ds| ==> ds[i](v).Returns?
    ensures Succeeds(Call(ds, v)) <==> exists i :: 0 <= i < |ds| && Succeeds(ds[i](v))
  {
    if exists i :: 0 <= i < |ds| && Succeeds(ds[i](v)) {
      var i :| 0 <= i < |ds| && Succeeds(ds[i](v));
      var k := 0;
      while !Succeeds(ds[k](v))
        invariant 0 <= k <= i
        invariant forall j :: 0 <= j < k ==> Rejects(ds[j](v))
        decreases i - k
      {
        k := k + 1;
      }
      assert 0 <= k < |ds| && Succeeds(ds[k](v)) && forall j :: 0 <= j < k ==> Rejects(ds[j](v));
    }
  }

  /** A success of the first decoder decides, whatever the later decoders are. */
  lemma FirstSuccessDecides(d: Decoder, rest: seq<Decoder>, v: Value)
    requires Succeeds(d(v))
    ensures Call([d] + rest, v) == d(v)
  {
    assert ([d] + rest)[0] == d;
  }
}
