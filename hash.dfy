/** `Hash`: decode every key and every value of a Hash with two decoders and
    rebuild a Hash from the decoded pairs. */
module Hash {
  import Seqs
  import opened Values
  import opened Results
  import opened Failures
  import opened DecoderCore

  /** The outcome of decoding one key/value pair. */
  type PairDecoded = Outcome<Result<(Value, Value), Payload>>

  /** "error decoding key <inspect k>: <e>" */
  function KeyMessage(k: Value, e: Payload): string
  {
    "error decoding key " + Inspect(k) + ": " + Render(e)
  }

  /** "error decoding value for key <inspect k>: <e>" */
  function ValueMessage(k: Value, e: Payload): string
  {
    "error decoding value for key " + Inspect(k) + ": " + Render(e)
  }

  /** A key's failure text: the key's inspection after the prefix, and the key
      decoder's message kept whole at the end. */
  lemma KeyMessageShape(k: Value, e: Payload)
    ensures var s := KeyMessage(k, e);
      |s| == 19 + |Inspect(k)| + 2 + |Render(e)| &&
      s[..19] == "error decoding key " && s[19..19 + |Inspect(k)|] == Inspect(k) &&
      s[19 + |Inspect(k)|..] == ": " + Render(e)
  {
    var p, i, t := "error decoding key ", Inspect(k), ": " + Render(e);
    assert |p| == 19;
    assert KeyMessage(k, e) == p + i + t;
    Seqs.Concat3(p, i, t);
  }

  /** A value's failure text has the same shape under its own prefix. */
  lemma ValueMessageShape(k: Value, e: Payload)
    ensures var s := ValueMessage(k, e);
      |s| == 29 + |Inspect(k)| + 2 + |Render(e)| &&
      s[..29] == "error decoding value for key " && s[29..29 + |Inspect(k)|] == Inspect(k) &&
      s[29 + |Inspect(k)|..] == ": " + Render(e)
  {
    var p, i, t := "error decoding value for key ", Inspect(k), ": " + Render(e);
    assert |p| == 29;
    assert ValueMessage(k, e) == p + i + t;
    Seqs.Concat3(p, i, t);
  }

  /** A key's failure text is never a value's, whatever the keys and errors. */
  lemma KeyAndValueMessagesDiffer(k: Value, e: Payload, k2: Value, e2: Payload)
    ensures KeyMessage(k, e) != ValueMessage(k2, e2)
  {
    KeyMessageShape(k, e);
    ValueMessageShape(k2, e2);
    assert KeyMessage(k, e)[..19][15] == 'k' && ValueMessage(k2, e2)[..29][15] == 'v';
  }

  /** One pair: the key decoder runs, then the value decoder (both run even
      when the key fails), each error is wrapped in a Failure naming the
      original key, and `all([key, value])` keeps the key's error first (see
      `Results.AllOfTwo` for why `and` computes that `all`). */
  function Pair(kd: Decoder, vd: Decoder, p: (Value, Value)): (o: PairDecoded)
    ensures o.Raises? <==> kd(p.0).Raises? || (kd(p.0).Returns? && vd(p.1).Raises?)
    ensures o.Raises? ==> o.exception == if kd(p.0).Raises? then kd(p.0).exception else vd(p.1).exception
    ensures o.Returns? && o.value.Ok? <==> Succeeds(kd(p.0)) && Succeeds(vd(p.1))
    ensures o.Returns? && o.value.Ok? ==> o.value.value == (kd(p.0).value.value, vd(p.1).value.value)
    ensures Rejects(kd(p.0)) && vd(p.1).Returns? ==>
      o == Returns(Err(Fail(Failures.New(KeyMessage(p.0, ErrorOf(kd(p.0)))))))
    ensures Succeeds(kd(p.0)) && Rejects(vd(p.1)) ==>
      o == Returns(Err(Fail(Failures.New(ValueMessage(p.0, ErrorOf(vd(p.1)))))))
  {
    match kd(p.0)
    case Raises(e) => Raises(e)
    case Returns(kr) =>
      match vd(p.1)
      case Raises(e) => Raises(e)
      case Returns(vr) =>
        var kw := kr.MapErr((e: Payload) => Fail(Failures.New(KeyMessage(p.0, e))));
        var vw := vr.MapErr((e: Payload) => Fail(Failures.New(ValueMessage(p.0, e))));
        Returns(kw.And(vw, (a: Value, b: Value) => (a, b)))
  }

  /** `value.map do |k, v| ... end` */
  function Pairs(kd: Decoder, vd: Decoder, ps: seq<(Value, Value)>): (os: seq<PairDecoded>)
    ensures |os| == |ps| && forall i :: 0 <= i < |ps| ==> os[i] == Pair(kd, vd, ps[i])
  {
    seq(|ps|, i requires 0 <= i < |ps| => Pair(kd, vd, ps[i]))
  }

  /** `Hash#call`. A non-Hash gives the Failure "expected Hash, got <class>";
      otherwise the pairs are decoded in the Hash's order and, when all
      succeed, `to_h` rebuilds a Hash from them. */
  function Call(kd: Decoder, vd: Decoder, v: Value): (o: Decoded)
    ensures !v.Hsh? ==> o == FailWith("expected Hash, got " + ClassName(ClassOf(v)))
    ensures v == Hsh([]) ==> o == Returns(Ok(Hsh([])))
  {
    if v.Hsh? then
      Then(Sequence(Pairs(kd, vd, v.pairs)), rs => Returns(All(rs).Map(ToH)))
    else
      FailWith("expected Hash, got " + ClassName(ClassOf(v)))
  }

  /** `Hash.new(key_decoder, value_decoder)` */
  function New(kd: Decoder, vd: Decoder): (r: Decoder)
    ensures forall v :: r(v) == Call(kd, vd, v)
  {
    v => Call(kd, vd, v)
  }

  /** Every key and every value of `ps` decodes. */
  ghost predicate AllDecode(kd: Decoder, vd: Decoder, ps: seq<(Value, Value)>)
  {
    forall i :: 0 <= i < |ps| ==> Succeeds(kd(ps[i].0)) && Succeeds(vd(ps[i].1))
  }

  /** The decoded pairs, in the input's order. */
  function Decoded(kd: Decoder, vd: Decoder, ps: seq<(Value, Value)>): (qs: seq<(Value, Value)>)
    requires AllDecode(kd, vd, ps)
    ensures |qs| == |ps|
    ensures forall i :: 0 <= i < |ps| ==> qs[i] == (kd(ps[i].0).value.value, vd(ps[i].1).value.value)
  {
    seq(|ps|, i requires 0 <= i < |ps| => (kd(ps[i].0).value.value, vd(ps[i].1).value.value))
  }

  /** It raises exactly when some pair raises. */
  lemma RaisesIffSomePairRaises(kd: Decoder, vd: Decoder, ps: seq<(Value, Value)>)
    ensures Call(kd, vd, Hsh(ps)).Raises? <==>
      exists i :: 0 <= i < |ps| && (kd(ps[i].0).Raises? || (kd(ps[i].0).Returns? && vd(ps[i].1).Raises?))
  {
    var os := Pairs(kd, vd, ps);
    if Sequence(os).Raises? {
      var j :| 0 <= j < |os| && os[j] == Raises(Sequence(os).exception) && forall i :: 0 <= i < j ==> os[i].Returns?;
      assert os[j].Raises?;
    } else {
      assert AllReturn(os);
    }
  }

  /** Pair `p` raises: its key decoder raises, or the key returns and its
      value decoder raises. */
  ghost predicate PairRaises(kd: Decoder, vd: Decoder, p: (Value, Value))
  {
    kd(p.0).Raises? || (kd(p.0).Returns? && vd(p.1).Raises?)
  }

  /** When it raises, the exception is the first raising pair's: the key
      decoder's if that raised, else the value decoder's. */
  lemma FirstRaisingPair(kd: Decoder, vd: Decoder, ps: seq<(Value, Value)>, j: nat)
    requires j < |ps| && PairRaises(kd, vd, ps[j]) && forall i :: 0 <= i < j ==> !PairRaises(kd, vd, ps[i])
    ensures Call(kd, vd, Hsh(ps)) == Raises(if kd(ps[j].0).Raises? then kd(ps[j].0).exception else vd(ps[j].1).exception)
  {
    var os := Pairs(kd, vd, ps);
    assert os[j].Raises?;
    assert forall i :: 0 <= i < j ==> os[i].Returns?;
    var e := Sequence(os).exception;
    var k :| 0 <= k < |os| && os[k] == Raises(e) && forall i :: 0 <= i < k ==> os[i].Returns?;
    assert PairRaises(kd, vd, ps[k]);
    assert k == j;
  }

  /** It succeeds exactly when every key and value decodes, and then its value
      is `to_h` of the decoded pairs: each decoded key maps to the value of the
      last pair that decoded to it. */
  lemma SucceedsIffAllDecode(kd: Decoder, vd: Decoder, ps: seq<(Value, Value)>)
    ensures Succeeds(Call(kd, vd, Hsh(ps))) <==> AllDecode(kd, vd, ps)
    ensures AllDecode(kd, vd, ps) ==> Call(kd, vd, Hsh(ps)).value.value == ToH(Decoded(kd, vd, ps))
  {
    var os := Pairs(kd, vd, ps);
    if AllDecode(kd, vd, ps) {
      assert AllReturn(os);
      var rs := Sequence(os).value;
      assert forall i :: 0 <= i < |rs| ==> rs[i].Ok? && rs[i].value == Decoded(kd, vd, ps)[i];
      assert All(rs).value == Decoded(kd, vd, ps);
    }
  }

  /** The pair returned error `e`: neither decoder raised, and `e` is the
      key's Failure if the key failed, else the value's. */
  ghost predicate FailsWith(kd: Decoder, vd: Decoder, p: (Value, Value), e: Payload)
  {
    vd(p.1).Returns? &&
    ((Rejects(kd(p.0)) && e == Fail(Failures.New(KeyMessage(p.0, ErrorOf(kd(p.0)))))) ||
     (Succeeds(kd(p.0)) && Rejects(vd(p.1)) && e == Fail(Failures.New(ValueMessage(p.0, ErrorOf(vd(p.1)))))))
  }

  /** Within a pair a key error is reported before a value error. */
  lemma PairFailure(kd: Decoder, vd: Decoder, p: (Value, Value), e: Payload)
    requires Pair(kd, vd, p) == Returns(Err(e))
    ensures FailsWith(kd, vd, p, e)
    ensures e.Fail? && e.failure.path == []
  {
  }

  /** When it returns an error, that error is the one of the first failing
      pair in the Hash's order, and it has an empty path. */
  lemma FirstFailingPair(kd: Decoder, vd: Decoder, ps: seq<(Value, Value)>)
    requires Rejects(Call(kd, vd, Hsh(ps)))
    ensures ErrorOf(Call(kd, vd, Hsh(ps))).Fail? && ErrorOf(Call(kd, vd, Hsh(ps))).failure.path == []
    ensures exists j :: 0 <= j < |ps| && FailsWith(kd, vd, ps[j], ErrorOf(Call(kd, vd, Hsh(ps)))) &&
                        (forall i :: 0 <= i < j ==> Succeeds(kd(ps[i].0)) && Succeeds(vd(ps[i].1)))
  {
    var os := Pairs(kd, vd, ps);
    var rs := Sequence(os).value;
    var e := All(rs).error;
    assert ErrorOf(Call(kd, vd, Hsh(ps))) == e;
    var j :| 0 <= j < |rs| && rs[j] == Err(e) && forall i :: 0 <= i < j ==> rs[i].Ok?;
    assert os[j] == Returns(Err(e));
    PairFailure(kd, vd, ps[j], e);
    forall i | 0 <= i < j
      ensures Succeeds(kd(ps[i].0)) && Succeeds(vd(ps[i].1))
    {
      assert os[i].Returns? && os[i].value == rs[i];
    }
  }

  /** Decoders that return their input unchanged leave a Hash unchanged. */
  lemma IdentityKeepsHash(kd: Decoder, vd: Decoder, ps: seq<(Value, Value)>)
    requires forall w :: kd(w) == Returns(Ok(w)) && vd(w) == Returns(Ok(w))
    requires UniqueKeys(ps)
    ensures Call(kd, vd, Hsh(ps)) == Returns(Ok(Hsh(ps)))
  {
    SucceedsIffAllDecode(kd, vd, ps);
    assert Decoded(kd, vd, ps) == ps;
    ToHUnique(ps);
  }
}
