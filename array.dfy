/** `Array`: decode every element of an Array with one decoder. */
module Array {
  import opened Values
  import opened Results
  import opened Failures
  import opened DecoderCore

  /** The element decoded without raising, and any error it gave is a
      Failure (which can take `push`). */
  ghost predicate Clean(o: Decoded)
  {
    o.Returns? && (o.value.Err? ==> o.value.error.Fail?)
  }

  /** `@decoder.call(x).map_err { _1.push(i) }` for the element `x` at index `i`. */
  function Element(d: Decoder, x: Value, i: nat): (o: Decoded)
    ensures o.Raises? <==> !Clean(d(x))
    ensures Succeeds(o) <==> Succeeds(d(x))
    ensures Succeeds(o) ==> o == d(x)
    ensures Rejects(o) ==> Rejects(d(x)) && ErrorOf(o) == Fail(ErrorOf(d(x)).failure.Push(Pos(i)))
    ensures d(x).Raises? ==> o == d(x)
    ensures Rejects(d(x)) && ErrorOf(d(x)).Plain? ==> o == Raises(NoMethodError("push", StringClass))
  {
    Then(d(x), r => PushSegment(r, Pos(i)))
  }

  /** `value.each_with_index.map { ... }` before the exception check. */
  function Elements(d: Decoder, xs: seq<Value>): (os: seq<Decoded>)
    ensures |os| == |xs| && forall i :: 0 <= i < |xs| ==> os[i] == Element(d, xs[i], i)
  {
    seq(|xs|, i requires 0 <= i < |xs| => Element(d, xs[i], i))
  }

  /** `Array#call`. A non-Array gives the bare String "expected an Array, got:
      <class>". Otherwise every element is decoded and the results are
      collected with `all` (see the lemmas below for what that yields). */
  function Call(d: Decoder, v: Value): (o: Decoded)
    ensures !v.Arr? ==> o == PlainErr("expected an Array, got: " + ClassName(ClassOf(v)))
    ensures v == Arr([]) ==> o == Returns(Ok(Arr([])))
  {
    if v.Arr? then
      Then(Sequence(Elements(d, v.items)), rs => Returns(All(rs).Map(vs => Arr(vs))))
    else
      PlainErr("expected an Array, got: " + ClassName(ClassOf(v)))
  }

  /** The call raises exactly when some element raises or gives a bare String
      error, which has no `push`. */
  lemma RaisesIffUnclean(d: Decoder, xs: seq<Value>)
    ensures Call(d, Arr(xs)).Raises? <==> exists i :: 0 <= i < |xs| && !Clean(d(xs[i]))
  {
    var os := Elements(d, xs);
    if Sequence(os).Raises? {
      var j :| 0 <= j < |os| && os[j] == Raises(Sequence(os).exception) && forall i :: 0 <= i < j ==> os[i].Returns?;
      assert !Clean(d(xs[j]));
    } else if exists i :: 0 <= i < |xs| && !Clean(d(xs[i])) {
      var i :| 0 <= i < |xs| && !Clean(d(xs[i]));
      assert os[i].Raises?;
    }
  }

  /** When it raises, the exception is the first unclean element's: its own
      exception if it raised, else NoMethodError for `push` on its bare String
      error. */
  lemma FirstUncleanRaises(d: Decoder, xs: seq<Value>, j: nat)
    requires j < |xs| && !Clean(d(xs[j])) && forall i :: 0 <= i < j ==> Clean(d(xs[i]))
    ensures Call(d, Arr(xs)) == if d(xs[j]).Raises? then d(xs[j]) else Raises(NoMethodError("push", StringClass))
  {
    var os := Elements(d, xs);
    assert os[j].Raises?;
    assert forall i :: 0 <= i < j ==> os[i].Returns?;
    var e := Sequence(os).exception;
    var k :| 0 <= k < |os| && os[k] == Raises(e) && forall i :: 0 <= i < k ==> os[i].Returns?;
    assert !Clean(d(xs[k]));
    assert k == j;
  }

  /** It succeeds exactly when every element decodes, with the decoded
      elements in the same order. */
  lemma SucceedsIffAllDecode(d: Decoder, xs: seq<Value>)
    ensures Succeeds(Call(d, Arr(xs))) <==> forall i :: 0 <= i < |xs| ==> Succeeds(d(xs[i]))
    ensures Succeeds(Call(d, Arr(xs))) ==>
      var out := Call(d, Arr(xs)).value.value;
      out.Arr? && |out.items| == |xs| && forall i :: 0 <= i < |xs| ==> out.items[i] == d(xs[i]).value.value
  {
    var os := Elements(d, xs);
    if forall i :: 0 <= i < |xs| ==> Succeeds(d(xs[i])) {
      assert Sequence(os).Returns?;
      var rs := Sequence(os).value;
      assert forall i :: 0 <= i < |rs| ==> rs[i] == d(xs[i]).value;
    }
  }

  /** When it returns an error, no element raised, and the error is the first
      failing element's Failure with that element's index pushed. */
  lemma FirstFailurePushed(d: Decoder, xs: seq<Value>)
    requires Rejects(Call(d, Arr(xs)))
    ensures exists j :: 0 <= j < |xs| && Rejects(d(xs[j])) &&
                        ErrorOf(Call(d, Arr(xs))) == Fail(ErrorOf(d(xs[j])).failure.Push(Pos(j))) &&
                        forall i :: 0 <= i < j ==> Succeeds(d(xs[i]))
  {
    var os := Elements(d, xs);
    var rs := Sequence(os).value;
    var e := ErrorOf(Call(d, Arr(xs)));
    var j :| 0 <= j < |rs| && rs[j] == Err(e) && forall i :: 0 <= i < j ==> rs[i].Ok?;
    assert Rejects(os[j]);
    assert forall i :: 0 <= i < j ==> Succeeds(os[i]);
  }

  /** `Array.new(decoder)` */
  function New(d: Decoder): (r: Decoder)
    ensures forall v :: r(v) == Call(d, v)
  {
    v => Call(d, v)
  }
}
