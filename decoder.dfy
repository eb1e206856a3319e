/** What every decoder shares: a decoder is a callable from an input value to
    a Result. The error inside an `Err` is either a bare String or a Failure,
    depending on the decoder that produced it, and since nothing in the
    decoders rescues a NoMethodError, calling `push` on a bare String raises
    out of the decoder. An `Outcome` records whether a call returned or raised. */
module DecoderCore {
  import opened Values
  import opened Results
  import opened Failures

  /** The error value inside an `Err`. */
  datatype Payload = Plain(text: string) | Fail(failure: Failure)

  /** `"#{e}"` / `e.to_s` */
  function Render(p: Payload): (s: string)
    ensures p.Plain? ==> s == p.text
    ensures p.Fail? ==> s == p.failure.ToS()
  {
    match p
    case Plain(t) => t
    case Fail(f) => f.ToS()
  }

  /** The exceptions that can leave a decoder: calling a method a receiver
      lacks, a `StandardError` raised by a caller-supplied block, and a
      constant that is not defined where it is looked up. */
  datatype Exception =
    | NoMethodError(name: string, receiver: RubyClass)
    | StandardError(message: string)
    | NameError(constant: string)

  /** `exception.message`, in Ruby 3.3's wording for NoMethodError and NameError:
      a block's own message unchanged, the missing constant's name, and the
      missing method's name followed by the receiver (its class for every
      receiver but `nil`, `true` and `false`). */
  function Message(e: Exception): (s: string)
    ensures e.StandardError? ==> s == e.message
    ensures e.NameError? ==> s == "uninitialized constant " + e.constant
    ensures e.NoMethodError? ==>
      |s| > 24 + |e.name| && s[..24 + |e.name|] == "undefined method `" + e.name + "' for "
    ensures e.NoMethodError? && e.receiver !in {NilClass, TrueClass, FalseClass} ==>
      s[|s| - |ClassName(e.receiver)|..] == ClassName(e.receiver)
  {
    match e
    case StandardError(m) => m
    case NameError(n) => "uninitialized constant " + n
    case NoMethodError(n, c) =>
      "undefined method `" + n + "' for " +
      (match c
       case NilClass => "nil"
       case TrueClass => "true"
       case FalseClass => "false"
       case _ => "an instance of " + ClassName(c))
  }

  /** A call either returns a value or raises an exception. */
  datatype Outcome<T> = Returns(value: T) | Raises(exception: Exception)

  type Decoded = Outcome<Result<Value, Payload>>

  /** A decoder: given any input value, a Result (or an exception). */
  type Decoder = Value -> Decoded

  /** The call returned `Ok`. */
  predicate Succeeds(o: Decoded)
  {
    o.Returns? && o.value.Ok?
  }

  /** The call returned `Err`. */
  predicate Rejects(o: Decoded)
  {
    o.Returns? && o.value.Err?
  }

  lemma Trichotomy(o: Decoded)
    ensures Succeeds(o) || Rejects(o) || o.Raises?
    ensures !(Succeeds(o) && Rejects(o))
  {
  }

  /** The error `o` returned. */
  function ErrorOf(o: Decoded): Payload
    requires Rejects(o)
  {
    o.value.error
  }

  /** `Err(failure(msg))` */
  function FailWith(msg: string): (o: Decoded)
    ensures Rejects(o) && ErrorOf(o) == Fail(Failures.New(msg))
  {
    Returns(Err(Fail(Failures.New(msg))))
  }

  /** `err(msg)`: an `Err` carrying a bare String. */
  function PlainErr(msg: string): (o: Decoded)
    ensures Rejects(o) && ErrorOf(o) == Plain(msg)
  {
    Returns(Err(Plain(msg)))
  }

  /** Run `k` on what `o` returned; an exception propagates. */
  function Then<T, U>(o: Outcome<T>, k: T -> Outcome<U>): (r: Outcome<U>)
    ensures o.Raises? ==> r == Raises(o.exception)
    ensures o.Returns? ==> r == k(o.value)
  {
    match o
    case Raises(e) => Raises(e)
    case Returns(x) => k(x)
  }

  /** Every outcome in `os` returned. */
  ghost predicate AllReturn<T>(os: seq<Outcome<T>>)
  {
    forall i :: 0 <= i < |os| ==> os[i].Returns?
  }

  /** `e` is the exception of the first outcome in `os` that raised. */
  ghost predicate FirstRaise<T>(os: seq<Outcome<T>>, e: Exception)
  {
    exists j :: 0 <= j < |os| && os[j] == Raises(e) && forall i :: 0 <= i < j ==> os[i].Returns?
  }

  /** An eager `map` whose block may raise: the list of what every call
      returned, or the first exception, which stops the traversal. */
  function Sequence<T>(os: seq<Outcome<T>>): (r: Outcome<seq<T>>)
    ensures r.Returns? <==> AllReturn(os)
    ensures r.Returns? ==> |r.value| == |os| && forall i :: 0 <= i < |os| ==> r.value[i] == os[i].value
    ensures r.Raises? ==> FirstRaise(os, r.exception)
    decreases |os|
  {
    if os == [] then Returns([])
    else if os[0].Raises? then Raises(os[0].exception)
    else
      var rest := Sequence(os[1..]);
      assert forall i :: 1 <= i < |os| ==> os[i] == os[1..][i - 1];
      match rest
      case Raises(e) =>
        assert FirstRaise(os, e) by {
          var j :| 0 <= j < |os[1..]| && os[1..][j] == Raises(e) && forall i :: 0 <= i < j ==> os[1..][i].Returns?;
          assert os[j + 1] == Raises(e);
        }
        Raises(e)
      case Returns(vs) => Returns([os[0].value] + vs)
  }

  /** `result.map_err { _1.push(segment) }`: a Failure gets the segment; a bare
      String has no `push`, so the call raises NoMethodError. */
  function PushSegment(r: Result<Value, Payload>, segment: Segment): (o: Decoded)
    ensures r.Ok? ==> o == Returns(r)
    ensures r.Err? && r.error.Fail? ==> o == Returns(Err(Fail(r.error.failure.Push(segment))))
    ensures r.Err? && r.error.Plain? ==> o == Raises(NoMethodError("push", StringClass))
  {
    match r
    case Ok(_) => Returns(r)
    case Err(Fail(f)) => Returns(Err(Fail(f.Push(segment))))
    case Err(Plain(_)) => Raises(NoMethodError("push", StringClass))
  }

  /** When the error is a Failure, `PushSegment` is exactly `map_err` of
      `push` on the Result. */
  lemma PushSegmentIsMapErr(r: Result<Value, Payload>, segment: Segment)
    requires r.Err? ==> r.error.Fail?
    ensures PushSegment(r, segment) ==
      Returns(r.MapErr((p: Payload) => if p.Fail? then Fail(p.failure.Push(segment)) else p))
  {
  }
}
