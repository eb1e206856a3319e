/** `Index`: decode the element of an Array at one position. Every error it
    returns is a bare String, and a sub-decoder's error is rendered into that
    String rather than extended with a path segment. */
module Index {
  import opened Seqs
  import opened Values
  import opened Results
  import opened DecoderCore

  /** `Array#fetch` accepts `-n <= i < n`; a negative index counts from the end. */
  predicate InBounds(i: int, n: nat)
  {
    -(n as int) <= i < n
  }

  /** The element `xs.fetch(i)` returns: the index taken modulo the length. */
  function Fetch(xs: seq<Value>, i: int): (r: Value)
    requires InBounds(i, |xs|)
    ensures |xs| > 0 && r == xs[i % |xs|]
  {
    if i >= 0 then xs[i] else xs[|xs| + i]
  }

  /** A negative index reaches the element `|xs|` places further on. */
  lemma FetchFromEnd(xs: seq<Value>, i: int)
    requires 0 <= i < |xs|
    ensures InBounds(i - |xs|, |xs|) && Fetch(xs, i - |xs|) == xs[i]
  {
  }

  /** "error decoding array: " followed by the IndexError message of `fetch`,
      which names the index and the bounds `-n...n` in decimal. */
  function OutOfBounds(i: int, n: nat): (s: string)
    ensures exists a: string, b: string ::
      s == "error decoding array: index " + a + " outside of array bounds: -" + b + "..." + b &&
      IsInteger(a) && IntegerValue(a) == i && AllDigits(b) && DigitsValue(b) == n
  {
    "error decoding array: index " + Decimal(i) + " outside of array bounds: -" + DecimalNat(n) + "..." + DecimalNat(n)
  }

  /** "error decoding array item <i>: <e>": the index in decimal, then the
      sub-decoder's message kept whole. */
  function ItemError(i: int, e: Payload): (s: string)
    ensures exists a: string ::
      s == "error decoding array item " + a + ": " + Render(e) && IsInteger(a) && IntegerValue(a) == i
  {
    "error decoding array item " + Decimal(i) + ": " + Render(e)
  }

  /** `Index#call`. A non-Array and an index outside the array give bare
      String errors; otherwise the sub-decoder's result on the fetched element,
      with its error (a String or a Failure alike) rendered into
      "error decoding array item <i>: ...". An exception from the sub-decoder
      propagates. */
  function Call(i: int, d: Decoder, v: Value): (o: Decoded)
    ensures !v.Arr? ==> o == PlainErr("expected an Array, got: " + ClassName(ClassOf(v)))
    ensures v.Arr? && !InBounds(i, |v.items|) ==> o == PlainErr(OutOfBounds(i, |v.items|))
    ensures Succeeds(o) <==> v.Arr? && InBounds(i, |v.items|) && Succeeds(d(Fetch(v.items, i)))
    ensures Succeeds(o) ==> o == d(Fetch(v.items, i))
    ensures Rejects(o) ==> ErrorOf(o).Plain?
    ensures v.Arr? && InBounds(i, |v.items|) && Rejects(d(Fetch(v.items, i))) ==>
      o == PlainErr(ItemError(i, ErrorOf(d(Fetch(v.items, i)))))
    ensures o.Raises? <==> v.Arr? && InBounds(i, |v.items|) && d(Fetch(v.items, i)).Raises?
    ensures o.Raises? ==> o == d(Fetch(v.items, i))
  {
    if !v.Arr? then PlainErr("expected an Array, got: " + ClassName(ClassOf(v)))
    else if !InBounds(i, |v.items|) then PlainErr(OutOfBounds(i, |v.items|))
    else Then(d(Fetch(v.items, i)), (r: Result<Value, Payload>) => Returns(r.MapErr(e => Plain(ItemError(i, e)))))
  }

  /** `Index.new(index, decoder)`: the index is converted with `to_int` when
      the decoder is built. */
  function New(i: int, d: Decoder): (r: Decoder)
    ensures forall v :: r(v) == Call(i, d, v)
  {
    v => Call(i, d, v)
  }

  /** Counting from the end reaches the same element: the two indices succeed
      or raise together and decode to the same value. */
  lemma NegativeIndexAgrees(i: int, d: Decoder, xs: seq<Value>)
    requires 0 <= i < |xs|
    ensures Succeeds(Call(i - |xs|, d, Arr(xs))) <==> Succeeds(Call(i, d, Arr(xs)))
    ensures Succeeds(Call(i, d, Arr(xs))) ==> Call(i - |xs|, d, Arr(xs)) == Call(i, d, Arr(xs))
    ensures Call(i - |xs|, d, Arr(xs)).Raises? <==> Call(i, d, Arr(xs)).Raises?
  {
    FetchFromEnd(xs, i);
  }
}
