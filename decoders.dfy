/** The constructor functions every caller uses: class decoders built on
    `Match`, and the utility and compound decoders built from the others.
    `map`, `any`, `field`, `array`, `index` and `hash` hand their arguments to
    the `New` of the module of the same name unchanged; `and_then` names a
    constant that does not exist (see `AndThenAsWritten`). */
module Decoders {
  import opened Seqs
  import V = Values
  import R = Results
  import F = Failures
  import C = DecoderCore
  import Match
  import Map
  import Any
  import Pass
  import AtModule = At
  import AndThenModule = AndThen

  /** `d` is `Match.new(c)`: `Ok` of the input for members of `c`, and
      "expected <c>, got <class>" for the rest. */
  ghost predicate ClassDecoder(d: C.Decoder, c: V.RubyClass)
  {
    forall v ::
      (V.IsA(v, c) ==> d(v) == C.Returns(R.Ok(v))) &&
      (!V.IsA(v, c) ==> d(v) == C.FailWith("expected " + V.ClassName(c) + ", got " + V.ClassName(V.ClassOf(v))))
  }

  /** `Match.new(c)` for a class `c` */
  function ClassMatch(c: V.RubyClass): (d: C.Decoder)
    ensures ClassDecoder(d, c)
  {
    v => Match.Call(Match.ClassPattern(c), v)
  }

  /** `string` */
  function String(): (d: C.Decoder)
    ensures ClassDecoder(d, V.StringClass)
    ensures forall v :: C.Succeeds(d(v)) <==> v.Str?
  {
    ClassMatch(V.StringClass)
  }

  /** `regexp(re)`: the strings and symbols `re` accepts, which are returned as
      they are. */
  function Regexp(source: string, accepts: string -> bool): (d: C.Decoder)
    ensures forall v :: C.Succeeds(d(v)) <==> (v.Str? && accepts(v.s)) || (v.Sym? && accepts(v.name))
    ensures forall v :: C.Succeeds(d(v)) ==> d(v) == C.Returns(R.Ok(v))
  {
    v => Match.Call(Match.RegexpPattern(source, accepts), v)
  }

  /** `integer` */
  function Integer(): (d: C.Decoder)
    ensures ClassDecoder(d, V.IntegerClass)
    ensures forall v :: C.Succeeds(d(v)) <==> v.Int?
  {
    ClassMatch(V.IntegerClass)
  }

  /** `float` */
  function Float(): (d: C.Decoder)
    ensures ClassDecoder(d, V.FloatClass)
    ensures forall v :: C.Succeeds(d(v)) <==> v.Flt?
  {
    ClassMatch(V.FloatClass)
  }

  /** `numeric`: Integers and Floats alike. */
  function Numeric(): (d: C.Decoder)
    ensures ClassDecoder(d, V.NumericClass)
    ensures forall v :: C.Succeeds(d(v)) <==> v.Int? || v.Flt?
  {
    ClassMatch(V.NumericClass)
  }

  /** `nil` */
  function Nil(): (d: C.Decoder)
    ensures ClassDecoder(d, V.NilClass)
    ensures forall v :: C.Succeeds(d(v)) <==> v.Nil?
  {
    ClassMatch(V.NilClass)
  }

  /** `true` */
  function True(): (d: C.Decoder)
    ensures ClassDecoder(d, V.TrueClass)
    ensures forall v :: C.Succeeds(d(v)) <==> v.True?
  {
    ClassMatch(V.TrueClass)
  }

  /** `false` */
  function False(): (d: C.Decoder)
    ensures ClassDecoder(d, V.FalseClass)
    ensures forall v :: C.Succeeds(d(v)) <==> v.False?
  {
    ClassMatch(V.FalseClass)
  }

  /** `boolean = any(true, false)`: `true` and `false` decode to themselves,
      everything else gets the fixed `Any` error. */
  function Boolean(): (d: C.Decoder)
    ensures forall v :: d(v) == if v.True? || v.False? then C.Returns(R.Ok(v)) else C.PlainErr(Any.NoneMatched)
  {
    var ds := [True(), False()];
    assert forall v :: Any.Call(ds, v) == if v.True? || v.False? then C.Returns(R.Ok(v)) else C.PlainErr(Any.NoneMatched) by {
      forall v
        ensures Any.Call(ds, v) == if v.True? || v.False? then C.Returns(R.Ok(v)) else C.PlainErr(Any.NoneMatched)
      {
        assert ds[1..] == [False()];
        assert [False()][1..] == [];
      }
    }
    Any.New(ds)
  }

  /** `&:to_sym` as the block of `map`: `Symbol#to_proc` sends `to_sym` to
      the first value it receives, with the rest as arguments. With no value
      there is no receiver; a receiver without `to_sym` raises NoMethodError
      before any argument is looked at; a String or Symbol, whose `to_sym`
      takes no argument, raises ArgumentError when given one. */
  function ToSym(xs: seq<V.Value>): (o: C.Outcome<V.Value>)
    ensures |xs| == 0 ==> o == C.Raises(C.StandardError("no receiver given"))
    ensures |xs| >= 1 && !(xs[0].Str? || xs[0].Sym?) ==> o == C.Raises(C.NoMethodError("to_sym", V.ClassOf(xs[0])))
    ensures |xs| >= 2 && (xs[0].Str? || xs[0].Sym?) ==>
      o.Raises? && o.exception.StandardError? &&
      exists a: string :: o.exception.message == "wrong number of arguments (given " + a + ", expected 0)" &&
                          AllDigits(a) && DigitsValue(a) == |xs| - 1
    ensures |xs| == 1 && xs[0].Str? ==> o == C.Returns(V.Sym(xs[0].s))
    ensures |xs| == 1 && xs[0].Sym? ==> o == C.Returns(xs[0])
  {
    if |xs| == 0 then C.Raises(C.StandardError("no receiver given"))
    else
      match xs[0]
      case Str(s) => if |xs| == 1 then C.Returns(V.Sym(s)) else ArityError(|xs| - 1)
      case Sym(n) => if |xs| == 1 then C.Returns(V.Sym(n)) else ArityError(|xs| - 1)
      case other => C.Raises(C.NoMethodError("to_sym", V.ClassOf(other)))
  }

  /** ArgumentError for `given` arguments to a method that takes none. */
  function ArityError(given: nat): (o: C.Outcome<V.Value>)
    ensures o.Raises? && o.exception.StandardError? &&
      exists a: string :: o.exception.message == "wrong number of arguments (given " + a + ", expected 0)" &&
                          AllDigits(a) && DigitsValue(a) == given
  {
    var a := DecimalNat(given);
    C.Raises(C.StandardError("wrong number of arguments (given " + a + ", expected 0)"))
  }

  /** `symbol = map(string, &:to_sym)`: a String becomes the Symbol of the
      same name; anything else fails as `string` does. */
  function Symbol(): (d: C.Decoder)
    ensures forall v: V.Value :: v.Str? ==> d(v) == C.Returns(R.Ok(V.Sym(v.s)))
    ensures forall v: V.Value :: !v.Str? ==> d(v) == C.FailWith("expected String, got " + V.ClassName(V.ClassOf(v)))
  {
    var s := String();
    assert forall v :: (Map.Call([s], ToSym, v) ==
        if v.Str? then C.Returns(R.Ok(V.Sym(v.s))) else C.FailWith("expected String, got " + V.ClassName(V.ClassOf(v)))) by {
      forall v
        ensures Map.Call([s], ToSym, v) ==
          if v.Str? then C.Returns(R.Ok(V.Sym(v.s))) else C.FailWith("expected String, got " + V.ClassName(V.ClassOf(v)))
      {
        assert [s][0] == s;
        if v.Str? {
          assert Map.AllSucceed([s], v);
          assert Map.ValuesOf([s], v) == [v];
        } else {
          assert V.ClassOf(v) != V.StringClass && !V.IsA(v, V.StringClass);
          assert "expected " + V.ClassName(V.StringClass) + ", got " == "expected String, got ";
          assert s(v) == C.FailWith("expected String, got " + V.ClassName(V.ClassOf(v)));
          assert !Map.AllSucceed([s], v);
          assert forall i :: 0 <= i < |[s]| ==> [s][i](v).Returns?;
        }
      }
    }
    Map.New([s], ToSym)
  }

  /** `succeed(x)`: `Ok(x)` whatever the input. */
  function Succeed(x: V.Value): (d: C.Decoder)
    ensures forall v :: C.Succeeds(d(v)) && d(v).value.value == x
  {
    _ => C.Returns(R.Ok(x))
  }

  /** `fail(msg)`: `Err(Failure.new(msg))` whatever the input, rendering as
      `msg`. */
  function Fail(msg: string): (d: C.Decoder)
    ensures forall v :: C.Rejects(d(v)) && C.ErrorOf(d(v)) == C.Fail(F.Failure(msg, []))
    ensures forall v :: C.Render(C.ErrorOf(d(v))) == msg
  {
    _ => C.FailWith(msg)
  }

  /** `original`: the input itself. */
  function Original(): (d: C.Decoder)
    ensures forall v :: d(v) == C.Returns(R.Ok(v))
  {
    Pass.New()
  }

  /** `optional(d) = any(d, nil)`: the decoder's result unless it returns an
      error; then `nil` decodes to `nil` and anything else gets the fixed
      `Any` error. */
  function Optional(inner: C.Decoder): (d: C.Decoder)
    ensures forall v :: !C.Rejects(inner(v)) ==> d(v) == inner(v)
    ensures forall v :: C.Rejects(inner(v)) ==>
      d(v) == if v.Nil? then C.Returns(R.Ok(V.Nil)) else C.PlainErr(Any.NoneMatched)
  {
    var ds := [inner, Nil()];
    assert forall v :: C.Rejects(inner(v)) ==>
        Any.Call(ds, v) == if v.Nil? then C.Returns(R.Ok(V.Nil)) else C.PlainErr(Any.NoneMatched) by {
      forall v | C.Rejects(inner(v))
        ensures Any.Call(ds, v) == if v.Nil? then C.Returns(R.Ok(V.Nil)) else C.PlainErr(Any.NoneMatched)
      {
        assert ds[1..] == [Nil()];
        assert [Nil()][1..] == [];
      }
    }
    Any.New(ds)
  }

  /** The keys of a Ruby Hash literal are distinct. */
  ghost predicate DistinctKeys(entries: seq<(V.Value, C.Decoder)>)
  {
    forall i, j :: 0 <= i < j < |entries| ==> entries[i].0 != entries[j].0
  }

  /** `keys.zip(values)`: pairs by position, `nil` where `values` runs out. */
  function Zip(ks: seq<V.Value>, vs: seq<V.Value>): (ps: seq<(V.Value, V.Value)>)
    ensures |ps| == |ks|
    ensures forall i :: 0 <= i < |ks| ==> ps[i].0 == ks[i]
    ensures |vs| == |ks| ==> forall i :: 0 <= i < |ks| ==> ps[i].1 == vs[i]
  {
    seq(|ks|, i requires 0 <= i < |ks| => (ks[i], if i < |vs| then vs[i] else V.Nil))
  }

  /** The block of `decode_hash`: `keys.zip(values).to_h`. It never raises,
      so the `rescue` of `map` never fires for it, and it always builds a Hash
      with distinct keys. */
  function Assemble(ks: seq<V.Value>): (t: Map.Transform)
    ensures forall vs :: t(vs).Returns? && t(vs).value.Hsh? && V.UniqueKeys(t(vs).value.pairs)
  {
    vs => C.Returns(V.ToH(Zip(ks, vs)))
  }

  function KeysOf(entries: seq<(V.Value, C.Decoder)>): (ks: seq<V.Value>)
    ensures |ks| == |entries| && forall i :: 0 <= i < |entries| ==> ks[i] == entries[i].0
  {
    seq(|entries|, i requires 0 <= i < |entries| => entries[i].0)
  }

  function DecodersOf(entries: seq<(V.Value, C.Decoder)>): (ds: seq<C.Decoder>)
    ensures |ds| == |entries| && forall i :: 0 <= i < |entries| ==> ds[i] == entries[i].1
  {
    seq(|entries|, i requires 0 <= i < |entries| => entries[i].1)
  }

  /** Every entry's decoder succeeds on `v`. */
  ghost predicate AllEntriesDecode(entries: seq<(V.Value, C.Decoder)>, v: V.Value)
  {
    forall i :: 0 <= i < |entries| ==> C.Succeeds(entries[i].1(v))
  }

  /** The Hash of each key with its decoder's value on `v`, in the given order. */
  function Entries(entries: seq<(V.Value, C.Decoder)>, v: V.Value): (h: V.Value)
    requires AllEntriesDecode(entries, v)
    ensures h.Hsh? && |h.pairs| == |entries|
    ensures forall i :: 0 <= i < |entries| ==> h.pairs[i] == (entries[i].0, entries[i].1(v).value.value)
  {
    V.Hsh(seq(|entries|, i requires 0 <= i < |entries| => (entries[i].0, entries[i].1(v).value.value)))
  }

  /** What `decode_hash` gives on input `v`: it never raises; it succeeds
      exactly when every entry's decoder does, with the Hash of the entries;
      when the decoders all return but one fails, the first failing one's
      error is returned unchanged; when one raises before any failure, the
      exception is rescued as `map` does. */
  ghost predicate DecodesAsHash(entries: seq<(V.Value, C.Decoder)>, v: V.Value, o: C.Decoded)
  {
    o.Returns? &&
    (C.Succeeds(o) <==> AllEntriesDecode(entries, v)) &&
    (AllEntriesDecode(entries, v) ==> o == C.Returns(R.Ok(Entries(entries, v)))) &&
    ((forall i :: 0 <= i < |entries| ==> entries[i].1(v).Returns?) && !AllEntriesDecode(entries, v) ==>
      exists j :: 0 <= j < |entries| && C.Rejects(entries[j].1(v)) && o == entries[j].1(v) &&
                  forall i :: 0 <= i < j ==> C.Succeeds(entries[i].1(v))) &&
    (forall j :: (0 <= j < |entries| && entries[j].1(v).Raises? &&
                  (forall i :: 0 <= i < j ==> entries[i].1(v).Returns?)) ==>
      o == Map.Rescue(entries[j].1(v).exception))
  }

  /** `map` over the entries' decoders with the zipping block decodes as a Hash. */
  lemma DecodeHashAt(entries: seq<(V.Value, C.Decoder)>, v: V.Value)
    requires DistinctKeys(entries)
    ensures DecodesAsHash(entries, v, Map.Call(DecodersOf(entries), Assemble(KeysOf(entries)), v))
  {
    var ds := DecodersOf(entries);
    var o := Map.Call(ds, Assemble(KeysOf(entries)), v);
    assert Map.AllSucceed(ds, v) <==> AllEntriesDecode(entries, v);
    if AllEntriesDecode(entries, v) {
      var ps := Zip(KeysOf(entries), Map.ValuesOf(ds, v));
      assert ps == Entries(entries, v).pairs;
      V.ToHUnique(ps);
    }
  }

  /** `decode_hash({k1 => d1, ...})`: at least one entry (`map` needs a
      decoder). It never raises. It succeeds when every decoder does, with the
      Hash pairing each key with its decoded value, in the given order; it
      otherwise returns the error of the first decoder that fails, unchanged. */
  function DecodeHash(entries: seq<(V.Value, C.Decoder)>): (d: C.Decoder)
    requires |entries| >= 1 && DistinctKeys(entries)
    ensures forall v :: d(v).Returns?
    ensures forall v :: C.Succeeds(d(v)) <==> AllEntriesDecode(entries, v)
    ensures forall v :: AllEntriesDecode(entries, v) ==> d(v) == C.Returns(R.Ok(Entries(entries, v)))
    ensures forall v: V.Value ::
      ((forall i :: 0 <= i < |entries| ==> entries[i].1(v).Returns?) && !AllEntriesDecode(entries, v)) ==>
      exists j :: 0 <= j < |entries| && C.Rejects(entries[j].1(v)) && d(v) == entries[j].1(v) &&
                  forall i :: 0 <= i < j ==> C.Succeeds(entries[i].1(v))
    ensures forall v: V.Value, j ::
      (0 <= j < |entries| && entries[j].1(v).Raises? && (forall i :: 0 <= i < j ==> entries[i].1(v).Returns?)) ==>
      d(v) == Map.Rescue(entries[j].1(v).exception)
  {
    assert forall v :: DecodesAsHash(entries, v, Map.Call(DecodersOf(entries), Assemble(KeysOf(entries)), v)) by {
      forall v
        ensures DecodesAsHash(entries, v, Map.Call(DecodersOf(entries), Assemble(KeysOf(entries)), v))
      {
        DecodeHashAt(entries, v);
      }
    }
    Map.New(DecodersOf(entries), Assemble(KeysOf(entries)))
  }

  /** `and_then(...)` as written: it builds `Decoders::AndThen`, a constant
      looked up in `Decoding::Decoders`, where no class of that name is
      defined (the class is `Decoding::AndThen`), so the call raises NameError
      before any decoder exists, whatever its arguments. */
  function AndThenAsWritten(d: C.Decoder, k: AndThenModule.Continuation): (o: C.Outcome<C.Decoder>)
    ensures o.Raises? && o.exception == C.NameError("Decoding::Decoders::AndThen")
  {
    C.Raises(C.NameError("Decoding::Decoders::AndThen"))
  }

  /** `and_then(decoder) { ... }` as intended, building `Decoding::AndThen`:
      the decoder `AndThen.Call` describes, on every input. */
  function AndThen(d: C.Decoder, k: AndThenModule.Continuation): (r: C.Decoder)
    ensures forall v :: !C.Succeeds(d(v)) ==> r(v) == d(v)
    ensures forall v :: C.Succeeds(d(v)) ==> r(v) == k(d(v).value.value)(v)
  {
    AndThenModule.New(d, k)
  }

  /** `at(*keys, decoder)`: with at least one key, the chain of Fields. */
  function At(keys: seq<V.Value>, inner: C.Decoder): (d: C.Decoder)
    ensures |keys| >= 1 ==> forall v :: d(v) == AtModule.Nested(keys, inner, v)
  {
    AtModule.New(keys, inner)
  }
}
