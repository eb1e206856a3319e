/** `At`: decode a value found by following several keys through nested
    Hashes. The decoder is a chain of `Field` decoders built on every call. */
module At {
  import opened Seqs
  import opened Values
  import opened Results
  import opened Failures
  import opened DecoderCore
  import Field

  /** `rest.reduce(acc) { |acc, k| Field.new(k, acc) }`: each key wraps the
      chain built so far, so the last key ends up outermost and the fold
      builds the nested chain of the keys in reverse. */
  function Chain(ks: seq<Value>, acc: Decoder): (r: Decoder)
    ensures forall v :: r(v) == Nested(Reverse(ks), acc, v)
    decreases ks
  {
    if ks == [] then acc
    else
      var r := Chain(ks[1..], Field.New(ks[0], acc));
      assert forall v :: r(v) == Nested(Reverse(ks), acc, v) by {
        forall v
          ensures r(v) == Nested(Reverse(ks), acc, v)
        {
          NestedSnoc(Reverse(ks[1..]), ks[0], acc, v);
        }
      }
      r
  }

  /** The reference definition: `Field(k1, Field(k2, ... Field(kn, d)))`
      applied to `v`. */
  function Nested(keys: seq<Value>, d: Decoder, v: Value): Decoded
    decreases |keys|
  {
    if keys == [] then d(v)
    else Field.Call(ToStr(keys[0]), w => Nested(keys[1..], d, w), v)
  }

  /** `Field#call` looks at its sub-decoder only through the results it gives. */
  lemma FieldCongruent(key: string, i1: Decoder, i2: Decoder, v: Value)
    requires forall w :: i1(w) == i2(w)
    ensures Field.Call(key, i1, v) == Field.Call(key, i2, v)
  {
  }

  /** Adding a key at the inner end is wrapping the leaf decoder in a Field. */
  lemma {:induction false} NestedSnoc(ks: seq<Value>, k: Value, d: Decoder, v: Value)
    ensures Nested(ks + [k], d, v) == Nested(ks, Field.New(k, d), v)
    decreases |ks|
  {
    if ks == [] {
      assert [k][1..] == [];
      FieldCongruent(ToStr(k), w => Nested([], d, w), d, v);
    } else {
      assert (ks + [k])[0] == ks[0];
      assert (ks + [k])[1..] == ks[1..] + [k];
      forall w
        ensures Nested(ks[1..] + [k], d, w) == Nested(ks[1..], Field.New(k, d), w)
      {
        NestedSnoc(ks[1..], k, d, w);
      }
      FieldCongruent(ToStr(ks[0]), w => Nested(ks[1..] + [k], d, w), w => Nested(ks[1..], Field.New(k, d), w), v);
    }
  }

  /** `At#call`: with keys `k1 ... kn` it decodes exactly as
      `Field(k1, Field(k2, ... Field(kn, d)))`. Without keys `first` is `nil`,
      which `String(nil)` turns into the key "". */
  function Call(keys: seq<Value>, d: Decoder, v: Value): (o: Decoded)
    ensures |keys| >= 1 ==> o == Nested(keys, d, v)
    ensures keys == [] ==> o == Field.Call("", d, v)
  {
    var rev := Reverse(keys);
    var first := if rev == [] then Nil else rev[0];
    var rest := if rev == [] then [] else rev[1..];
    if rev == [] then Chain(rest, Field.New(first, d))(v)
    else
      FoldedChainIsNested(keys, d, v);
      Chain(rest, Field.New(first, d))(v)
  }

  /** The chain `At#call` builds from the reversed keys is the nested chain. */
  lemma FoldedChainIsNested(keys: seq<Value>, d: Decoder, v: Value)
    requires |keys| >= 1
    ensures Chain(Reverse(keys)[1..], Field.New(Reverse(keys)[0], d))(v) == Nested(keys, d, v)
  {
    var rev := Reverse(keys);
    NestedSnoc(Reverse(rev[1..]), rev[0], d, v);
    ReverseReverse(keys);
    assert Reverse(rev) == Reverse(rev[1..]) + [rev[0]];
  }

  /** `At.new(*keys, decoder)` */
  function New(keys: seq<Value>, d: Decoder): (r: Decoder)
    ensures forall v :: r(v) == Call(keys, d, v)
  {
    v => Call(keys, d, v)
  }

  /** With a single key, `At` is `Field`. */
  lemma SingleKeyIsField(k: Value, d: Decoder, v: Value)
    ensures Call([k], d, v) == Field.New(k, d)(v)
  {
    FieldCongruent(ToStr(k), w => Nested([], d, w), d, v);
  }

  /** A top-level input that is not a Hash fails at the outermost Field. */
  lemma NotAHash(keys: seq<Value>, d: Decoder, v: Value)
    requires |keys| >= 1 && !v.Hsh?
    ensures Call(keys, d, v) == FailWith("expected a Hash, got: " + Inspect(v))
  {
  }

  /** The value reached by following `keys` through nested Hashes. */
  function Dig(v: Value, keys: seq<Value>): Option<Value>
    decreases |keys|
  {
    if keys == [] then Some(v)
    else
      match Field.Fetch(v, ToStr(keys[0]))
      case Some(w) => Dig(w, keys[1..])
      case None => None
  }

  /** The segments the Fields push, outermost first. */
  function KeyPath(keys: seq<Value>): (p: seq<Segment>)
    ensures |p| == |keys| && forall i :: 0 <= i < |keys| ==> p[i] == Key(ToStr(keys[i]))
  {
    seq(|keys|, i requires 0 <= i < |keys| => Key(ToStr(keys[i])))
  }

  /** How an outer result relates to the inner result it was computed from
      when the segments `pushed` were pushed on the way out: a success or an
      exception passes through, a Failure gains the segments, and (when
      `pushing` holds) a bare String error turns into NoMethodError. */
  ghost predicate Lifted(outer: Decoded, inner: Decoded, pushed: seq<Segment>, pushing: bool)
  {
    (Succeeds(inner) || inner.Raises? ==> outer == inner) &&
    (Rejects(inner) && ErrorOf(inner).Fail? ==>
      outer == Returns(Err(Fail(Failure(ErrorOf(inner).failure.msg, ErrorOf(inner).failure.path + pushed))))) &&
    (pushing && Rejects(inner) && ErrorOf(inner).Plain? ==> outer == Raises(NoMethodError("push", StringClass)))
  }

  /** One Field over a present key. */
  lemma FieldLifts(key: string, inner: Decoder, v: Value, w: Value)
    requires Field.Fetch(v, key) == Some(w)
    ensures Lifted(Field.Call(key, inner, v), inner(w), [Key(key)], true)
  {
  }

  /** Two liftings compose, the inner segments first. */
  lemma LiftedCompose(a: Decoded, b: Decoded, c: Decoded, p: seq<Segment>, q: seq<Segment>, x: bool)
    requires Lifted(a, b, p, x) && Lifted(b, c, q, true)
    ensures Lifted(a, c, q + p, true)
  {
    if Rejects(c) && ErrorOf(c).Fail? {
      var f := ErrorOf(c).failure;
      assert (f.path + q) + p == f.path + (q + p);
    }
  }

  /** The pushed path of a prefix, split at its first key. */
  lemma KeyPathStep(keys: seq<Value>, j: nat)
    requires 1 <= j <= |keys|
    ensures Reverse(KeyPath(keys[..j])) == Reverse(KeyPath(keys[1..][..j - 1])) + [Key(ToStr(keys[0]))]
  {
    assert KeyPath(keys[..j]) == [Key(ToStr(keys[0]))] + KeyPath(keys[1..][..j - 1]);
    assert KeyPath(keys[..j])[1..] == KeyPath(keys[1..][..j - 1]);
  }

  /** Following a prefix, split at its first key. */
  lemma DigStep(keys: seq<Value>, j: nat, v: Value)
    requires 1 <= j <= |keys| && Dig(v, keys[..j]).Some?
    ensures Field.Fetch(v, ToStr(keys[0])).Some?
    ensures Dig(v, keys[..j]) == Dig(Field.Fetch(v, ToStr(keys[0])).value, keys[1..][..j - 1])
    ensures keys[1..][j - 1..] == keys[j..]
  {
    assert keys[..j][0] == keys[0] && keys[..j][1..] == keys[1..][..j - 1];
  }

  /** The pushed path is empty before any key is followed. */
  lemma LiftedByNothing(o: Decoded)
    ensures Lifted(o, o, [], false)
  {
    if Rejects(o) && ErrorOf(o).Fail? {
      var f := ErrorOf(o).failure;
      assert f.path + [] == f.path;
    }
  }

  /** Once the first `j` keys have been followed, the rest of the chain
      decides: the result is its result lifted by the first `j` keys, pushed
      innermost first. */
  lemma {:induction false} NestedPrefix(keys: seq<Value>, j: nat, d: Decoder, v: Value)
    requires j <= |keys| && Dig(v, keys[..j]).Some?
    ensures Lifted(Nested(keys, d, v), Nested(keys[j..], d, Dig(v, keys[..j]).value), Reverse(KeyPath(keys[..j])), j > 0)
  {
    if j == 0 {
      assert keys[..0] == [] && keys[0..] == keys;
      assert KeyPath([]) == [];
      LiftedByNothing(Nested(keys, d, v));
    } else {
      var k := keys[0];
      var rest := keys[1..];
      DigStep(keys, j, v);
      KeyPathStep(keys, j);
      var w := Field.Fetch(v, ToStr(k)).value;
      var mid := Nested(rest, d, w);
      FieldLifts(ToStr(k), w' => Nested(rest, d, w'), v, w);
      assert Lifted(Nested(keys, d, v), mid, [Key(ToStr(k))], true);
      if j == 1 {
        assert rest[..0] == [] && KeyPath(rest[..0]) == [];
        assert Dig(w, rest[..0]) == Some(w);
        assert Reverse(KeyPath(keys[..j])) == [Key(ToStr(k))];
        assert Nested(keys[j..], d, Dig(v, keys[..j]).value) == mid;
      } else {
        NestedPrefix(rest, j - 1, d, w);
        LiftedCompose(Nested(keys, d, v), mid, Nested(keys[j..], d, Dig(v, keys[..j]).value),
                      [Key(ToStr(k))], Reverse(KeyPath(rest[..j - 1])), true);
      }
    }
  }

  /** When every key is present, the leaf decoder's result is the result —
      except that its Failure carries the keys, innermost first. */
  lemma LeafDecides(keys: seq<Value>, d: Decoder, v: Value)
    requires |keys| >= 1 && Dig(v, keys).Some?
    ensures Succeeds(d(Dig(v, keys).value)) ==> Call(keys, d, v) == d(Dig(v, keys).value)
    ensures Rejects(d(Dig(v, keys).value)) && ErrorOf(d(Dig(v, keys).value)).Fail? ==>
      var f := ErrorOf(d(Dig(v, keys).value)).failure;
      Call(keys, d, v) == Returns(Err(Fail(Failure(f.msg, f.path + Reverse(KeyPath(keys))))))
  {
    assert keys[..|keys|] == keys;
    NestedPrefix(keys, |keys|, d, v);
    assert keys[|keys|..] == [];
    assert Nested([], d, Dig(v, keys).value) == d(Dig(v, keys).value);
  }

  /** A leaf Failure with an empty path renders as "Error at .k1.k2...kn: msg". */
  lemma LeafFailureRendersPath(keys: seq<Value>, d: Decoder, v: Value, m: string)
    requires |keys| >= 1 && Dig(v, keys).Some? && d(Dig(v, keys).value) == FailWith(m)
    ensures Rejects(Call(keys, d, v))
    ensures Render(ErrorOf(Call(keys, d, v))) == "Error at ." + Join(Texts(KeyPath(keys)), ".") + ": " + m
  {
    LeafDecides(keys, d, v);
    var p := Reverse(KeyPath(keys));
    assert ErrorOf(d(Dig(v, keys).value)).failure == Failure(m, []);
    assert [] + p == p;
    assert Call(keys, d, v) == Returns(Err(Fail(Failure(m, p))));
    ReverseReverse(KeyPath(keys));
    assert |p| >= 1 && Reverse(p) == KeyPath(keys);
    assert Failure(m, p).ToS() == "Error at ." + Join(Texts(KeyPath(keys)), ".") + ": " + m;
  }
}
