/** Worked examples: concrete inputs and the exact results and messages the
    decoders give for them. */
module Scenarios {
  import opened Seqs
  import opened Values
  import opened Results
  import opened Failures
  import opened DecoderCore
  import Field
  import Array
  import Index
  import Hash
  import AndThen
  import At
  import Any
  import Map
  import Decoders
  import Decoding

  /** `integer` on a value of another class. */
  lemma IntegerRejects(v: Value)
    requires !v.Int?
    ensures Decoders.Integer()(v) == FailWith("expected Integer, got " + ClassName(ClassOf(v)))
  {
    assert !IsA(v, IntegerClass);
    assert "expected " + ClassName(IntegerClass) + ", got " == "expected Integer, got ";
  }

  /** `string` on a value of another class. */
  lemma StringRejects(v: Value)
    requires !v.Str?
    ensures Decoders.String()(v) == FailWith("expected String, got " + ClassName(ClassOf(v)))
  {
    assert !IsA(v, StringClass);
    assert "expected " + ClassName(StringClass) + ", got " == "expected String, got ";
  }

  /** Solver aid: the rendered text of `FieldWrongType`, as literals. */
  lemma FieldWrongTypeText()
    ensures "Error at ." + "id" + "" + ": " + ("expected String, got " + "Integer") ==
      "Error at .id: expected String, got Integer"
  {
  }

  /** `field("id", string)` on `{"id" => 123}`. */
  lemma FieldWrongType()
    ensures Decoding.Decode(Field.New(Str("id"), Decoders.String()), Hsh([(Str("id"), Int(123))])) ==
      Returns(Err("Error at .id: expected String, got Integer"))
  {
    var h := Hsh([(Str("id"), Int(123))]);
    assert Field.Fetch(h, "id") == Some(Int(123));
    StringRejects(Int(123));
    Field.FailureRendersKey("id", Decoders.String(), h, Failures.New("expected String, got " + ClassName(IntegerClass)));
    assert ClassName(IntegerClass) == "Integer";
    FieldWrongTypeText();
  }

  /** `field("other", integer)` on `{"id" => 123}`: the key is not pushed. */
  lemma FieldMissingKey()
    ensures Decoding.Decode(Field.New(Str("other"), Decoders.Integer()), Hsh([(Str("id"), Int(123))])) ==
      Returns(Err("expected a Hash with key other"))
  {
    assert Field.Fetch(Hsh([(Str("id"), Int(123))]), "other") == None;
    assert Failures.New("expected a Hash with key " + "other").ToS() == "expected a Hash with key " + "other";
    assert "expected a Hash with key " + "other" == "expected a Hash with key other";
  }

  /** Solver aid: the path `[1]` renders as "1". */
  lemma PathOfIndexOne()
    ensures Seqs.Join(Texts(Reverse([Pos(1)])), ".") == "1"
  {
    assert Reverse([Pos(1)]) == [Pos(1)];
    assert Decimal(1) == "1";
    assert Texts([Pos(1)]) == ["1"];
  }

  /** Solver aid: the rendered text of `ArrayBadElement`, as literals. */
  lemma ArrayBadElementText()
    ensures "Error at ." + "1" + ": " + ("expected Integer, got " + "String") ==
      "Error at .1: expected Integer, got String"
  {
  }

  /** The result of `array(integer)` on `[1, "2", 3]`. */
  lemma ArrayBadElementResult()
    ensures Array.Call(Decoders.Integer(), Arr([Int(1), Str("2"), Int(3)])) ==
      Returns(Err(Fail(Failure("expected Integer, got " + ClassName(StringClass), [Pos(1)]))))
  {
    var d := Decoders.Integer();
    var xs := [Int(1), Str("2"), Int(3)];
    var f := Failure("expected Integer, got " + ClassName(StringClass), [Pos(1)]);
    IntegerRejects(Str("2"));
    assert IsA(Int(1), IntegerClass) && IsA(Int(3), IntegerClass);
    var os := Array.Elements(d, xs);
    assert os == [Returns(Ok(Int(1))), Returns(Err(Fail(f))), Returns(Ok(Int(3)))];
    assert os[1..][1..] == [Returns(Ok(Int(3)))];
    assert os[1..][1..][1..] == [];
    var rs := [Ok(Int(1)), Err(Fail(f)), Ok(Int(3))];
    assert Sequence(os[1..][1..]).value == [Ok(Int(3))];
    assert Sequence(os[1..]).value == [Err(Fail(f)), Ok(Int(3))];
    assert Sequence(os).value == rs;
    assert All(rs).Err? && All(rs).error == Fail(f);
  }

  /** Solver aid: `decode` renders the Failure of `ArrayBadElementResult`. */
  lemma ArrayBadElementDecodes(m: string)
    requires m == "expected Integer, got " + ClassName(StringClass)
    ensures Decoding.Decode(Array.New(Decoders.Integer()), Arr([Int(1), Str("2"), Int(3)])) ==
      Returns(Err(Failure(m, [Pos(1)]).ToS()))
  {
    ArrayBadElementResult();
    Decoding.FailureIsRendered(Array.New(Decoders.Integer()), Arr([Int(1), Str("2"), Int(3)]), Failure(m, [Pos(1)]));
  }

  /** Solver aid: that Failure rendered, in pieces. */
  lemma ArrayBadElementRendered(m: string)
    requires m == "expected Integer, got " + ClassName(StringClass)
    ensures Failure(m, [Pos(1)]).ToS() == "Error at ." + "1" + ": " + ("expected Integer, got " + "String")
  {
    PathOfIndexOne();
    assert ClassName(StringClass) == "String";
  }

  /** `array(integer)` on `[1, "2", 3]`: the index of the first bad element. */
  lemma ArrayBadElement()
    ensures Decoding.Decode(Array.New(Decoders.Integer()), Arr([Int(1), Str("2"), Int(3)])) ==
      Returns(Err("Error at .1: expected Integer, got String"))
  {
    var m := "expected Integer, got " + ClassName(StringClass);
    ArrayBadElementDecodes(m);
    ArrayBadElementRendered(m);
    ArrayBadElementText();
  }

  /** Solver aid: the out-of-bounds message for index 1 of a one-element Array. */
  lemma IndexOutOfBoundsText()
    ensures Index.OutOfBounds(1, 1) == "error decoding array: index 1 outside of array bounds: -1...1"
  {
    assert Decimal(1) == "1" && DecimalNat(1) == "1";
    assert Index.OutOfBounds(1, 1) ==
      "error decoding array: index " + "1" + " outside of array bounds: -" + "1" + "..." + "1";
    IndexOutOfBoundsLiteral();
  }

  /** Solver aid: that message, as literals. */
  lemma IndexOutOfBoundsLiteral()
    ensures "error decoding array: index " + "1" + " outside of array bounds: -" + "1" + "..." + "1" ==
      "error decoding array: index 1 outside of array bounds: -1...1"
  {
  }

  /** `index(1, integer)` on `[1]`: Ruby's bounds message. */
  lemma IndexOutOfBounds()
    ensures Index.Call(1, Decoders.Integer(), Arr([Int(1)])) ==
      PlainErr("error decoding array: index 1 outside of array bounds: -1...1")
  {
    IndexOutOfBoundsText();
  }

  /** Solver aid: the item-error message for index 0. */
  lemma IndexItemErrorText()
    ensures Index.ItemError(0, Fail(Failures.New("expected Integer, got " + ClassName(StringClass)))) ==
      "error decoding array item 0: expected Integer, got String"
  {
    var m := "expected Integer, got " + ClassName(StringClass);
    assert Decimal(0) == "0" && ClassName(StringClass) == "String";
    RenderNew(m);
    IndexItemErrorLiteral();
  }

  /** Solver aid: that message, as literals. */
  lemma IndexItemErrorLiteral()
    ensures "error decoding array item " + "0" + ": " + ("expected Integer, got " + "String") ==
      "error decoding array item 0: expected Integer, got String"
  {
  }

  /** `index(0, integer)` on `["foo"]`: the item error is rendered into a
      bare String, and no index is pushed. */
  lemma IndexItemError()
    ensures Index.Call(0, Decoders.Integer(), Arr([Str("foo")])) ==
      PlainErr("error decoding array item 0: expected Integer, got String")
  {
    IntegerRejects(Str("foo"));
    IndexItemErrorText();
  }

  /** Solver aid: the value-error message for key "foo". */
  lemma HashValueErrorText()
    ensures Hash.ValueMessage(Str("foo"), Fail(Failures.New("expected Integer, got " + ClassName(StringClass)))) ==
      "error decoding value for key \"foo\": expected Integer, got String"
  {
    var m := "expected Integer, got " + ClassName(StringClass);
    RenderNew(m);
    HashValueErrorPieces();
  }

  /** Solver aid: a fresh Failure renders as its message. */
  lemma RenderNew(m: string)
    ensures Render(Fail(Failures.New(m))) == m
  {
  }

  /** Solver aid: the value-error message, in pieces. */
  lemma HashValueErrorPieces()
    ensures "error decoding value for key " + Inspect(Str("foo")) + ": " + ("expected Integer, got " + ClassName(StringClass)) ==
      "error decoding value for key \"foo\": expected Integer, got String"
  {
    assert Inspect(Str("foo")) == "\"" + "foo" + "\"" && ClassName(StringClass) == "String";
    HashValueErrorLiteral();
  }

  /** Solver aid: that message, as literals. */
  lemma HashValueErrorLiteral()
    ensures "error decoding value for key " + ("\"" + "foo" + "\"") + ": " + ("expected Integer, got " + "String") ==
      "error decoding value for key \"foo\": expected Integer, got String"
  {
  }

  /** `hash(string, integer)` on `{"foo" => "bar"}`. */
  lemma HashValueError()
    ensures Hash.Call(Decoders.String(), Decoders.Integer(), Hsh([(Str("foo"), Str("bar"))])) ==
      FailWith("error decoding value for key \"foo\": expected Integer, got String")
  {
    var ps := [(Str("foo"), Str("bar"))];
    var m := "expected Integer, got " + ClassName(StringClass);
    IntegerRejects(Str("bar"));
    assert IsA(Str("foo"), StringClass);
    var e := Fail(Failures.New(Hash.ValueMessage(Str("foo"), Fail(Failures.New(m)))));
    var os := Hash.Pairs(Decoders.String(), Decoders.Integer(), ps);
    assert os[0] == Returns(Err(e));
    assert os[1..] == [];
    assert Sequence(os).value == [Err(e)];
    assert All(Sequence(os).value).error == e;
    HashValueErrorText();
  }

  /** `hash(string, integer)` on `{"john" => 1}`. */
  lemma HashDecodes()
    ensures Hash.Call(Decoders.String(), Decoders.Integer(), Hsh([(Str("john"), Int(1))])) ==
      Returns(Ok(Hsh([(Str("john"), Int(1))])))
  {
    var ps := [(Str("john"), Int(1))];
    assert IsA(Str("john"), StringClass) && IsA(Int(1), IntegerClass);
    assert Hash.AllDecode(Decoders.String(), Decoders.Integer(), ps);
    Hash.SucceedsIffAllDecode(Decoders.String(), Decoders.Integer(), ps);
    assert Hash.Decoded(Decoders.String(), Decoders.Integer(), ps) == ps;
    ToHUnique(ps);
  }

  /** Solver aid: the path `a.b.c` joined. */
  lemma AbcText()
    ensures Seqs.Join(Texts(At.KeyPath([Str("a"), Str("b"), Str("c")])), ".") == "a.b.c"
  {
    assert Texts(At.KeyPath([Str("a"), Str("b"), Str("c")])) == ["a", "b", "c"];
    assert ["a", "b", "c"][1..] == ["b", "c"] && ["b", "c"][1..] == ["c"];
  }

  /** Solver aid: the rendered text of `AtLeafFailure`, as literals. */
  lemma AtLeafFailureText()
    ensures "Error at ." + "a.b.c" + ": " + ("expected String, got " + "Integer") ==
      "Error at .a.b.c: expected String, got Integer"
  {
  }

  /** `at("a", "b", "c", string)` on `{"a" => {"b" => {"c" => 1}}}`. */
  lemma AtLeafFailure()
    ensures Decoding.Decode(Decoders.At([Str("a"), Str("b"), Str("c")], Decoders.String()),
                            Hsh([(Str("a"), Hsh([(Str("b"), Hsh([(Str("c"), Int(1))]))]))])) ==
      Returns(Err("Error at .a.b.c: expected String, got Integer"))
  {
    AtLeafFailureDecodes("expected String, got " + ClassName(IntegerClass));
    AtLeafFailureRendered("expected String, got " + ClassName(IntegerClass));
    AtLeafFailureText();
  }

  /** Solver aid: the Failure of `AtLeafFailureDecodes` rendered, in pieces. */
  lemma AtLeafFailureRendered(m: string)
    requires m == "expected String, got " + ClassName(IntegerClass)
    ensures "Error at ." + Seqs.Join(Texts(At.KeyPath([Str("a"), Str("b"), Str("c")])), ".") + ": " + m ==
      "Error at ." + "a.b.c" + ": " + ("expected String, got " + "Integer")
  {
    AbcText();
    assert ClassName(IntegerClass) == "Integer";
  }

  /** Solver aid: `decode` renders the leaf Failure with the keys pushed. */
  lemma AtLeafFailureDecodes(m: string)
    requires m == "expected String, got " + ClassName(IntegerClass)
    ensures Decoding.Decode(Decoders.At([Str("a"), Str("b"), Str("c")], Decoders.String()),
                            Hsh([(Str("a"), Hsh([(Str("b"), Hsh([(Str("c"), Int(1))]))]))])) ==
      Returns(Err("Error at ." + Seqs.Join(Texts(At.KeyPath([Str("a"), Str("b"), Str("c")])), ".") + ": " + m))
  {
    var keys := [Str("a"), Str("b"), Str("c")];
    var v := Hsh([(Str("a"), Hsh([(Str("b"), Hsh([(Str("c"), Int(1))]))]))]);
    assert keys[1..] == [Str("b"), Str("c")] && keys[1..][1..] == [Str("c")] && keys[1..][1..][1..] == [];
    assert At.Dig(v, keys) == Some(Int(1));
    StringRejects(Int(1));
    At.LeafFailureRendersPath(keys, Decoders.String(), v, m);
  }

  /** `array(d)` on a one-element Array whose element fails with `f`. */
  lemma ArrayOfOneFailure(d: Decoder, x: Value, f: Failure)
    requires d(x) == Returns(Err(Fail(f)))
    ensures Array.Call(d, Arr([x])) == Returns(Err(Fail(f.Push(Pos(0)))))
  {
    var os := Array.Elements(d, [x]);
    assert os[0] == Returns(Err(Fail(f.Push(Pos(0)))));
    assert os[1..] == [];
    assert Sequence(os).value == [Err(Fail(f.Push(Pos(0))))];
    assert All(Sequence(os).value).error == Fail(f.Push(Pos(0)));
  }

  /** The path pushed by Array, Field, Array, Field renders as ".0.a.0.b". */
  lemma NestedPathText(m: string)
    ensures Failure(m, [Key("b"), Pos(0), Key("a"), Pos(0)]).ToS() == "Error at .0.a.0.b: " + m
  {
    var p := [Key("b"), Pos(0), Key("a"), Pos(0)];
    assert Reverse(p) == [Pos(0), Key("a"), Pos(0), Key("b")];
    assert Decimal(0) == "0" by { assert DecimalNat(0) == [Digit(0)]; }
    assert Texts(Reverse(p)) == ["0", "a", "0", "b"];
    var t := ["0", "a", "0", "b"];
    assert t[1..] == ["a", "0", "b"] && t[1..][1..] == ["0", "b"] && t[1..][1..][1..] == ["b"];
    assert Seqs.Join(t, ".") == "0.a.0.b";
    assert Failure(m, p).ToS() == "Error at ." + "0.a.0.b" + ": " + m;
  }

  /** Solver aid: the rendered text of `NestedArraysAndFields`, as literals. */
  lemma NestedText()
    ensures "Error at .0.a.0.b: " + ("expected Integer, got " + "NilClass") ==
      "Error at .0.a.0.b: expected Integer, got NilClass"
  {
  }

  /** Solver aid: the Failure of the nested decoder, unrendered. */
  lemma NestedArraysAndFieldsResult(m: string)
    requires m == "expected Integer, got " + ClassName(NilClass)
    ensures Array.New(Field.New(Str("a"), Array.New(Field.New(Str("b"), Decoders.Integer()))))(
              Arr([Hsh([(Str("a"), Arr([Hsh([(Str("b"), Nil)])]))])])) ==
      Returns(Err(Fail(Failure(m, [Key("b"), Pos(0), Key("a"), Pos(0)]))))
  {
    var mid := Array.New(Field.New(Str("b"), Decoders.Integer()));
    var outer := Field.New(Str("a"), mid);
    var h1 := Hsh([(Str("b"), Nil)]);
    var h0 := Hsh([(Str("a"), Arr([h1]))]);
    NestedInnerResult(m);
    var f2 := Failure(m, [Key("b"), Pos(0)]);
    assert mid(Arr([h1])) == Returns(Err(Fail(f2)));
    assert Lookup(h0.pairs, Str("a")) == Some(Arr([h1]));
    var f3 := f2.Push(Key("a"));
    assert Field.Call("a", mid, h0) == Returns(Err(Fail(f3)));
    assert outer(h0) == Returns(Err(Fail(f3)));
    ArrayOfOneFailure(outer, h0, f3);
    assert f3.Push(Pos(0)) == Failure(m, [Key("b"), Pos(0), Key("a"), Pos(0)]);
  }

  /** Solver aid: the Failure of the inner `array(field("b", integer))`. */
  lemma NestedInnerResult(m: string)
    requires m == "expected Integer, got " + ClassName(NilClass)
    ensures Array.New(Field.New(Str("b"), Decoders.Integer()))(Arr([Hsh([(Str("b"), Nil)])])) ==
      Returns(Err(Fail(Failure(m, [Key("b"), Pos(0)]))))
  {
    var inner := Field.New(Str("b"), Decoders.Integer());
    var h1 := Hsh([(Str("b"), Nil)]);
    IntegerRejects(Nil);
    assert Lookup(h1.pairs, Str("b")) == Some(Nil);
    assert Decoders.Integer()(Nil) == Returns(Err(Fail(Failures.New(m))));
    var f1 := Failures.New(m).Push(Key("b"));
    assert Field.Call("b", Decoders.Integer(), h1) == Returns(Err(Fail(f1)));
    assert inner(h1) == Returns(Err(Fail(f1)));
    ArrayOfOneFailure(inner, h1, f1);
    assert f1.Push(Pos(0)) == Failure(m, [Key("b"), Pos(0)]);
  }

  /** The nested path of `array(field("a", array(field("b", integer))))`. */
  lemma NestedArraysAndFields()
    ensures Decoding.Decode(Array.New(Field.New(Str("a"), Array.New(Field.New(Str("b"), Decoders.Integer())))),
                            Arr([Hsh([(Str("a"), Arr([Hsh([(Str("b"), Nil)])]))])])) ==
      Returns(Err("Error at .0.a.0.b: expected Integer, got NilClass"))
  {
    var m := "expected Integer, got " + ClassName(NilClass);
    NestedArraysAndFieldsResult(m);
    Decoding.FailureIsRendered(Array.New(Field.New(Str("a"), Array.New(Field.New(Str("b"), Decoders.Integer())))),
                               Arr([Hsh([(Str("a"), Arr([Hsh([(Str("b"), Nil)])]))])]),
                               Failure(m, [Key("b"), Pos(0), Key("a"), Pos(0)]));
    NestedPathText(m);
    assert ClassName(NilClass) == "NilClass";
    NestedText();
  }

  /** Solver aid: the path of `TwoFields` joined. */
  lemma TwoFieldsPath()
    ensures Seqs.Join(Texts(Reverse([Key("b"), Key("a")])), ".") == "a.b"
  {
    assert Reverse([Key("b"), Key("a")]) == [Key("a"), Key("b")];
    assert Texts([Key("a"), Key("b")]) == ["a", "b"];
    assert ["a", "b"][1..] == ["b"];
  }

  /** Solver aid: the rendered text of `TwoFields`, as literals. */
  lemma TwoFieldsText()
    ensures "Error at ." + "a.b" + ": " + ("expected Integer, got " + "String") ==
      "Error at .a.b: expected Integer, got String"
  {
  }

  /** `field("a", field("b", integer))` on `{"a" => {"b" => "x"}}`: the outer key
      is pushed last and rendered first. */
  lemma TwoFields()
    ensures Decoding.Decode(Field.New(Str("a"), Field.New(Str("b"), Decoders.Integer())),
                            Hsh([(Str("a"), Hsh([(Str("b"), Str("x"))]))])) ==
      Returns(Err("Error at .a.b: expected Integer, got String"))
  {
    var m := "expected Integer, got " + ClassName(StringClass);
    var inner := Field.New(Str("b"), Decoders.Integer());
    var h1 := Hsh([(Str("b"), Str("x"))]);
    var h0 := Hsh([(Str("a"), h1)]);
    IntegerRejects(Str("x"));
    assert Field.Fetch(h1, "b") == Some(Str("x"));
    var f1 := Failures.New(m).Push(Key("b"));
    assert inner(h1) == Returns(Err(Fail(f1)));
    assert Field.Fetch(h0, "a") == Some(h1);
    var f2 := f1.Push(Key("a"));
    assert f2.path == [Key("b"), Key("a")];
    TwoFieldsPath();
    assert ClassName(StringClass) == "String";
    TwoFieldsText();
  }

  /** The version field of the two-step example. */
  function VersionField(): Decoder
  {
    Field.New(Str("version"), Decoders.Integer())
  }

  /** Its block: version 1 reads "name", any other version "fullName". */
  function VersionChoice(): AndThen.Continuation
  {
    x => if x == Int(1) then Field.New(Str("name"), Decoders.String())
         else Field.New(Str("fullName"), Decoders.String())
  }

  /** The two-step example: a version field chooses the name field. */
  function Versioned(): Decoder
  {
    AndThen.New(VersionField(), VersionChoice())
  }

  /** Solver aid: on a Hash with an Integer version and the String `name`
      under `key`, both fields decode. */
  lemma VersionAndName(key: string, n: int, name: string, h: Value)
    requires key != "version" && h == Hsh([(Str("version"), Int(n)), (Str(key), Str(name))])
    ensures VersionField()(h) == Returns(Ok(Int(n)))
    ensures Field.Call(key, Decoders.String(), h) == Returns(Ok(Str(name)))
  {
    assert Lookup(h.pairs, Str("version")) == Some(Int(n));
    assert Lookup(h.pairs, Str(key)) == Some(Str(name));
    assert IsA(Int(n), IntegerClass) && IsA(Str(name), StringClass);
    assert Decoders.Integer()(Int(n)) == Returns(Ok(Int(n)));
    assert Decoders.String()(Str(name)) == Returns(Ok(Str(name)));
  }

  /** Version 1 reads "name", whatever the name is. */
  lemma VersionOne(name: string)
    ensures Versioned()(Hsh([(Str("version"), Int(1)), (Str("name"), Str(name))])) == Returns(Ok(Str(name)))
  {
    var h := Hsh([(Str("version"), Int(1)), (Str("name"), Str(name))]);
    VersionAndName("name", 1, name, h);
    assert VersionChoice()(Int(1)) == Field.New(Str("name"), Decoders.String());
    assert Versioned()(h) == AndThen.Call(VersionField(), VersionChoice(), h);
  }

  /** Version 2 reads "fullName", whatever the name is. */
  lemma VersionTwo(name: string)
    ensures Versioned()(Hsh([(Str("version"), Int(2)), (Str("fullName"), Str(name))])) == Returns(Ok(Str(name)))
  {
    var h := Hsh([(Str("version"), Int(2)), (Str("fullName"), Str(name))]);
    VersionAndName("fullName", 2, name, h);
    assert VersionChoice()(Int(2)) == Field.New(Str("fullName"), Decoders.String());
    assert Versioned()(h) == AndThen.Call(VersionField(), VersionChoice(), h);
  }

  /** Solver aid: the version field fails on a String version, with its key pushed. */
  lemma VersionFieldFails(m: string)
    requires m == "expected Integer, got " + ClassName(StringClass)
    ensures Versioned()(Hsh([(Str("version"), Str("1")), (Str("name"), Str("John"))])) ==
      Returns(Err(Fail(Failure(m, [Key("version")]))))
  {
    var h := Hsh([(Str("version"), Str("1")), (Str("name"), Str("John"))]);
    assert Lookup(h.pairs, Str("version")) == Some(Str("1"));
    assert Field.Fetch(h, "version") == Some(Str("1"));
    IntegerRejects(Str("1"));
    assert Decoders.Integer()(Str("1")) == Returns(Err(Fail(Failures.New(m))));
    var o := Field.Call("version", Decoders.Integer(), h);
    assert o == Returns(Err(Fail(Failures.New(m).Push(Key("version")))));
    assert VersionField()(h) == o;
    assert Versioned()(h) == AndThen.Call(VersionField(), VersionChoice(), h);
  }

  /** Solver aid: that Failure rendered, in pieces. */
  lemma VersionPathText(m: string)
    requires m == "expected Integer, got " + ClassName(StringClass)
    ensures Failure(m, [Key("version")]).ToS() == "Error at ." + "version" + ": " + ("expected Integer, got " + "String")
  {
    assert Reverse([Key("version")]) == [Key("version")];
    assert Texts([Key("version")]) == ["version"];
    assert ClassName(StringClass) == "String";
  }

  /** Solver aid: the rendered text of `VersionNotInteger`, as literals. */
  lemma VersionText()
    ensures "Error at ." + "version" + ": " + ("expected Integer, got " + "String") ==
      "Error at .version: expected Integer, got String"
  {
  }

  /** A version that is not an Integer fails at the version field. */
  lemma VersionNotInteger()
    ensures Decoding.Decode(Versioned(), Hsh([(Str("version"), Str("1")), (Str("name"), Str("John"))])) ==
      Returns(Err("Error at .version: expected Integer, got String"))
  {
    var m := "expected Integer, got " + ClassName(StringClass);
    VersionNotIntegerDecodes(m);
    VersionPathText(m);
    VersionText();
  }

  /** Solver aid: `decode` renders the Failure of `VersionFieldFails`. */
  lemma VersionNotIntegerDecodes(m: string)
    requires m == "expected Integer, got " + ClassName(StringClass)
    ensures Decoding.Decode(Versioned(), Hsh([(Str("version"), Str("1")), (Str("name"), Str("John"))])) ==
      Returns(Err(Failure(m, [Key("version")]).ToS()))
  {
    VersionFieldFails(m);
    Decoding.FailureIsRendered(Versioned(), Hsh([(Str("version"), Str("1")), (Str("name"), Str("John"))]),
                               Failure(m, [Key("version")]));
  }

  /** The same example written with the `and_then` facade raises NameError
      while the decoder is being built, so neither input is ever decoded. */
  lemma FacadeAndThenRaises()
    ensures Decoders.AndThenAsWritten(VersionField(), VersionChoice()).Raises?
    ensures Message(Decoders.AndThenAsWritten(VersionField(), VersionChoice()).exception) ==
      "uninitialized constant Decoding::Decoders::AndThen"
  {
    NameErrorText();
  }

  /** Solver aid: the NameError message, as literals. */
  lemma NameErrorText()
    ensures "uninitialized constant " + "Decoding::Decoders::AndThen" ==
      "uninitialized constant Decoding::Decoders::AndThen"
  {
  }

  /** With the facade building `Decoding::AndThen`, both versions decode to the
      name. */
  lemma FacadeAndThenVersions()
    ensures Decoding.Decode(Decoders.AndThen(VersionField(), VersionChoice()),
                            Hsh([(Str("version"), Int(1)), (Str("name"), Str("john"))])) == Returns(Ok(Str("john")))
    ensures Decoding.Decode(Decoders.AndThen(VersionField(), VersionChoice()),
                            Hsh([(Str("version"), Int(2)), (Str("fullName"), Str("john"))])) == Returns(Ok(Str("john")))
  {
    var h1 := Hsh([(Str("version"), Int(1)), (Str("name"), Str("john"))]);
    var h2 := Hsh([(Str("version"), Int(2)), (Str("fullName"), Str("john"))]);
    VersionOne("john");
    VersionTwo("john");
    assert Decoders.AndThen(VersionField(), VersionChoice())(h1) == Versioned()(h1);
    assert Decoders.AndThen(VersionField(), VersionChoice())(h2) == Versioned()(h2);
  }

  /** `field("x", boolean)` on `{"x" => 1}`: `boolean` fails with a bare
      String, which has no `push`, so the call raises NoMethodError. */
  lemma FieldOverBooleanRaises()
    ensures Field.New(Str("x"), Decoders.Boolean())(Hsh([(Str("x"), Int(1))])) ==
      Raises(NoMethodError("push", StringClass))
  {
    assert Field.Fetch(Hsh([(Str("x"), Int(1))]), "x") == Some(Int(1));
    assert Decoders.Boolean()(Int(1)) == PlainErr(Any.NoneMatched);
  }

  /** The message Ruby gives that exception. */
  lemma PushOnStringMessage()
    ensures Message(NoMethodError("push", StringClass)) == "undefined method `push' for an instance of String"
  {
    assert Message(NoMethodError("push", StringClass)) ==
      "undefined method `" + "push" + "' for " + ("an instance of " + ClassName(StringClass));
    assert ClassName(StringClass) == "String";
    PushOnStringLiteral();
  }

  /** Solver aid: the NoMethodError message, as literals. */
  lemma PushOnStringLiteral()
    ensures "undefined method `" + "push" + "' for " + ("an instance of " + "String") ==
      "undefined method `push' for an instance of String"
  {
  }

  /** `map(integer, integer, &:to_sym)` on `1`: the block's receiver is an
      Integer, which has no `to_sym`, so `Map` rescues NoMethodError. */
  lemma ToSymOnIntegers()
    ensures Map.New([Decoders.Integer(), Decoders.Integer()], Decoders.ToSym)(Int(1)) ==
      FailWith("error in map block: " + "undefined method `to_sym' for an instance of Integer")
  {
    ToSymOnIntegersRescued();
    ToSymRescueText();
  }

  /** Solver aid: the rescued text, with the message spelled out. */
  lemma ToSymRescueText()
    ensures Map.Rescue(NoMethodError("to_sym", IntegerClass)) ==
      FailWith("error in map block: " + "undefined method `to_sym' for an instance of Integer")
  {
    var e := NoMethodError("to_sym", IntegerClass);
    assert Map.Rescue(e) == FailWith("error in map block: " + Message(e));
    assert Message(e) == "undefined method `" + "to_sym" + "' for " + ("an instance of " + ClassName(IntegerClass));
    assert ClassName(IntegerClass) == "Integer";
    ToSymMessageLiteral();
  }

  /** Solver aid: the NoMethodError message, as literals. */
  lemma ToSymMessageLiteral()
    ensures "undefined method `" + "to_sym" + "' for " + ("an instance of " + "Integer") ==
      "undefined method `to_sym' for an instance of Integer"
  {
  }

  /** Solver aid: both decoders succeed and the block raises, so `Map`
      rescues the block's exception. */
  lemma ToSymOnIntegersRescued()
    ensures Map.New([Decoders.Integer(), Decoders.Integer()], Decoders.ToSym)(Int(1)) ==
      Map.Rescue(NoMethodError("to_sym", IntegerClass))
  {
    var ds := [Decoders.Integer(), Decoders.Integer()];
    IntegerAccepts(1);
    assert Map.AllSucceed(ds, Int(1));
    var vs := Map.ValuesOf(ds, Int(1));
    assert vs == [Int(1), Int(1)];
    assert Decoders.ToSym(vs) == Raises(NoMethodError("to_sym", IntegerClass));
    assert Map.Call(ds, Decoders.ToSym, Int(1)) == Map.Rescue(NoMethodError("to_sym", IntegerClass));
  }

  /** `integer` on an Integer. */
  lemma IntegerAccepts(n: int)
    ensures Decoders.Integer()(Int(n)) == Returns(Ok(Int(n)))
  {
    assert IsA(Int(n), IntegerClass);
  }
}
