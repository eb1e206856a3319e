# A Dafny model of the `decoding` gem

`decoding` is a Ruby library of decoder combinators. It turns untyped Ruby
values into values of a known shape, such as what a JSON parser hands back
(nil, booleans, numbers, strings, symbols, arrays and hashes). A *decoder* is
a callable that takes any input value and returns a `Result`: either `Ok`
with the decoded value, or `Err` with an error. Compound decoders close over
sub-decoders:

- `Map`, `Any`, `Field`, `At`, `Array`, `Index`, `Hash` and `AndThen` are the
  compound decoders.
- `Match` is the leaf decoder; `Pass` is the identity.
- `Decoders` holds the constructor functions (`string`, `integer`, `boolean`,
  `symbol`, `optional`, `decode_hash`, `at`, ...).
- `decode` is the entry point. It runs a decoder and renders the error as a
  String.

The model is pure and follows the library's own form. Every decoder is a
Dafny function from a `Value` to an outcome; nothing is mutated. The layout:

- `Values`: the input values, their classes, `inspect`, `String(x)`, and the
  ordered hash with unique keys that `to_h` builds.
- `Results`: the `Result` algebra and `Result.all`.
- `Failures`: a message plus a path of segments, `push` and `to_s`.
- `DecoderCore`: what decoders share (see below).
- One module per decoder class.
- `Decoders`: the derived constructors.
- `Decoding`: `decode`.
- `Scenarios`: worked examples with the exact messages.

`DecoderCore` makes two things explicit that the Ruby code leaves implicit:

- **The error payload is not uniform.** `Match`, `Field`, `Hash` and `Map`
  return an `Err` holding a `Failure`. `Any`, `Array` (for a non-Array) and
  `Index` return an `Err` holding a bare String. The payload is therefore
  `Plain(text) | Fail(failure)`.
- **A decoder call can raise.** `Field` and `Array` call `push` on whatever
  error their sub-decoder returns. A bare String has no `push`, so that call
  raises `NoMethodError`, and no decoder except `Map` rescues it. A call
  therefore ends in `Returns(result)` or `Raises(exception)`. `Map` rescues
  every exception into "error in map block: <message>". `decode` rescues
  nothing.

## Where the tests and the code disagree

The model follows the code in every case listed here.

- `spec/decoding/decoders/array_spec.rb:17` expects a bare String "error
  decoding array item 0: ...". `lib/decoding/decoders/array.rb:24` pushes
  the index onto the element's Failure, which renders "Error at .0: ...".
  `spec/decoding/decoders_spec.rb:88` agrees with the code.
- `spec/decoding/decoders/index_spec.rb:17` expects the item's Failure with
  0 pushed. `lib/decoding/decoders/index.rb:23` returns the bare String
  "error decoding array item 0: ...".
- `spec/decoding/decoders/index_spec.rb:22,27` expect Failures.
  `index.rb:19,25` return bare Strings (the message texts agree).
- `spec/decoding/decoders/hash_spec.rb:23` expects a bare String.
  `lib/decoding/decoders/hash.rb:22` returns a Failure with the same text.
- `spec/decoding/decoders/and_then_spec.rb:35-41` expects an exception raised
  in the block to become "error in and_then block: ...".
  `lib/decoding/decoders/and_then.rb:18-22` has no rescue, and the model
  has none either.
- The comment at `lib/decoding/decoders.rb:268` shows "expected a Hash, got
  String". `Field` writes the input with `inspect`, so the message is
  "expected a Hash, got: \"d\"".
- `spec/decoding/decoders_spec.rb:116-126` expects the `and_then` facade to
  decode both versions. `lib/decoding/decoders.rb:259` names a constant that
  does not exist, so building that decoder raises NameError; see
  "## Findings". The model keeps both: `Decoders.AndThenAsWritten` as
  written, and the corrected `Decoders.AndThen`.
- `decode` is documented never to raise. The model shows inputs on which it
  does: `Scenarios.FieldOverBooleanRaises` exhibits `field("x", boolean)`
  raising `NoMethodError`.

## Model

| member | source | states |
|---|---|---|
| Results.Result.IsOk | lib/decoding/result.rb:67-72 | exactly one of `ok?` and `err?` holds |
| Results.Result.Unwrap | lib/decoding/result.rb:80 | `Ok(x).unwrap(d)` is `x`; `Err(e).unwrap(d)` is `d` |
| Results.Result.Map | lib/decoding/result.rb:91 | an `Ok` keeps its tag and gets `f` of its value; an `Err` keeps its error untouched |
| Results.Result.MapErr | lib/decoding/result.rb:102 | an `Err` gets `g` of its error; an `Ok` keeps its value |
| Results.Result.And | lib/decoding/result.rb:135-139 | `Ok` only when both are `Ok`, with `f(a, b)`; otherwise the receiver's error if it has one, else the argument's, so the first error wins |
| Results.Result.AndThen | lib/decoding/result.rb:141 | `Ok(x).and_then(k)` is `k(x)`; an `Err` passes through |
| Results.MakeOk | lib/decoding/result.rb:17 | `Result.ok(v)` is an `Ok` unwrapping to `v` |
| Results.MakeErr | lib/decoding/result.rb:23 | `Result.err(e)` is an `Err` holding `e` |
| Results.Fold | lib/decoding/result.rb:34-36 | the `reduce` of `all`: an `Err` accumulator stays as it is; from `Ok(xs)` the result is `Ok` iff every element is, and then it is `xs` followed by every value in order; an `Err` result is the first `Err` in the sequence |
| Results.All | lib/decoding/result.rb:33-37 | `Ok` iff every element is `Ok`, with the same length and the values in order; otherwise the first `Err` in sequence order |
| Results.AllEmpty | lib/decoding/result.rb:34 | `all([])` is `Ok([])` |
| Results.AllOfTwo | lib/decoding/result.rb:33-37 | `all([a, b])` is `a.and(b)` collecting both values |
| Results.StructuralEquality | lib/decoding/result.rb:55-58 | `Ok(x) == Ok(y)` iff `x == y`, the same for `Err`, and `Ok(x) != Err(x)` |
| Seqs.Reverse | lib/decoding/failure.rb:38 | `reverse` keeps the length and puts element `i` at position `n-1-i` |
| Seqs.ReverseSnoc | lib/decoding/failure.rb:33-38 | reversing a path with a segment appended puts that segment first |
| Seqs.ReverseReverse | lib/decoding/failure.rb:38 | reversing twice gives the path back |
| Seqs.JoinCons | lib/decoding/failure.rb:38 | `join` of a first part and the rest puts the separator between them only when the rest is not empty |
| Seqs.Concat3 | lib/decoding/failure.rb:38 | (helper) a three-part concatenation splits back into its parts at their lengths |
| Seqs.Join | lib/decoding/failure.rb:38 | (definition, no contract) `Array#join`: the parts with the separator between neighbours |
| Seqs.Decimal | lib/decoding/decoders/index.rb:23 | `Integer#to_s` reads back as the same integer: it starts with `-` exactly for a negative number, the rest is decimal digits whose value is the magnitude, and there is no leading zero except in "0" |
| Failures.Texts | lib/decoding/failure.rb:38 | (helper) each segment written as `join` writes it, in order |
| Failures.Failure.Push | lib/decoding/failure.rb:32-34 | the same message; the path is one longer, keeps the old path as its prefix and ends in the new segment |
| Failures.New | lib/decoding/failure.rb:14-18 | `failure(msg)` has the message and an empty path |
| Failures.EqualityIsStructural | lib/decoding/failure.rb:20-24 | two Failures are equal iff their messages and whole paths are |
| Failures.Failure.ToS | lib/decoding/failure.rb:36-42 | with an empty path `to_s` is the bare message |
| Failures.ToSShape | lib/decoding/failure.rb:37-38 | with a non-empty path `to_s` is "Error at .", then the segments joined with "." newest first, then ": " and the message, each at its own offset |
| Failures.TextsAppend | lib/decoding/failure.rb:38 | writing the segments of two paths end to end is writing the whole path |
| Failures.PushRendersFirst | lib/decoding/failure.rb:32-42 | after `push(s)` the rendering is "Error at ." then `s`, then the older segments newest first, then ": " and the message |
| Failures.PushTwiceExample | spec/decoding/failure_spec.rb:16-19 | pushing "0" then "foo" renders "Error at .foo.0: expected string" |
| Values.ClassOf | lib/decoding/decoders/match.rb:22 | `value.class` is a concrete class, never `Numeric` or `Object` |
| Values.IsAOwnClass | lib/decoding/decoders/match.rb:19 | for a concrete class, `is_a?` holds exactly for the members of that class |
| Values.ToStr | lib/decoding/decoders/field.rb:14 | `String(key)` is the string itself, a symbol's name, "" for nil, and the `inspect` text for every other value |
| Values.ClassName | lib/decoding/decoders/match.rb:22 | (definition, no contract) the name Ruby prints for each class |
| Values.IsA | lib/decoding/decoders/match.rb:19 | (definition, no contract) `is_a?`: the value's own class, `Numeric` for numbers, and `Object` for everything |
| Values.Inspect | lib/decoding/decoders/field.rb:29 | (definition, no contract) `inspect` in Ruby 3.3's layout |
| Values.Lookup | lib/decoding/decoders/field.rb:23-24 | (definition, no contract) the value of the first pair holding the key; its meaning is stated by `Values.LookupAbsent` and `Values.LookupFound` |
| Values.LookupAbsent | lib/decoding/decoders/field.rb:23 | `key?` fails exactly when no pair has that key |
| Values.LookupFound | lib/decoding/decoders/field.rb:24 | `fetch` returns the value of the pair holding the key, which no earlier pair holds |
| Values.Store | lib/decoding/decoders/hash.rb:37 | `h[k] = w`: `k` now maps to `w` and every other key is unchanged; a new key is appended at the end, and an existing one keeps its position |
| Values.StoreKeepsKeys | lib/decoding/decoders/hash.rb:37 | `h[k] = w` keeps every existing key at its position |
| Values.StoreUnique | lib/decoding/decoders/hash.rb:37 | `h[k] = w` keeps the keys of a hash distinct |
| Values.StoreAll | lib/decoding/decoders/hash.rb:37 | storing a list of pairs keeps the keys distinct |
| Values.ToH | lib/decoding/decoders/hash.rb:37 | `to_h` gives a hash with distinct keys |
| Values.StoreAllLookup | lib/decoding/decoders/hash.rb:37 | after storing pairs, a key has the value of its last pair, or its old value if no pair has it |
| Values.LastValue | lib/decoding/decoders/hash.rb:37 | (reference) no value iff no pair has the key; otherwise the value of a pair with that key that no later pair has |
| Values.ToHLaterWins | lib/decoding/decoders/hash.rb:37 | in `to_h` the last pair with a key gives that key's value |
| Values.StoreAllFresh | lib/decoding/decoders/hash.rb:37 | pairs with new, distinct keys are appended in order |
| Values.ToHUnique | lib/decoding/decoders/hash.rb:37 | pairs with distinct keys come out of `to_h` unchanged and in order |
| DecoderCore.Render | lib/decoding.rb:121 | `to_s` of a bare String is the string; of a Failure, its rendering |
| DecoderCore.Message | lib/decoding/decoders/map.rb:28 | `e.message`: a StandardError's own message; "uninitialized constant C" for a NameError; "undefined method `m' for " followed by the receiver, ending in its class name unless it is nil, true or false |
| DecoderCore.Trichotomy | lib/decoding/decoder.rb:10-12 | a call returns `Ok`, returns `Err`, or raises, and never both `Ok` and `Err` |
| DecoderCore.FailWith | lib/decoding/decoders/field.rb:26 | `err(failure(msg))` returns an `Err` holding a Failure with an empty path |
| DecoderCore.PlainErr | lib/decoding/decoders/any.rb:14 | `err(msg)` returns an `Err` holding the bare String |
| DecoderCore.Then | lib/decoding/decoders/array.rb:24 | an exception propagates; a returned value is handed on |
| DecoderCore.Sequence | lib/decoding/decoders/array.rb:23-24 | an eager `map` whose calls may raise returns all results in order iff no call raised; otherwise it raises the first exception |
| DecoderCore.PushSegment | lib/decoding/decoders/field.rb:24 | `map_err { _1.push(s) }`: an `Ok` passes; a Failure gets `s` pushed; a bare String raises NoMethodError for `push` |
| DecoderCore.PushSegmentIsMapErr | lib/decoding/decoders/array.rb:24 | when the error is not a bare String, it is exactly `map_err` of `push` |
| Match.Call | lib/decoding/decoders/match.rb:18-26 | `Ok(v)` with `v` unchanged iff the pattern matches, and it never raises; every error is a Failure with an empty path; a class pattern gives "expected C, got <class>", any other pattern "expected value matching <inspect p>, got: <inspect v>" |
| Match.CaseEq | lib/decoding/decoders/match.rb:19 | (definition, no contract) `pattern === value`: `is_a?` for a class, equality for a value, the expression for a Regexp |
| Match.PatternInspect | lib/decoding/decoders/match.rb:24 | (definition, no contract) `inspect` of a pattern that is not a class |
| Match.NumericAcceptsNumbers | spec/decoding/decoders_spec.rb:31-35 | `Numeric` accepts exactly Integers and Floats |
| Match.StringPatternIsEquality | spec/decoding/decoders/match_spec.rb:14-16 | a String pattern matches by equality |
| Match.New | lib/decoding/decoders/match.rb:11-14 | `Match.new(p)` decodes every input as `Match.Call` with that pattern |
| Map.Apply | lib/decoding/decoders/map.rb:25 | (helper) every decoder is applied to the same input, in order |
| Map.ValuesOf | lib/decoding/decoders/map.rb:26 | (helper) the decoded values are passed in declaration order |
| Map.Rescue | lib/decoding/decoders/map.rb:27-28 | an exception becomes an `Err` with the Failure "error in map block: <message>" and an empty path |
| Map.Call | lib/decoding/decoders/map.rb:23-29 | never raises; `Ok(f(v1..vn))` iff every decoder succeeds and `f` returns; without exceptions, the first failing decoder's `Err` unchanged (so `f` is not called); the first exception, from a decoder or from `f`, becomes "error in map block: ..." |
| Map.SingleIsResultMap | lib/decoding/decoders/map.rb:24-26 | with one decoder and a transform that returns, `Map` is `map` on the decoder's Result |
| Map.New | lib/decoding/decoders/map.rb:15-19 | `Map.new(d, *rest, &f)` decodes every input as `Map.Call` with those decoders and that block |
| Any.Call | lib/decoding/decoders/any.rb:25-27 | the first result that is not an `Err`, in declaration order, is the result, whether a success or an exception; succeeds iff some decoder succeeds with all earlier ones returning `Err`; every error is the fixed bare String "None of the decoders matched" |
| Any.FirstNonReject | lib/decoding/decoders/any.rb:26 | (definition, no contract) the result is that of the first decoder that does not return `Err` |
| Any.FirstNonRejectInTail | lib/decoding/decoders/any.rb:26 | (helper) past a rejecting first decoder, the first decoder that does not reject is the first such one of the rest |
| Any.OkIffSomeOk | lib/decoding/decoders/any.rb:26 | when no decoder raises, `Any` succeeds iff some decoder does |
| Any.FirstSuccessDecides | spec/decoding/decoders/any_spec.rb:10-13 | a success of the first decoder decides, whatever the later ones are |
| Any.New | lib/decoding/decoders/any.rb:18-21 | `Any.new(d, *ds)` decodes every input as `Any.Call` with those decoders in order |
| Field.Call | lib/decoding/decoders/field.rb:21-31 | "expected a Hash, got: <inspect>" for a non-Hash and "expected a Hash with key <key>" for a missing key, both Failures with an empty path; succeeds iff the key is present and the sub-decoder succeeds on its value, with the same result; its own errors are never bare Strings; a Failure from the sub-decoder gets the key pushed; it raises iff the sub-decoder raises or returns a bare String: the sub-decoder's own exception, or NoMethodError for `push` on a String |
| Field.Fetch | lib/decoding/decoders/field.rb:23-24 | (definition, no contract) `key?` and `fetch` on a Hash; its meaning is stated by `Values.LookupAbsent` and `Values.LookupFound` |
| Field.FailureRendersKey | spec/decoding/decoders/field_spec.rb:15-18 | a failing value renders as "Error at .<key>" followed by the sub-decoder's own path and message |
| Field.New | lib/decoding/decoders/field.rb:13-17 | `Field.new(key, d)` stores `String(key)` and decodes every input as `Field.Call` with it |
| Array.Element | lib/decoding/decoders/array.rb:24 | one element: raises iff its result is not clean, with the element's own exception or else NoMethodError for `push` on a String; succeeds as the element does; a Failure gets the index pushed |
| Array.Elements | lib/decoding/decoders/array.rb:23-24 | (helper) element `i` is decoded with index `i` |
| Array.Call | lib/decoding/decoders/array.rb:20-29 | a non-Array gives the bare String "expected an Array, got: <class>"; `[]` decodes to `Ok([])` |
| Array.RaisesIffUnclean | lib/decoding/decoders/array.rb:24 | it raises iff some element raises or returns a bare String |
| Array.FirstUncleanRaises | lib/decoding/decoders/array.rb:23-24 | when element `j` is the first that raises or gives a bare String, the call raises that element's exception, or NoMethodError for `push` on a String |
| Array.SucceedsIffAllDecode | lib/decoding/decoders/array.rb:22-25 | `Ok` iff every element decodes, with the decoded elements in the same order and the same number |
| Array.FirstFailurePushed | lib/decoding/decoders/array.rb:24-25 | an `Err` is the first failing element's Failure with its index pushed, all earlier elements having succeeded |
| Array.New | lib/decoding/decoders/array.rb:13-16 | `Array.new(d)` decodes every input as `Array.Call` with `d` |
| Index.FetchFromEnd | lib/decoding/decoders/index.rb:22 | a negative index `i - n` reaches element `i` |
| Index.InBounds | lib/decoding/decoders/index.rb:22-24 | (definition, no contract) the indices `fetch` accepts, `-n <= i < n` |
| Index.Fetch | lib/decoding/decoders/index.rb:22 | an in-bounds `fetch` reads element `i mod n`: `i` itself when non-negative, `n + i` when negative |
| Index.ItemError | lib/decoding/decoders/index.rb:23 | the message is "error decoding array item " then `i` in decimal, then ": " and the rendered error |
| Index.OutOfBounds | lib/decoding/decoders/index.rb:24-25 | the message is "error decoding array: index " then `i` in decimal, then " outside of array bounds: -" then `n` in decimal, "..." and `n` again |
| Index.Call | lib/decoding/decoders/index.rb:18-26 | every error is a bare String: "expected an Array, got: <class>", "error decoding array: index i outside of array bounds: -n...n" when `i` is outside `-n <= i < n`, or "error decoding array item i: <rendered error>" with nothing pushed; succeeds iff the fetched element decodes, with the same result; raises iff the sub-decoder raises |
| Index.NegativeIndexAgrees | lib/decoding/decoders/index.rb:22 | counting from the end reaches the same element: same success, same result, same raising |
| Index.New | lib/decoding/decoders/index.rb:12-16 | `Index.new(i, d)` decodes every input as `Index.Call` with that index |
| Hash.Pair | lib/decoding/decoders/hash.rb:25-35 | the key decoder runs first, then the value decoder: raises iff one of them raises (the key's exception first); `Ok` of both values iff both succeed; a key error gives the Failure "error decoding key <inspect k>: <e>", else a value error gives "error decoding value for key <inspect k>: <e>" |
| Hash.KeyMessage | lib/decoding/decoders/hash.rb:29 | (definition, no contract) the key error message |
| Hash.ValueMessage | lib/decoding/decoders/hash.rb:33 | (definition, no contract) the value error message |
| Hash.KeyMessageShape | lib/decoding/decoders/hash.rb:29 | "error decoding key ", then the key's `inspect`, then ": " and the rendered error, each at its own offset |
| Hash.ValueMessageShape | lib/decoding/decoders/hash.rb:33 | "error decoding value for key ", then the key's `inspect`, then ": " and the rendered error, each at its own offset |
| Hash.KeyAndValueMessagesDiffer | lib/decoding/decoders/hash.rb:28-33 | a key error message is never a value error message, so the two cases can be told apart |
| Hash.Pairs | lib/decoding/decoders/hash.rb:24-36 | (helper) each pair is decoded in hash order |
| Hash.Call | lib/decoding/decoders/hash.rb:21-38 | a non-Hash gives the Failure "expected Hash, got <class>"; the empty Hash decodes to the empty Hash |
| Hash.Decoded | lib/decoding/decoders/hash.rb:37 | (helper) the decoded pairs, in the input's order |
| Hash.RaisesIffSomePairRaises | lib/decoding/decoders/hash.rb:24-37 | it raises iff some key or value decoder raises |
| Hash.PairRaises | lib/decoding/decoders/hash.rb:26-33 | (definition, no contract) the key decoder raises, or the key returns and the value decoder raises |
| Hash.FirstRaisingPair | lib/decoding/decoders/hash.rb:24-36 | when pair `j` is the first whose decoders raise, the call raises the key decoder's exception if that raised, else the value decoder's |
| Hash.SucceedsIffAllDecode | lib/decoding/decoders/hash.rb:24-37 | `Ok` iff every key and value decodes, and then it is `to_h` of the decoded pairs (a later pair wins on a collision) |
| Hash.PairFailure | lib/decoding/decoders/hash.rb:25-35 | within a pair a key error is reported before a value error, as a Failure with an empty path |
| Hash.FirstFailingPair | lib/decoding/decoders/hash.rb:37 | an `Err` is the error of the first failing pair in hash order, a Failure with an empty path, all earlier pairs having decoded |
| Hash.IdentityKeepsHash | lib/decoding/decoders/hash.rb:21-38 | decoders that return their input leave a Hash unchanged |
| Hash.New | lib/decoding/decoders/hash.rb:13-17 | `Hash.new(kd, vd)` decodes every input as `Hash.Call` with those decoders |
| AndThen.Call | lib/decoding/decoders/and_then.rb:18-22 | a first result that is not `Ok` is returned unchanged; after `Ok(x)`, the result is `k(x)` run on the original input, unchanged |
| AndThen.IsResultAndThen | lib/decoding/decoders/and_then.rb:19-21 | it is the Result's `and_then` with the block's decoder applied to the original input |
| AndThen.LeftIdentity | lib/decoding/decoders/and_then.rb:18-22 | a decoder that always gives `Ok(x)`, followed by `k`, is `k(x)` |
| AndThen.RightIdentity | lib/decoding/decoders/and_then.rb:18-22 | continuing with `succeed` of the decoded value changes nothing |
| AndThen.Associative | lib/decoding/decoders/and_then.rb:18-22 | chained continuations can be regrouped |
| AndThen.New | lib/decoding/decoders/and_then.rb:12-16 | `AndThen.new(d, &k)` decodes every input as `AndThen.Call` with that decoder and block |
| Pass.Call | lib/decoding/decoders/pass.rb:10 | `Ok` of the input, unchanged, containers included; never an `Err` and never raises |
| Pass.New | lib/decoding/decoders/pass.rb:9-10 | `Pass.new` decodes every input as `Pass.Call` |
| At.FieldCongruent | lib/decoding/decoders/field.rb:24 | `Field` sees its sub-decoder only through the results it gives |
| At.NestedSnoc | lib/decoding/decoders/at.rb:23-25 | adding a key at the inner end wraps the leaf decoder in a Field |
| At.Chain | lib/decoding/decoders/at.rb:23-25 | folding `Field.new` over keys builds, on every input, the nested chain of the keys reversed |
| At.Call | lib/decoding/decoders/at.rb:21-27 | with keys `k1..kn` it is exactly `Field(k1, Field(k2, ... Field(kn, d)))`; with no keys it is `Field("", d)` |
| At.FoldedChainIsNested | lib/decoding/decoders/at.rb:22-25 | the chain built from the reversed keys is the nested chain |
| At.SingleKeyIsField | lib/decoding/decoders/at.rb:22-23 | with one key, `At` is `Field` |
| At.NotAHash | spec/decoding/decoders_spec.rb:101 | a top-level input that is not a Hash gets the outermost Field's "expected a Hash, got: <inspect>" |
| At.KeyPath | lib/decoding/decoders/at.rb:22-25 | (helper) the segments pushed are the keys as Strings, outermost first |
| At.FieldLifts | lib/decoding/decoders/field.rb:24 | one Field over a present key relates its result to the inner one with the key pushed |
| At.LiftedCompose | lib/decoding/decoders/at.rb:23-25 | two such relations compose, the inner segments first |
| At.KeyPathStep | lib/decoding/decoders/at.rb:23-25 | the pushed path of a prefix, split at its first key |
| At.DigStep | lib/decoding/decoders/at.rb:23-25 | following a prefix of keys, split at its first key |
| At.LiftedByNothing | lib/decoding/decoders/at.rb:21-27 | before any key is followed, nothing is pushed |
| At.NestedPrefix | lib/decoding/decoders/at.rb:21-27 | after the first `j` keys are present, the chain's result is the rest of the chain's result on the value reached, with those keys pushed |
| At.LeafDecides | lib/decoding/decoders/at.rb:21-27 | when every key is present, a success of the leaf is the result, and a leaf Failure comes back with every key pushed |
| At.LeafFailureRendersPath | spec/decoding/decoders_spec.rb:100 | a leaf Failure with an empty path renders as "Error at .k1.k2...kn: msg" |
| At.New | lib/decoding/decoders/at.rb:13-17 | `At.new(*keys, d)` decodes every input as `At.Call` with those keys |
| Decoders.ClassMatch | lib/decoding/decoders.rb:29-85 | `Match.new(C)` accepts exactly the members of `C`, returning them unchanged, and rejects the rest with "expected C, got <class>" |
| Decoders.String | lib/decoding/decoders.rb:29 | the String class decoder; succeeds exactly on Strings |
| Decoders.Regexp | lib/decoding/decoders.rb:36 | succeeds exactly on the Strings and Symbols the expression accepts, returning them unchanged |
| Decoders.Integer | lib/decoding/decoders.rb:44 | the Integer class decoder; succeeds exactly on Integers |
| Decoders.Float | lib/decoding/decoders.rb:52 | the Float class decoder; succeeds exactly on Floats |
| Decoders.Numeric | lib/decoding/decoders.rb:61 | the Numeric class decoder; succeeds exactly on Integers and Floats |
| Decoders.Nil | lib/decoding/decoders.rb:69 | the NilClass decoder; succeeds exactly on nil |
| Decoders.True | lib/decoding/decoders.rb:77 | the TrueClass decoder; succeeds exactly on true |
| Decoders.False | lib/decoding/decoders.rb:85 | the FalseClass decoder; succeeds exactly on false |
| Decoders.Boolean | lib/decoding/decoders.rb:93 | `true` and `false` decode to themselves; everything else gets the bare "None of the decoders matched" |
| Decoders.ToSym | lib/decoding/decoders.rb:100 | `&:to_sym` sends `to_sym` to the first value: no value raises "no receiver given"; a receiver other than a String or Symbol raises NoMethodError for `to_sym` on its class; a String or Symbol with further values raises "wrong number of arguments (given n, expected 0)" with `n` their count; one String becomes the Symbol of that name, and one Symbol stays itself |
| Decoders.ArityError | lib/decoding/decoders.rb:100 | the ArgumentError for `given` arguments to a method that takes none, with the count in decimal |
| Decoders.Symbol | lib/decoding/decoders.rb:100 | a String becomes the Symbol of that name; anything else fails with "expected String, got <class>" |
| Decoders.Succeed | lib/decoding/decoders.rb:109 | `Ok(x)` for every input |
| Decoders.Fail | lib/decoding/decoders.rb:116 | `Err(Failure.new(msg))` for every input, rendering as `msg` |
| Decoders.Original | lib/decoding/decoders.rb:123 | `Ok` of the input for every input |
| Decoders.Optional | lib/decoding/decoders.rb:171 | the decoder's result unless it is an `Err`; then nil decodes to nil and anything else gets the bare "None of the decoders matched" |
| Decoders.Zip | lib/decoding/decoders.rb:235 | (helper) `zip` pairs keys and values by position |
| Decoders.KeysOf | lib/decoding/decoders.rb:235 | (helper) the keys of the hash of decoders, in order |
| Decoders.DecodersOf | lib/decoding/decoders.rb:234 | (helper) the decoders, in order |
| Decoders.Entries | lib/decoding/decoders.rb:235 | (helper) the Hash pairing each key with its decoded value, in order |
| Decoders.Assemble | lib/decoding/decoders.rb:235 | the block of `decode_hash` always returns, and returns a Hash with distinct keys |
| Decoders.DecodeHashAt | lib/decoding/decoders.rb:233-237 | on one input: never raises; succeeds iff every decoder does, with each key paired with its decoded value; otherwise, when no decoder raises, the first failing decoder's error unchanged; a raising decoder's exception becomes "error in map block: ..." |
| Decoders.DecodeHash | lib/decoding/decoders.rb:233-237 | on every input `decode_hash` never raises; it succeeds iff every entry's decoder succeeds, and then gives the Hash pairing each key with its decoded value, in order; otherwise the first failing entry's error, unchanged, when all earlier entries returned; a raising entry with all earlier ones returning gives "error in map block: <message>" |
| Decoders.At | lib/decoding/decoders.rb:274-276 | `at(*keys, d)` with at least one key is the nested chain of Fields |
| Decoders.AndThenAsWritten | lib/decoding/decoders.rb:259 | `and_then` as written names `Decoders::AndThen`, which does not exist, so it raises NameError for "Decoding::Decoders::AndThen" |
| Decoders.AndThen | lib/decoding/decoders.rb:259 | corrected to build `Decoding::AndThen`: a first result that does not succeed is returned unchanged; after `Ok(x)` the block's decoder runs on the same input |
| Decoding.Decode | lib/decoding.rb:121 | raises iff the decoder raises, with the same exception; `Ok` passes through unchanged; an `Err` becomes the `Err` of its rendering |
| Decoding.FailureIsRendered | lib/decoding.rb:121 | an `Err(Failure)` becomes `Err` of the Failure's `to_s` |
| Decoding.PlainIsKept | lib/decoding.rb:121 | an `Err` with a bare String keeps that String |
| Decoding.OkPassesThrough | lib/decoding.rb:121 | `decode` succeeds iff the decoder does, with the same value |
| Scenarios.IntegerRejects | spec/decoding/decoders_spec.rb:22-23 | `integer` on a non-Integer gives "expected Integer, got <class>" |
| Scenarios.StringRejects | spec/decoding/decoders_spec.rb:17 | `string` on a non-String gives "expected String, got <class>" |
| Scenarios.FieldWrongType | spec/decoding/decoders_spec.rb:82 | `field("id", string)` on `{"id" => 123}` decodes to `Err("Error at .id: expected String, got Integer")` |
| Scenarios.FieldMissingKey | spec/decoding/decoders_spec.rb:81 | `field("other", integer)` on `{"id" => 123}` decodes to `Err("expected a Hash with key other")` |
| Scenarios.ArrayBadElementResult | lib/decoding/decoders/array.rb:24-25 | `array(integer)` on `[1, "2", 3]` returns the element's Failure with index 1 pushed |
| Scenarios.ArrayBadElement | spec/decoding/decoders_spec.rb:88 | and `decode` renders it as "Error at .1: expected Integer, got String" |
| Scenarios.ArrayOfOneFailure | lib/decoding/decoders/array.rb:24 | a one-element Array whose element fails with `f` gives `f` with index 0 pushed |
| Scenarios.IndexOutOfBounds | spec/decoding/decoders/index_spec.rb:22 | `index(1, integer)` on `[1]` gives the bare String "error decoding array: index 1 outside of array bounds: -1...1" |
| Scenarios.IndexItemError | lib/decoding/decoders/index.rb:23 | `index(0, integer)` on `["foo"]` gives the bare String "error decoding array item 0: expected Integer, got String" |
| Scenarios.HashValueError | spec/decoding/decoders/hash_spec.rb:17-18 | `hash(string, integer)` on `{"foo" => "bar"}` gives the Failure "error decoding value for key \"foo\": expected Integer, got String" |
| Scenarios.HashDecodes | spec/decoding/decoders_spec.rb:109 | `hash(string, integer)` on `{"john" => 1}` gives `Ok({"john" => 1})` |
| Scenarios.AtLeafFailure | spec/decoding/decoders_spec.rb:100 | `at("a", "b", "c", string)` on a nested Integer decodes to "Error at .a.b.c: expected String, got Integer" |
| Scenarios.NestedPathText | spec/decoding/decoders_spec.rb:94 | the path pushed by Array, Field, Array, Field renders as ".0.a.0.b" |
| Scenarios.NestedArraysAndFields | spec/decoding/decoders_spec.rb:91-95 | `array(field("a", array(field("b", integer))))` on a nested nil decodes to "Error at .0.a.0.b: expected Integer, got NilClass" |
| Scenarios.TwoFields | lib/decoding/failure.rb:38 | `field("a", field("b", integer))` on `{"a" => {"b" => "x"}}` decodes to "Error at .a.b: expected Integer, got String" |
| Scenarios.VersionOne | spec/decoding/decoders/and_then_spec.rb:10-21 | `AndThen.new(field("version", integer)) { ... }` reads "name" for version 1, whatever the name is |
| Scenarios.VersionTwo | spec/decoding/decoders/and_then_spec.rb:10-22 | and "fullName" for version 2 |
| Scenarios.VersionNotInteger | spec/decoding/decoders/and_then_spec.rb:25-28 | a version that is not an Integer fails at the version field: "Error at .version: expected Integer, got String" |
| Scenarios.FacadeAndThenRaises | spec/decoding/decoders_spec.rb:116-123 | the facade `and_then(...)` of the two-step example raises NameError "uninitialized constant Decoding::Decoders::AndThen" before any input is decoded |
| Scenarios.FacadeAndThenVersions | spec/decoding/decoders_spec.rb:116-126 | with the corrected facade, both versions decode to "john" as the spec expects |
| Scenarios.FieldOverBooleanRaises | lib/decoding/decoders/field.rb:24 | `field("x", boolean)` on `{"x" => 1}` raises NoMethodError for `push` on a String |
| Scenarios.PushOnStringMessage | lib/decoding/decoders/map.rb:28 | the message Ruby gives that exception, as `Map` would report it |
| Scenarios.ToSymOnIntegers | lib/decoding/decoders/map.rb:23-28 | `map(integer, integer, &:to_sym)` on `1` gives the Failure "error in map block: undefined method `to_sym' for an instance of Integer": the receiver's missing method is reported before the surplus argument |
| Scenarios.ToSymOnIntegersRescued | lib/decoding/decoders/map.rb:26-28 | both decoders succeed and the block raises NoMethodError, which `Map` rescues |
| Scenarios.IntegerAccepts | spec/decoding/decoders_spec.rb:21 | `integer` on an Integer gives `Ok` of it |

## Findings

| source | as written | input that shows it | evidently intended | confidence | as-written member | corrected member |
|---|---|---|---|---|---|---|
| lib/decoding/decoders.rb:259 | `and_then(...)` builds `Decoders::AndThen`, but the class is `Decoding::AndThen` (lib/decoding/decoders/and_then.rb:5-7), so the constant lookup raises NameError | `and_then(field("version", integer)) { ... }` from spec/decoding/decoders_spec.rb:116-123 | build `Decoding::AndThen` with the same arguments | not executed | Decoders.AndThenAsWritten | Decoders.AndThen |

## Left out

- Regular expressions: `regexp(re)` and a Regexp pattern carry the source
  text and an uninterpreted acceptance predicate; Ruby's regex engine is not
  modelled.
- Floats: a Float is an opaque token holding its printed form, with class
  `Float`; there is no float arithmetic or formatting.
- `inspect`: written in Ruby 3.3's layout for the model's values; string
  escapes other than quoting, and float formatting, are not modelled.
- Symbols: `to_sym` is a change of tag; interning is not modelled.
- `Result#hash`, `Result#inspect` and `freeze` (lib/decoding/result.rb:47-62)
  are representation details with no decoding logic.
- Value equality is Dafny equality of values, both in a value pattern of
  `Match` and in `Result#==` (`Results.StructuralEquality`,
  lib/decoding/result.rb:55-57). Ruby's `==` also equates `1` and `1.0`, so
  `Ok(1) == Ok(1.0)` holds in Ruby but not in the model, and it ignores the
  order of Hash pairs.
- Exceptions: only `NoMethodError` (from `push` on a bare String, and from
  `to_sym` on a receiver without it), `NameError` (from the `and_then`
  facade), and a `StandardError` raised by a caller's `map` block or the
  `ArgumentError` of `to_sym` are modelled. An `and_then` block is a total function, so it cannot raise.
- Index.Call: the `rescue IndexError` of lib/decoding/decoders/index.rb:24
  is modelled only for the IndexError that `fetch` raises; an IndexError
  raised from inside the sub-decoder would also be caught in Ruby.
- `RangeError` for an index too large for `fetch`: unbounded integers have
  no such limit.
- `to_int` coercion: `Index.New` takes an integer, so objects that respond
  to `to_int` are not modelled.
- `fail(x)` with an `x` that is not a String: `Decoders.Fail` takes a
  message string.
- `unwrap_err` and an "error in and_then block" rescue: the specs expect
  them, but the code has neither.
- Call order in `Any`: the laziness itself is modelled, since `Any.Call`
  stops at the first result that is not an `Err` and no later decoder can
  change or raise the result; a decoder call has no side effects in the
  model, so only the order in which calls are made is not observable.
- `map`, `any`, `field`, `array`, `index` and `hash` in
  lib/decoding/decoders.rb:150-216 hand their arguments to the `New` of the
  module of the same name unchanged; they have no functions of their own.
  `and_then` (lib/decoding/decoders.rb:259) is under "## Findings".
- `to_decoder` and lib/decoding/decoder.rb: the `Decoder` type is the
  callable itself.
- Decoders.DecodeHash: requires distinct keys, as a Ruby Hash literal has;
  with at least one decoder, as `map` needs.
- Array.Call: its own contract covers the non-Array and empty cases; the
  element cases are stated by the lemmas `Array.RaisesIffUnclean`,
  `Array.FirstUncleanRaises`, `Array.SucceedsIffAllDecode` and
  `Array.FirstFailurePushed`.
- Hash.Call: likewise, the per-pair cases are stated by
  `Hash.RaisesIffSomePairRaises`, `Hash.FirstRaisingPair`,
  `Hash.SucceedsIffAllDecode` and `Hash.FirstFailingPair`.
